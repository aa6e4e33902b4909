/** The backtracking pattern matcher of grep.c, proved equivalent to the
    language of the pattern it is given. */
module Grep {

  /** The text of a C string: everything before its terminating NUL. */
  type CString = s: string | '\0' !in s

  /** A pattern is a sequence of these.  `Star` keeps the raw character in
      front of the '*', which may itself be '.', '*', '^' or '$'. */
  datatype Item = Lit(c: char) | Any | Star(c: char)

  datatype Pattern = Pattern(items: seq<Item>, atEnd: bool)

  /** How matchhere reads a pattern: a '*' in second position always makes a
      closure, a '$' anchors only as the very last character. */
  function Parse(re: string): Pattern {
    if re == "" then Pattern([], false)
    else if |re| >= 2 && re[1] == '*' then
      var rest := Parse(re[2..]);
      Pattern([Star(re[0])] + rest.items, rest.atEnd)
    else if re == "$" then Pattern([], true)
    else
      var rest := Parse(re[1..]);
      Pattern([if re[0] == '.' then Any else Lit(re[0])] + rest.items, rest.atEnd)
  }

  ghost predicate ItemMatches(item: Item, w: string) {
    match item
    case Lit(c) => w == [c]
    case Any => |w| == 1
    case Star(c) => forall i :: 0 <= i < |w| ==> c == '.' || w[i] == c
  }

  /** `w` is a concatenation of words, one for each item. */
  ghost predicate InLanguage(items: seq<Item>, w: string) {
    if items == [] then w == ""
    else exists k :: 0 <= k <= |w| && ItemMatches(items[0], w[..k]) && InLanguage(items[1..], w[k..])
  }

  /** The substring text[i..j] is an occurrence of the pattern. */
  ghost predicate OccursAt(p: Pattern, text: string, i: nat, j: nat) {
    i <= j <= |text| && InLanguage(p.items, text[i..j]) && (p.atEnd ==> j == |text|)
  }

  ghost predicate OccursFrom(p: Pattern, text: string, i: nat) {
    exists j :: OccursAt(p, text, i, j)
  }

  /** What grep promises: a leading '^' pins the occurrence to the start. */
  ghost predicate Occurs(re: string, text: string) {
    if re != "" && re[0] == '^' then OccursFrom(Parse(re[1..]), text, 0)
    else exists i :: 0 <= i <= |text| && OccursFrom(Parse(re), text, i)
  }

  method Match(re: CString, text: CString) returns (found: bool)
    ensures found <==> Occurs(re, text)
  {
    if re != "" && re[0] == '^' {
      found := MatchHere(re[1..], text, 0);
      return;
    }
    var i := 0;
    while true
      invariant 0 <= i <= |text|
      invariant forall k :: 0 <= k < i ==> !OccursFrom(Parse(re), text, k)
      decreases |text| - i
    {
      found := MatchHere(re, text, i);
      if found || i == |text| { return; }
      i := i + 1;
    }
  }

  /** matchhere: search for re at position `at` of text. */
  method MatchHere(re: CString, text: CString, at: nat) returns (found: bool)
    requires at <= |text|
    ensures found <==> OccursFrom(Parse(re), text, at)
    decreases |re|, 0
  {
    if re == "" {
      assert OccursAt(Parse(re), text, at, at);
      return true;
    }
    if |re| >= 2 && re[1] == '*' {
      found := MatchStar(re[0], re[2..], text, at);
      StarUnfolds(Parse(re), text, at);
      return;
    }
    if re == "$" {
      assert at == |text| ==> OccursAt(Parse(re), text, at, |text|);
      return at == |text|;
    }
    hide InLanguage;
    SingleUnfolds(Parse(re), text, at);
    if at < |text| && (re[0] == '.' || re[0] == text[at]) {
      found := MatchHere(re[1..], text, at + 1);
    } else {
      found := false;
    }
  }

  /** Characters from `at` to `k` are all instances of `c`. */
  ghost predicate Run(c: char, text: string, at: nat, k: nat) {
    at <= k <= |text| && forall i :: at <= i < k ==> c == '.' || text[i] == c
  }

  /** matchstar: search for c*re at position `at` of text. */
  method MatchStar(c: char, re: CString, text: CString, at: nat) returns (found: bool)
    requires at <= |text|
    ensures found <==> exists k :: Run(c, text, at, k) && OccursFrom(Parse(re), text, k)
    decreases |re|, 1
  {
    var k := at;
    while true
      invariant Run(c, text, at, k)
      invariant forall m :: at <= m < k ==> !OccursFrom(Parse(re), text, m)
      decreases |text| - k
    {
      found := MatchHere(re, text, k);
      if found { return; }
      if k == |text| || (text[k] != c && c != '.') { return; }
      k := k + 1;
    }
  }

  /** A pattern starting with a closure occurs exactly where the rest occurs
      after some run of the closed character. */
  lemma StarUnfolds(p: Pattern, text: string, at: nat)
    requires at <= |text| && p.items != [] && p.items[0].Star?
    ensures OccursFrom(p, text, at) <==>
            exists k :: Run(p.items[0].c, text, at, k) && OccursFrom(p.(items := p.items[1..]), text, k)
  {
    var c, rest := p.items[0].c, p.(items := p.items[1..]);
    if OccursFrom(p, text, at) {
      var j: nat :| OccursAt(p, text, at, j);
      var w := text[at..j];
      var k :| 0 <= k <= |w| && ItemMatches(p.items[0], w[..k]) && InLanguage(p.items[1..], w[k..]);
      assert forall i :: at <= i < at + k ==> text[i] == w[..k][i - at];
      assert w[k..] == text[at + k..j];
      assert OccursAt(rest, text, at + k, j);
      assert Run(c, text, at, at + k);
    }
    if k: nat :| Run(c, text, at, k) && OccursFrom(rest, text, k) {
      var j: nat :| OccursAt(rest, text, k, j);
      var w := text[at..j];
      assert w[..k - at] == text[at..k] && w[k - at..] == text[k..j];
      assert OccursAt(p, text, at, j);
    }
  }

  /** A pattern starting with a literal or a dot consumes one character. */
  lemma SingleUnfolds(p: Pattern, text: string, at: nat)
    requires at <= |text| && p.items != [] && !p.items[0].Star?
    ensures OccursFrom(p, text, at) <==>
            at < |text| && (p.items[0].Any? || p.items[0].c == text[at]) && OccursFrom(p.(items := p.items[1..]), text, at + 1)
  {
    var rest := p.(items := p.items[1..]);
    if OccursFrom(p, text, at) {
      var j: nat :| OccursAt(p, text, at, j);
      var w := text[at..j];
      var k :| 0 <= k <= |w| && ItemMatches(p.items[0], w[..k]) && InLanguage(p.items[1..], w[k..]);
      assert |w[..k]| == 1 && w[..k][0] == text[at];
      assert w[k..] == text[at + 1..j];
      assert OccursAt(rest, text, at + 1, j);
    }
    if at < |text| && (p.items[0].Any? || p.items[0].c == text[at]) && OccursFrom(rest, text, at + 1) {
      var j: nat :| OccursAt(rest, text, at + 1, j);
      var w := text[at..j];
      assert w[..1] == [text[at]] && w[1..] == text[at + 1..j];
      assert OccursAt(p, text, at, j);
    }
  }

  // ----- what patterns mean, without reading them

  /** The text of a pattern. */
  function Show(items: seq<Item>, atEnd: bool): string {
    if items == [] then if atEnd then "$" else ""
    else ShowItem(items[0]) + Show(items[1..], atEnd)
  }

  function ShowItem(item: Item): string {
    match item
    case Lit(c) => [c]
    case Any => "."
    case Star(c) => [c, '*']
  }

  /** Items whose text means them wherever they stand: a literal is no dot, what
      starts with a star comes first or after a closure, and a final dollar is the
      anchor. */
  predicate Canonical(items: seq<Item>, atEnd: bool) {
    && (forall i :: 0 <= i < |items| && items[i].Lit? ==> items[i].c != '.')
    && (forall i :: 0 < i < |items| && StartsWithStar(items[i]) ==> items[i - 1].Star?)
    && (items != [] && !atEnd ==> items[|items| - 1] != Lit('$'))
  }

  predicate StartsWithStar(item: Item) {
    !item.Any? && item.c == '*'
  }

  lemma CanonicalRest(items: seq<Item>, atEnd: bool)
    requires Canonical(items, atEnd) && items != []
    ensures Canonical(items[1..], atEnd)
  {
    var rest := items[1..];
    forall i | 0 < i < |rest| && StartsWithStar(rest[i]) ensures rest[i - 1].Star? {
      assert rest[i] == items[i + 1] && rest[i - 1] == items[i];
    }
  }

  /** A printed pattern is read as the items it was printed from. */
  lemma {:induction false} ReadsBack(items: seq<Item>, atEnd: bool)
    requires Canonical(items, atEnd)
    ensures Parse(Show(items, atEnd)) == Pattern(items, atEnd)
    decreases |items|
  {
    if items != [] {
      var item, rest, re := items[0], Show(items[1..], atEnd), Show(items, atEnd);
      CanonicalRest(items, atEnd);
      ReadsBack(items[1..], atEnd);
      assert items == [item] + items[1..];
      if item.Star? {
        assert re[2..] == rest;
      } else {
        assert re[1..] == rest;
        if |items| > 1 {
          assert rest[0] == ShowItem(items[1])[0];
          assert !StartsWithStar(items[1]);
        }
      }
    }
  }

  lemma CanonicalMore(item: Item, rest: seq<Item>, atEnd: bool)
    requires Canonical(rest, atEnd) && item != Lit('.') && (rest == [] && !atEnd ==> item != Lit('$'))
    requires rest != [] && StartsWithStar(rest[0]) ==> item.Star?
    ensures Canonical([item] + rest, atEnd)
  {
    var items := [item] + rest;
    forall i | 0 < i < |items| && StartsWithStar(items[i]) ensures items[i - 1].Star? {
      if i > 1 { assert items[i] == rest[i - 1] && items[i - 1] == rest[i - 2]; }
    }
  }

  lemma ShowMore(item: Item, rest: seq<Item>, atEnd: bool)
    ensures Show([item] + rest, atEnd) == ShowItem(item) + Show(rest, atEnd)
    ensures rest != [] ==> Show(rest, atEnd) != "" && Show(rest, atEnd)[0] == ShowItem(rest[0])[0]
  {
    assert ([item] + rest)[1..] == rest;
  }

  /** Every string is the text of such a pattern. */
  lemma {:induction false} ShowsBack(re: string)
    ensures Canonical(Parse(re).items, Parse(re).atEnd) && Show(Parse(re).items, Parse(re).atEnd) == re
    decreases |re|
  {
    if re != "" && re != "$" {
      hide Canonical, Show;
      var k := if |re| >= 2 && re[1] == '*' then 2 else 1;
      var item := if k == 2 then Star(re[0]) else if re[0] == '.' then Any else Lit(re[0]);
      var rest := Parse(re[k..]);
      ShowsBack(re[k..]);
      ShowMore(item, rest.items, rest.atEnd);
      assert ShowItem(item) + re[k..] == re;
      assert rest.items == [] && !rest.atEnd ==> re[k..] == "" by { ShowNothing(); }
      CanonicalMore(item, rest.items, rest.atEnd);
    }
  }

  lemma ShowNothing()
    ensures Show([], false) == ""
  {
  }

  /** And of no other. */
  lemma OnePattern(items: seq<Item>, atEnd: bool, items': seq<Item>, atEnd': bool)
    requires Canonical(items, atEnd) && Canonical(items', atEnd') && Show(items, atEnd) == Show(items', atEnd')
    ensures items == items' && atEnd == atEnd'
  {
    ReadsBack(items, atEnd);
    ReadsBack(items', atEnd');
  }

  // ----- and on the strings themselves

  /** The characters of re stand in the text from i on, with a dot for any. */
  predicate StandsAt(re: string, text: string, i: nat) {
    i + |re| <= |text| && forall k :: 0 <= k < |re| ==> re[k] == '.' || re[k] == text[i + k]
  }

  predicate NoMeta(re: string) {
    forall k :: 0 <= k < |re| ==> re[k] != '*' && re[k] != '$' && re[k] != '^'
  }

  lemma {:induction false} PlainHere(re: string, text: string, i: nat)
    requires NoMeta(re) && i <= |text|
    ensures OccursFrom(Parse(re), text, i) <==> StandsAt(re, text, i)
    decreases |re|
  {
    if re == "" {
      assert OccursAt(Parse(re), text, i, i);
    } else {
      hide InLanguage;
      var p := Parse(re);
      assert p.items[1..] == Parse(re[1..]).items;
      SingleUnfolds(p, text, i);
      if i < |text| {
        PlainHere(re[1..], text, i + 1);
        assert StandsAt(re, text, i) <==> (re[0] == '.' || re[0] == text[i]) && StandsAt(re[1..], text, i + 1) by {
          assert forall k :: 0 < k < |re| ==> re[k] == re[1..][k - 1] && i + k == i + 1 + (k - 1);
          assert forall k :: 0 <= k < |re[1..]| ==> re[1..][k] == re[k + 1];
        }
      }
    }
  }

  /** A pattern of characters and dots is found exactly where it stands. */
  lemma PlainPattern(re: string, text: string)
    requires NoMeta(re)
    ensures Occurs(re, text) <==> exists i :: 0 <= i <= |text| && StandsAt(re, text, i)
  {
    hide Parse, OccursFrom, StandsAt;
    forall i | 0 <= i <= |text| ensures OccursFrom(Parse(re), text, i) <==> StandsAt(re, text, i) {
      PlainHere(re, text, i);
    }
  }

  /** And at the start only, after a '^'. */
  lemma AnchoredPattern(re: string, text: string)
    requires NoMeta(re)
    ensures Occurs("^" + re, text) <==> StandsAt(re, text, 0)
  {
    assert ("^" + re)[1..] == re;
    PlainHere(re, text, 0);
  }

  /** A line between '^' and '$' that is a closure consists of its character. */
  lemma ClosedLine(c: char, text: string)
    ensures Occurs(['^', c, '*', '$'], text) <==> forall k :: 0 <= k < |text| ==> c == '.' || text[k] == c
  {
    var re := ['^', c, '*', '$'];
    assert re[1..] == [c, '*', '$'] && [c, '*', '$'][2..] == "$";
    var p := Parse(re[1..]);
    assert Parse("$") == Pattern([], true);
    assert p.items == [Star(c)] && p.atEnd && p.items[1..] == [];
    var rest := Pattern([], true);
    StarUnfolds(p, text, 0);
    forall k: nat | k <= |text| ensures OccursFrom(rest, text, k) <==> k == |text| {
      assert k == |text| ==> OccursAt(rest, text, k, k);
    }
    if forall k :: 0 <= k < |text| ==> c == '.' || text[k] == c { assert Run(c, text, 0, |text|) && OccursFrom(rest, text, |text|); }
  }
}
