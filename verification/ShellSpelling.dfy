/** What a line of text means to the shell, said without its parser: how characters
    spell words and symbols, and which words and symbols spell which command.  The
    parser accepts exactly the lines that spell a command, and answers with it. */
module ShellSpelling {
  import opened ShellGrammar
  import P = ShellPrint

  // ------------------------------------------------------------------
  // Characters spell words and symbols.

  /** A word, or a symbol; '+' stands for two arrows in one. */
  datatype Lexeme = Name(w: string) | Sym(c: char)

  predicate Blank(c: char) {
    c == ' ' || c == '\t' || c == '\r' || c == '\n' || c == 11 as char
  }

  predicate Plain(c: char) {
    !Blank(c) && c != '<' && c != '|' && c != '>' && c != '&' && c != ';' && c != '(' && c != ')'
  }

  function Letters(t: Lexeme): string {
    match t
    case Name(w) => w
    case Sym(c) => if c == '+' then ">>" else [c]
  }

  predicate Proper(t: Lexeme) {
    match t
    case Name(w) => w != "" && forall k :: 0 <= k < |w| ==> Plain(w[k])
    case Sym(c) => c == '+' || c == '<' || c == '|' || c == '>' || c == '&' || c == ';' || c == '(' || c == ')'
  }

  /** The text goes on with t after k blanks, up to m, and t ends there: a word before
      what is no part of a word, one arrow not before another. */
  predicate First(text: string, t: Lexeme, k: nat, m: nat) {
    && k <= m <= |text| && Proper(t) && text[k..m] == Letters(t)
    && (forall i :: 0 <= i < k ==> Blank(text[i]))
    && (t.Name? && m < |text| ==> !Plain(text[m]))
    && (t == Sym('>') && m < |text| ==> text[m] != '>')
  }

  ghost predicate Spells(text: string, ts: seq<Lexeme>)
    decreases |ts|
  {
    if ts == [] then forall i :: 0 <= i < |text| ==> Blank(text[i])
    else exists k: nat, m: nat :: First(text, ts[0], k, m) && Spells(text[m..], ts[1..])
  }

  // ------------------------------------------------------------------
  // Words and symbols spell commands.

  datatype Redirection = Redirection(file: string, mode: nat, fd: nat)

  predicate IsArrow(t: Lexeme) {
    t == Sym('<') || t == Sym('>') || t == Sym('+')
  }

  /** Reading into descriptor 0, or writing and creating from descriptor 1. */
  function RedirOf(t: Lexeme, file: string): Redirection {
    if t == Sym('<') then Redirection(file, 0, 0) else Redirection(file, 0x201, 1)
  }

  /** Words, and arrows each before the name of a file, in any order. */
  predicate Mixed(ts: seq<Lexeme>) {
    || ts == []
    || (ts[0].Name? && Mixed(ts[1..]))
    || (|ts| >= 2 && IsArrow(ts[0]) && ts[1].Name? && Mixed(ts[2..]))
  }

  /** The words that are no file names. */
  function Args(ts: seq<Lexeme>): seq<string>
    requires Mixed(ts)
  {
    if ts == [] then [] else if ts[0].Name? then [ts[0].w] + Args(ts[1..]) else Args(ts[2..])
  }

  function Redirs(ts: seq<Lexeme>): seq<Redirection>
    requires Mixed(ts)
  {
    if ts == [] then [] else if ts[0].Name? then Redirs(ts[1..]) else [RedirOf(ts[0], ts[1].w)] + Redirs(ts[2..])
  }

  predicate OnlyRedirs(ts: seq<Lexeme>) {
    Mixed(ts) && Args(ts) == []
  }

  /** A command under redirections, the last of them outermost. */
  function Wrap(c: Cmd<string>, rs: seq<Redirection>): Cmd<string> {
    if rs == [] then c
    else
      var r := rs[|rs| - 1];
      Redir(Wrap(c, rs[..|rs| - 1]), r.file, r.mode, r.fd)
  }

  /** A simple command has fewer than ten arguments, in the order they are written, and
      its redirections around it; any command may stand in parentheses. */
  ghost predicate SpellsExec(ts: seq<Lexeme>, c: Cmd<string>)
    decreases |ts|, 0
  {
    || (Mixed(ts) && |Args(ts)| < 10 && c == Wrap(Exec(Args(ts)), Redirs(ts)))
    || exists j, d :: 0 < j < |ts| && ts[0] == Sym('(') && ts[j] == Sym(')') && OnlyRedirs(ts[j + 1..])
                      && c == Wrap(d, Redirs(ts[j + 1..])) && SpellsLine(ts[1..j], d)
  }

  ghost predicate SpellsPipe(ts: seq<Lexeme>, c: Cmd<string>)
    decreases |ts|, 1
  {
    || SpellsExec(ts, c)
    || (c.Pipe? && exists k :: 0 <= k < |ts| && ts[k] == Sym('|') && SpellsExec(ts[..k], c.left) && SpellsPipe(ts[k + 1..], c.right))
  }

  ghost predicate SpellsBack(ts: seq<Lexeme>, c: Cmd<string>)
    decreases |ts|, 2
  {
    || SpellsPipe(ts, c)
    || (c.Back? && ts != [] && ts[|ts| - 1] == Sym('&') && SpellsBack(ts[..|ts| - 1], c.cmd))
  }

  ghost predicate SpellsLine(ts: seq<Lexeme>, c: Cmd<string>)
    decreases |ts|, 3
  {
    || SpellsBack(ts, c)
    || (c.List? && exists k :: 0 <= k < |ts| && ts[k] == Sym(';') && SpellsBack(ts[..k], c.left) && SpellsLine(ts[k + 1..], c.right))
  }

  // ------------------------------------------------------------------
  // The tokens of a line are what it spells.

  function LexOf(line: Line, t: Token): Lexeme
    requires t.q <= t.eq <= |line|
  {
    if t.kind == 'a' then Name(line[t.q..t.eq]) else Sym(t.kind)
  }

  /** The tokens from p up to pos. */
  predicate Seg(line: Line, p: nat, pos: nat, ts: seq<Lexeme>)
    requires p <= |line| && pos <= |line|
    decreases |ts|
  {
    if ts == [] then Skip(line, p) == Skip(line, pos)
    else
      var t := Gettoken(line, p);
      t.kind != '\0' && LexOf(line, t) == ts[0] && Seg(line, t.next, pos, ts[1..])
  }

  lemma CharClasses(c: char)
    ensures IsSpace(c) == Blank(c) && (c != '\0' ==> IsWordChar(c) == Plain(c))
    ensures Plain(c) ==> !OneOf(c, "|();&<") && c != '>'
    ensures !Blank(c) && !OneOf(c, "|();&<") && c != '>' ==> Plain(c)
  {
  }

  lemma NoNul(line: Line, k: nat)
    requires k < |line|
    ensures line[k] != '\0'
  {
  }

  lemma {:induction false} SkipIs(line: Line, p: nat, q: nat)
    requires p <= q <= |line| && (forall i :: p <= i < q ==> Blank(line[i])) && (q < |line| ==> !Blank(line[q]))
    ensures Skip(line, p) == q
    decreases q - p
  {
    if p < |line| { CharClasses(line[p]); }
    if p < q { SkipIs(line, p + 1, q); }
  }

  lemma {:induction false} WordEndIs(line: Line, p: nat, e: nat)
    requires p <= e <= |line| && (forall i :: p <= i < e ==> Plain(line[i])) && (e < |line| ==> !Plain(line[e]))
    ensures WordEnd(line, p) == e
    decreases e - p
  {
    if p < |line| {
      NoNul(line, p);
      CharClasses(line[p]);
    }
    if p < e { WordEndIs(line, p + 1, e); }
  }

  /** A lexeme that comes first in the rest of the line is the next token. */
  lemma TokenIs(line: Line, p: nat, t: Lexeme, k: nat, m: nat)
    requires p <= |line| && First(line[p..], t, k, m)
    ensures p + m <= |line|
    ensures var tok := Gettoken(line, p);
            tok.kind != '\0' && LexOf(line, tok) == t && tok.next == Skip(line, p + m)
  {
    hide IsSpace, OneOf, IsWordChar, Skip, WordEnd, Gettoken, Proper, Letters, Plain, Blank;
    var q, e := p + k, p + m;
    assert line[p..][k..m] == line[q..e] == Letters(t);
    forall i | p <= i < q ensures Blank(line[i]) { assert line[p..][i - p] == line[i]; }
    assert m < |line[p..]| ==> line[p..][m] == line[e];
    ProperStart(t);
    assert line[q] == Letters(t)[0];
    SkipIs(line, p, q);
    SkipOnce(line, p);
    if t.Name? {
      NameToken(line, q, e);
    } else {
      forall i | 0 <= i < |Letters(t)| ensures line[q + i] == Letters(t)[i] { assert line[q..e][i] == line[q + i]; }
      SymbolToken(line, q, t.c);
    }
  }

  lemma NameToken(line: Line, q: nat, e: nat)
    requires q <= e <= |line| && Skip(line, q) == q && Proper(Name(line[q..e])) && (e < |line| ==> !Plain(line[e]))
    ensures Gettoken(line, q) == Token('a', q, e, Skip(line, e)) && Letters(Name(line[q..e])) == line[q..e]
  {
    hide IsSpace, OneOf, IsWordChar, Skip, WordEnd, Plain;
    var w := line[q..e];
    forall i | q <= i < e ensures Plain(line[i]) { assert line[i] == w[i - q]; }
    CharClasses(line[q]);
    NoNul(line, q);
    WordEndIs(line, q, e);
  }

  lemma ProperStart(t: Lexeme)
    requires Proper(t)
    ensures Letters(t) != "" && !Blank(Letters(t)[0])
    ensures t.Name? ==> Plain(Letters(t)[0]) && Letters(t) == t.w
    ensures t.Sym? ==> t.c != '\0' && t.c != 'a' && (t.c == '>' ==> |Letters(t)| == 1)
  {
  }

  lemma SymbolToken(line: Line, q: nat, c: char)
    requires q + |Letters(Sym(c))| <= |line| && Proper(Sym(c)) && Skip(line, q) == q
    requires forall i :: 0 <= i < |Letters(Sym(c))| ==> line[q + i] == Letters(Sym(c))[i]
    requires c == '>' && q + 1 < |line| ==> line[q + 1] != '>'
    ensures var e := q + |Letters(Sym(c))|; Gettoken(line, q) == Token(c, q, e, Skip(line, e))
  {
    hide Skip, WordEnd;
    assert line[q] == Letters(Sym(c))[0];
    if c == '+' { assert line[q + 1] == Letters(Sym('+'))[1]; }
  }

  /** And the next token comes first in the rest of the line. */
  lemma TokenFirst(line: Line, p: nat)
    requires p <= |line| && Gettoken(line, p).kind != '\0'
    ensures var tok := Gettoken(line, p);
            p <= tok.q && First(line[p..], LexOf(line, tok), tok.q - p, tok.eq - p) && tok.next == Skip(line, tok.eq)
  {
    hide IsSpace, IsWordChar, OneOf, Skip, WordEnd, Proper, First, Gettoken, Blank, Plain;
    var tok := Gettoken(line, p);
    TokenShape(line, p);
    forall i | p <= i < tok.q ensures Blank(line[i]) { CharClasses(line[i]); }
    if tok.kind == 'a' { NameSpelled(line, p); } else { SymbolSpelled(line, p); }
    FirstIs(line, p, tok.q, tok.eq, LexOf(line, tok));
  }

  lemma TokenShape(line: Line, p: nat)
    requires p <= |line|
    ensures Gettoken(line, p).q == Skip(line, p) && Gettoken(line, p).next == Skip(line, Gettoken(line, p).eq)
  {
    hide IsSpace, IsWordChar, OneOf, WordEnd;
    P.SkipTwice(line, p);
  }

  lemma FirstIs(line: Line, p: nat, q: nat, e: nat, t: Lexeme)
    requires p <= q <= e <= |line| && Proper(t) && line[q..e] == Letters(t) && forall i :: p <= i < q ==> Blank(line[i])
    requires (t.Name? && e < |line| ==> !Plain(line[e])) && (t == Sym('>') && e < |line| ==> line[e] != '>')
    ensures First(line[p..], t, q - p, e - p)
  {
    hide Proper, Blank, Plain;
    assert line[p..][q - p..e - p] == line[q..e];
  }

  lemma NameSpelled(line: Line, p: nat)
    requires p <= |line| && Gettoken(line, p).kind == 'a'
    ensures var tok := Gettoken(line, p);
            Proper(Name(line[tok.q..tok.eq])) && (tok.eq < |line| ==> !Plain(line[tok.eq]))
  {
    hide IsSpace, IsWordChar, Skip, WordEnd, Plain, Blank;
    var tok := Gettoken(line, p);
    assert SpanOk(line, Span(tok.q, tok.eq));
    var w := line[tok.q..tok.eq];
    forall i | 0 <= i < |w| ensures Plain(w[i]) {
      CharClasses(line[tok.q + i]);
      NoNul(line, tok.q + i);
    }
    if tok.eq < |line| {
      CharClasses(line[tok.eq]);
      NoNul(line, tok.eq);
    }
  }

  lemma SymbolSpelled(line: Line, p: nat)
    requires p <= |line| && Gettoken(line, p).kind != '\0' && Gettoken(line, p).kind != 'a'
    ensures var tok := Gettoken(line, p);
            && Proper(Sym(tok.kind)) && line[tok.q..tok.eq] == Letters(Sym(tok.kind))
            && (tok.kind == '>' && tok.eq < |line| ==> line[tok.eq] != '>')
  {
    hide Skip, WordEnd;
  }

  lemma SkipOnce(line: Line, p: nat)
    requires p <= |line|
    ensures Skip(line, Skip(line, p)) == Skip(line, p) && Gettoken(line, Skip(line, p)) == Gettoken(line, p)
  {
    hide IsSpace, OneOf, IsWordChar, WordEnd;
    P.SkipTwice(line, p);
  }

  lemma SegSkip(line: Line, p: nat, pos: nat, ts: seq<Lexeme>)
    requires p <= |line| && pos <= |line|
    ensures Seg(line, Skip(line, p), pos, ts) == Seg(line, p, pos, ts)
  {
    hide IsSpace, OneOf, IsWordChar, WordEnd, Skip, Gettoken;
    SkipOnce(line, p);
  }

  lemma SpelledFirst(text: string, ts: seq<Lexeme>) returns (k: nat, m: nat)
    requires ts != [] && Spells(text, ts)
    ensures m <= |text| && First(text, ts[0], k, m) && Spells(text[m..], ts[1..])
  {
    k, m :| First(text, ts[0], k, m) && Spells(text[m..], ts[1..]);
  }

  lemma SpellsMore(text: string, ts: seq<Lexeme>, k: nat, m: nat)
    requires ts != [] && m <= |text| && First(text, ts[0], k, m) && Spells(text[m..], ts[1..])
    ensures Spells(text, ts)
  {
  }

  /** A line spells its tokens and nothing else. */
  lemma {:induction false} SpelledTokens(line: Line, p: nat, ts: seq<Lexeme>)
    requires p <= |line|
    ensures Spells(line[p..], ts) <==> Seg(line, p, |line|, ts)
    decreases |ts|
  {
    hide IsSpace, OneOf, IsWordChar, WordEnd, Skip, Gettoken, First, Blank;
    if ts == [] {
      BlankRest(line, p);
    } else {
      if Spells(line[p..], ts) {
        var k, m := SpelledFirst(line[p..], ts);
        TokenIs(line, p, ts[0], k, m);
        assert line[p..][m..] == line[p + m..];
        SpelledTokens(line, p + m, ts[1..]);
        SegSkip(line, p + m, |line|, ts[1..]);
      }
      if Seg(line, p, |line|, ts) {
        var tok := Gettoken(line, p);
        TokenFirst(line, p);
        var m := tok.eq - p;
        assert line[p..][m..] == line[tok.eq..];
        SegSkip(line, tok.eq, |line|, ts[1..]);
        SpelledTokens(line, tok.eq, ts[1..]);
        SpellsMore(line[p..], ts, tok.q - p, m);
      }
    }
  }

  lemma BlankRest(line: Line, p: nat)
    requires p <= |line|
    ensures (forall i :: 0 <= i < |line[p..]| ==> Blank(line[p..][i])) <==> Skip(line, p) == Skip(line, |line|)
  {
    hide IsSpace;
    if forall i :: 0 <= i < |line[p..]| ==> Blank(line[p..][i]) {
      forall i | p <= i < |line| ensures Blank(line[i]) { assert line[p..][i - p] == line[i]; }
      SkipIs(line, p, |line|);
    }
    if Skip(line, p) == |line| {
      forall i | 0 <= i < |line[p..]| ensures Blank(line[p..][i]) { CharClasses(line[p + i]); }
    }
  }

  // ------------------------------------------------------------------
  // Stretches of tokens.

  lemma {:induction false} SegJoin(line: Line, p: nat, mid: nat, pos: nat, ts: seq<Lexeme>, us: seq<Lexeme>)
    requires p <= |line| && mid <= |line| && pos <= |line| && Seg(line, p, mid, ts) && Seg(line, mid, pos, us)
    ensures Seg(line, p, pos, ts + us)
    decreases |ts|
  {
    hide IsSpace, OneOf, IsWordChar, WordEnd, Skip, Gettoken;
    if ts == [] {
      assert ts + us == us;
      SegSkip(line, p, pos, us);
      SegSkip(line, mid, pos, us);
    } else {
      SegJoin(line, Gettoken(line, p).next, mid, pos, ts[1..], us);
      assert (ts + us)[1..] == ts[1..] + us;
    }
  }

  lemma SegOne(line: Line, p: nat)
    requires p <= |line| && Gettoken(line, p).kind != '\0'
    ensures Seg(line, p, Gettoken(line, p).next, [LexOf(line, Gettoken(line, p))])
  {
    hide IsSpace, OneOf, IsWordChar, WordEnd, Skip, Gettoken;
    assert [LexOf(line, Gettoken(line, p))][1..] == [];
  }

  lemma SegNone(line: Line, p: nat)
    requires p <= |line|
    ensures Seg(line, p, p, []) && Seg(line, p, Skip(line, p), []) && Seg(line, Skip(line, p), p, [])
  {
    hide IsSpace, OneOf, IsWordChar, WordEnd, Skip, Gettoken;
    SkipOnce(line, p);
  }

  /** What peek sees is what gettoken is going to answer. */
  lemma PeekIs(line: Line, p: nat)
    requires p <= |line|
    ensures var k := Gettoken(line, p).kind;
            && (Peek(line, p, "<>") <==> k == '<' || k == '>' || k == '+')
            && (Peek(line, p, "|)&;") <==> k == '|' || k == ')' || k == '&' || k == ';')
            && (Peek(line, p, "(") <==> k == '(') && (Peek(line, p, ")") <==> k == ')')
            && (Peek(line, p, "|") <==> k == '|') && (Peek(line, p, "&") <==> k == '&') && (Peek(line, p, ";") <==> k == ';')
  {
    hide IsSpace, IsWordChar, WordEnd, Skip;
    var q := Skip(line, p);
    if q < |line| { NoNul(line, q); }
  }

  // ------------------------------------------------------------------
  // Commands under redirections.

  lemma WrapMore(c: Cmd<string>, rs: seq<Redirection>, r: Redirection)
    ensures Wrap(c, rs + [r]) == Redir(Wrap(c, rs), r.file, r.mode, r.fd)
  {
    assert (rs + [r])[..|rs|] == rs;
  }

  lemma {:induction false} WrapTwice(c: Cmd<string>, rs: seq<Redirection>, us: seq<Redirection>)
    ensures Wrap(Wrap(c, rs), us) == Wrap(c, rs + us)
    decreases |us|
  {
    if us == [] {
      assert rs + us == rs;
    } else {
      var n := |us| - 1;
      WrapTwice(c, rs, us[..n]);
      assert rs + us == (rs + us[..n]) + [us[n]];
      WrapMore(c, rs + us[..n], us[n]);
    }
  }

  lemma {:induction false} WrapAddArg(argv: seq<string>, rs: seq<Redirection>, w: string)
    ensures AddArg(Wrap(Exec(argv), rs), w) == Wrap(Exec(argv + [w]), rs)
    decreases |rs|
  {
    if rs != [] { WrapAddArg(argv, rs[..|rs| - 1], w); }
  }

  lemma {:induction false} TextAddArg(line: Line, c: Cmd<Span>, sp: Span)
    ensures P.Text(line, AddArg(c, sp)) == AddArg(P.Text(line, c), P.Word(line, sp))
  {
    match c
    case Exec(argv) =>
      assert P.Text(line, AddArg(c, sp)).argv == P.Text(line, c).argv + [P.Word(line, sp)];
    case Redir(d, _, _, _) => TextAddArg(line, d, sp);
    case _ =>
  }

  lemma ConsArg(w: string, ts: seq<Lexeme>)
    requires Mixed(ts)
    ensures Mixed([Name(w)] + ts) && Args([Name(w)] + ts) == [w] + Args(ts) && Redirs([Name(w)] + ts) == Redirs(ts)
  {
    assert ([Name(w)] + ts)[1..] == ts;
  }

  lemma ConsRedir(t: Lexeme, w: string, ts: seq<Lexeme>)
    requires Mixed(ts) && IsArrow(t)
    ensures Mixed([t, Name(w)] + ts) && Args([t, Name(w)] + ts) == Args(ts)
    ensures Redirs([t, Name(w)] + ts) == [RedirOf(t, w)] + Redirs(ts)
  {
    assert ([t, Name(w)] + ts)[2..] == ts;
  }

  /** A non-empty mixture starts with a word or a redirection. */
  lemma MixedStarts(ts: seq<Lexeme>)
    requires Mixed(ts) && ts != []
    ensures ts[0].Name? ==> Mixed(ts[1..]) && ts == [Name(ts[0].w)] + ts[1..]
    ensures !ts[0].Name? ==> |ts| >= 2 && IsArrow(ts[0]) && ts[1].Name? && Mixed(ts[2..]) && ts == [ts[0], Name(ts[1].w)] + ts[2..]
  {
  }

  /** b after a is a mixture, with the arguments and the redirections of both. */
  predicate Joins(a: seq<Lexeme>, b: seq<Lexeme>)
    requires Mixed(a) && Mixed(b)
  {
    Mixed(a + b) && Args(a + b) == Args(a) + Args(b) && Redirs(a + b) == Redirs(a) + Redirs(b)
  }

  lemma JoinsArg(w: string, a: seq<Lexeme>, b: seq<Lexeme>)
    requires Mixed(a) && Mixed(b) && Joins(a, b)
    ensures Mixed([Name(w)] + a) && Joins([Name(w)] + a, b)
  {
    hide Mixed, Args, Redirs;
    ConsArg(w, a);
    ConsArg(w, a + b);
    assert ([Name(w)] + a) + b == [Name(w)] + (a + b);
  }

  lemma JoinsRedir(t: Lexeme, w: string, a: seq<Lexeme>, b: seq<Lexeme>)
    requires Mixed(a) && Mixed(b) && Joins(a, b) && IsArrow(t)
    ensures Mixed([t, Name(w)] + a) && Joins([t, Name(w)] + a, b)
  {
    hide Mixed, Args, Redirs, IsArrow;
    ConsRedir(t, w, a);
    ConsRedir(t, w, a + b);
    assert ([t, Name(w)] + a) + b == [t, Name(w)] + (a + b);
  }

  lemma {:induction false} MixedJoin(a: seq<Lexeme>, b: seq<Lexeme>)
    requires Mixed(a) && Mixed(b)
    ensures Joins(a, b)
    decreases |a|
  {
    if a == [] {
      assert a + b == b;
    } else {
      hide Mixed, Args, Redirs, IsArrow, Joins;
      MixedStarts(a);
      if a[0].Name? {
        MixedJoin(a[1..], b);
        JoinsArg(a[0].w, a[1..], b);
      } else {
        MixedJoin(a[2..], b);
        JoinsRedir(a[0], a[1].w, a[2..], b);
      }
    }
  }

  lemma OneArg(w: string)
    ensures Mixed([Name(w)]) && Args([Name(w)]) == [w] && Redirs([Name(w)]) == []
  {
    assert [Name(w)][1..] == [];
  }

  lemma OneRedirection(t: Lexeme, w: string)
    requires IsArrow(t)
    ensures OnlyRedirs([t, Name(w)]) && Redirs([t, Name(w)]) == [RedirOf(t, w)]
  {
    assert [t, Name(w)][2..] == [];
  }

  // ------------------------------------------------------------------
  // What the parser answers, its tokens spell.

  lemma {:induction false} RedirsSound(line: Line, p: nat, cmd: Cmd<Span>) returns (ts: seq<Lexeme>)
    requires p <= |line| && ParseRedirs(line, p, cmd).Done?
    ensures var r := ParseRedirs(line, p, cmd);
            && Seg(line, p, r.pos, ts) && OnlyRedirs(ts) && P.Text(line, r.cmd) == Wrap(P.Text(line, cmd), Redirs(ts))
    decreases |line| - p
  {
    hide IsSpace, OneOf, IsWordChar, WordEnd, Skip, Gettoken, Peek, TreeOk, IsSimple, SpanOk, Seg, Mixed, Wrap, Args, Redirs;
    var s := Skip(line, p);
    SkipOnce(line, p);
    SegNone(line, p);
    PeekIs(line, s);
    NoRedirs(P.Text(line, cmd));
    ts := [];
    if Peek(line, s, "<>") {
      var t := Gettoken(line, s);
      var f := Gettoken(line, t.next);
      var sp := Span(f.q, f.eq);
      var more := Redir(cmd, sp, if t.kind == '<' then 0 else 0x201, if t.kind == '<' then 0 else 1);
      var rest := RedirsSound(line, f.next, more);
      var a, b := LexOf(line, t), LexOf(line, f);
      SegOne(line, s);
      SegOne(line, t.next);
      SegJoin(line, s, t.next, f.next, [a], [b]);
      assert [a] + [b] == [a, b];
      var pos := ParseRedirs(line, p, cmd).pos;
      SegJoin(line, s, f.next, pos, [a, b], rest);
      SegSkip(line, p, pos, [a, b] + rest);
      ts := [a, b] + rest;
      OneRedirection(a, b.w);
      MixedJoin([a, b], rest);
      assert Redirs(ts) == [RedirOf(a, b.w)] + Redirs(rest);
      WrapMore(P.Text(line, cmd), [], RedirOf(a, b.w));
      assert [] + [RedirOf(a, b.w)] == [RedirOf(a, b.w)];
      WrapTwice(P.Text(line, cmd), [RedirOf(a, b.w)], Redirs(rest));
    }
  }

  lemma NoRedirs(c: Cmd<string>)
    ensures OnlyRedirs([]) && Redirs([]) == [] && Args([]) == [] && Wrap(c, []) == c
  {
  }

  lemma {:induction false} ArgsSound(line: Line, p: nat, argc: nat, cmd: Cmd<Span>, argv: seq<string>, rs: seq<Redirection>)
    returns (ts: seq<Lexeme>)
    requires p <= |line| && ParseArgs(line, p, argc, cmd).Done? && P.Text(line, cmd) == Wrap(Exec(argv), rs) && |argv| == argc < 10
    ensures var r := ParseArgs(line, p, argc, cmd);
            && Seg(line, p, r.pos, ts) && Mixed(ts) && |argv + Args(ts)| < 10
            && P.Text(line, r.cmd) == Wrap(Exec(argv + Args(ts)), rs + Redirs(ts))
    decreases |line| - p
  {
    hide IsSpace, OneOf, IsWordChar, WordEnd, Skip, Gettoken, Peek, TreeOk, IsSimple, SpanOk, Seg, Mixed, Wrap, Args, Redirs, ParseRedirs, AddArg, P.Text, P.Word;
    var s := Skip(line, p);
    SkipOnce(line, p);
    SegNone(line, p);
    PeekIs(line, s);
    NoRedirs(Exec([]));
    ts := [];
    assert argv + [] == argv && rs + [] == rs;
    var t := Gettoken(line, s);
    if t.kind == '\0' { EndOfLine(line, p); }
    if !Peek(line, s, "|)&;") && t.kind != '\0' {
      var sp := Span(t.q, t.eq);
      var more := AddArg(cmd, sp);
      var next := ParseRedirs(line, t.next, more);
      var w, r := P.Word(line, sp), ParseArgs(line, p, argc, cmd);
      TextAddArg(line, cmd, sp);
      WrapAddArg(argv, rs, w);
      var us := RedirsSound(line, t.next, more);
      WrapTwice(Exec(argv + [w]), rs, Redirs(us));
      var rest := ArgsSound(line, next.pos, argc + 1, next.cmd, argv + [w], rs + Redirs(us));
      NameOf(line, s);
      SegOne(line, s);
      SegJoin(line, s, t.next, next.pos, [Name(w)], us);
      SegJoin(line, s, next.pos, r.pos, [Name(w)] + us, rest);
      ts := [Name(w)] + us + rest;
      SegSkip(line, p, r.pos, ts);
      ConsArg(w, us);
      MixedJoin([Name(w)] + us, rest);
      assert argv + ([w] + Args(rest)) == (argv + [w]) + Args(rest);
      assert rs + (Redirs(us) + Redirs(rest)) == (rs + Redirs(us)) + Redirs(rest);
      assert [w] + [] == [w];
    }
  }

  lemma EndOfLine(line: Line, p: nat)
    requires p <= |line| && Gettoken(line, p).kind == '\0'
    ensures Gettoken(line, p).next == Skip(line, p) == |line|
  {
    hide IsSpace, IsWordChar, WordEnd, Skip;
    var q := Skip(line, p);
    if q < |line| { NoNul(line, q); }
  }

  lemma NameOf(line: Line, p: nat)
    requires p <= |line| && Gettoken(line, p).kind == 'a'
    ensures var t := Gettoken(line, p); LexOf(line, t) == Name(P.Word(line, Span(t.q, t.eq)))
  {
    hide Gettoken;
  }

  lemma {:induction false} ExecSound(line: Line, p: nat) returns (ts: seq<Lexeme>)
    requires p <= |line| && ParseExec(line, p).Done?
    ensures var r := ParseExec(line, p); Seg(line, p, r.pos, ts) && SpellsExec(ts, P.Text(line, r.cmd))
    decreases |line| - p, 1
  {
    hide IsSpace, OneOf, IsWordChar, WordEnd, Skip, Gettoken, Peek, TreeOk, IsSimple, SpanOk, Seg, Mixed, Wrap, Args, Redirs, ParseRedirs, ParseArgs, SpellsLine;
    var s := Skip(line, p);
    SkipOnce(line, p);
    PeekIs(line, s);
    var r := ParseExec(line, p);
    if Peek(line, s, "(") {
      ts := BlockSound(line, s);
    } else {
      var first := ParseRedirs(line, s, Exec([]));
      var us := RedirsSound(line, s, Exec([]));
      assert P.Text(line, Exec([])) == Exec([]);
      var rest := ArgsSound(line, first.pos, 0, first.cmd, [], Redirs(us));
      ts := us + rest;
      SegJoin(line, s, first.pos, r.pos, us, rest);
      MixedJoin(us, rest);
      assert [] + Args(rest) == Args(rest);
    }
    SegSkip(line, p, r.pos, ts);
  }

  lemma {:induction false} BlockSound(line: Line, p: nat) returns (ts: seq<Lexeme>)
    requires p <= |line| && ParseBlock(line, p).Done? && Skip(line, p) == p
    ensures var r := ParseBlock(line, p); Seg(line, p, r.pos, ts) && SpellsExec(ts, P.Text(line, r.cmd))
    decreases |line| - p, 0
  {
    hide IsSpace, OneOf, IsWordChar, WordEnd, Skip, Gettoken, Peek, TreeOk, IsSimple, SpanOk, Seg, Mixed, Wrap, Args, Redirs, ParseRedirs, ParseLine, SpellsLine, SpellsExec;
    PeekIs(line, p);
    var open := Gettoken(line, p);
    var inner := ParseLine(line, open.next);
    var us := LineSound(line, open.next);
    SkipOnce(line, inner.pos);
    PeekIs(line, inner.pos);
    var close := Gettoken(line, inner.pos);
    var vs := RedirsSound(line, close.next, inner.cmd);
    var r := ParseBlock(line, p);
    SegOne(line, p);
    SegOne(line, inner.pos);
    SegJoin(line, p, open.next, inner.pos, [Sym('(')], us);
    SegJoin(line, p, inner.pos, close.next, [Sym('(')] + us, [Sym(')')]);
    SegJoin(line, p, close.next, r.pos, [Sym('(')] + us + [Sym(')')], vs);
    ts := [Sym('(')] + us + [Sym(')')] + vs;
    BlockSpelled(us, vs, P.Text(line, inner.cmd));
  }

  lemma BlockSpelled(us: seq<Lexeme>, vs: seq<Lexeme>, d: Cmd<string>)
    requires SpellsLine(us, d) && OnlyRedirs(vs)
    ensures SpellsExec([Sym('(')] + us + [Sym(')')] + vs, Wrap(d, Redirs(vs)))
  {
    hide SpellsLine, Mixed, Args, Redirs, Wrap;
    var ts, j := [Sym('(')] + us + [Sym(')')] + vs, |us| + 1;
    assert ts[1..j] == us && ts[j + 1..] == vs && ts[0] == Sym('(') && ts[j] == Sym(')');
  }

  lemma {:induction false} PipeSound(line: Line, p: nat) returns (ts: seq<Lexeme>)
    requires p <= |line| && ParsePipe(line, p).Done?
    ensures var r := ParsePipe(line, p); Seg(line, p, r.pos, ts) && SpellsPipe(ts, P.Text(line, r.cmd))
    decreases |line| - p, 2
  {
    hide IsSpace, OneOf, IsWordChar, WordEnd, Skip, Gettoken, Peek, TreeOk, Seg, ParseExec, SpellsExec, SpellsPipe;
    var left := ParseExec(line, p);
    var us := ExecSound(line, p);
    var s := Skip(line, left.pos);
    SkipOnce(line, left.pos);
    SegNone(line, left.pos);
    PeekIs(line, s);
    if Peek(line, s, "|") {
      var t := Gettoken(line, s);
      var right := ParsePipe(line, t.next);
      var vs := PipeSound(line, t.next);
      SegOne(line, s);
      SegSkip(line, left.pos, t.next, [Sym('|')]);
      SegJoin(line, p, left.pos, t.next, us, [Sym('|')]);
      SegJoin(line, p, t.next, right.pos, us + [Sym('|')], vs);
      ts := us + [Sym('|')] + vs;
      PipeSpelled(us, vs, P.Text(line, left.cmd), P.Text(line, right.cmd));
    } else {
      SegJoin(line, p, left.pos, s, us, []);
      ts := us + [];
      assert ts == us;
      ExecIsPipe(us, P.Text(line, left.cmd));
    }
  }

  lemma ExecIsPipe(ts: seq<Lexeme>, c: Cmd<string>)
    requires SpellsExec(ts, c)
    ensures SpellsPipe(ts, c)
  {
  }

  lemma PipeSpelled(us: seq<Lexeme>, vs: seq<Lexeme>, l: Cmd<string>, r: Cmd<string>)
    requires SpellsExec(us, l) && SpellsPipe(vs, r)
    ensures SpellsPipe(us + [Sym('|')] + vs, Pipe(l, r))
  {
    hide SpellsExec;
    var ts, k := us + [Sym('|')] + vs, |us|;
    assert ts[..k] == us && ts[k + 1..] == vs && ts[k] == Sym('|');
  }

  /** The loop over ampersands, after tokens that already spell its command. */
  lemma {:induction false} BacksSound(line: Line, start: nat, p: nat, cmd: Cmd<Span>, us: seq<Lexeme>) returns (ts: seq<Lexeme>)
    requires start <= |line| && p <= |line| && Seg(line, start, p, us) && SpellsBack(us, P.Text(line, cmd))
    ensures var r := ParseBacks(line, p, cmd); Seg(line, start, r.pos, ts) && SpellsBack(ts, P.Text(line, r.cmd))
    decreases |line| - p
  {
    hide IsSpace, OneOf, IsWordChar, WordEnd, Skip, Gettoken, Peek, TreeOk, Seg, SpellsBack;
    var s := Skip(line, p);
    SkipOnce(line, p);
    SegNone(line, p);
    PeekIs(line, s);
    if Peek(line, s, "&") {
      var t := Gettoken(line, s);
      SegOne(line, s);
      SegSkip(line, p, t.next, [Sym('&')]);
      SegJoin(line, start, p, t.next, us, [Sym('&')]);
      BackSpelled(us, P.Text(line, cmd));
      ts := BacksSound(line, start, t.next, Back(cmd), us + [Sym('&')]);
    } else {
      SegJoin(line, start, p, s, us, []);
      ts := us + [];
      assert ts == us;
    }
  }

  lemma BackSpelled(us: seq<Lexeme>, c: Cmd<string>)
    requires SpellsBack(us, c)
    ensures SpellsBack(us + [Sym('&')], Back(c))
  {
    hide SpellsPipe;
    assert (us + [Sym('&')])[..|us|] == us;
  }

  lemma PipeIsBack(ts: seq<Lexeme>, c: Cmd<string>)
    requires SpellsPipe(ts, c)
    ensures SpellsBack(ts, c)
  {
  }

  lemma BackIsLine(ts: seq<Lexeme>, c: Cmd<string>)
    requires SpellsBack(ts, c)
    ensures SpellsLine(ts, c)
  {
  }

  lemma LineSpelled(us: seq<Lexeme>, vs: seq<Lexeme>, l: Cmd<string>, r: Cmd<string>)
    requires SpellsBack(us, l) && SpellsLine(vs, r)
    ensures SpellsLine(us + [Sym(';')] + vs, List(l, r))
  {
    hide SpellsBack;
    var ts, k := us + [Sym(';')] + vs, |us|;
    assert ts[..k] == us && ts[k + 1..] == vs && ts[k] == Sym(';');
  }

  lemma {:induction false} LineSound(line: Line, p: nat) returns (ts: seq<Lexeme>)
    requires p <= |line| && ParseLine(line, p).Done?
    ensures var r := ParseLine(line, p); Seg(line, p, r.pos, ts) && SpellsLine(ts, P.Text(line, r.cmd))
    decreases |line| - p, 3
  {
    hide IsSpace, OneOf, IsWordChar, WordEnd, Skip, Gettoken, Peek, TreeOk, Seg, ParsePipe, ParseBacks, SpellsPipe, SpellsBack, SpellsLine;
    var first := ParsePipe(line, p);
    var us0 := PipeSound(line, p);
    PipeIsBack(us0, P.Text(line, first.cmd));
    var left := ParseBacks(line, first.pos, first.cmd);
    var us := BacksSound(line, p, first.pos, first.cmd, us0);
    var s := Skip(line, left.pos);
    SkipOnce(line, left.pos);
    SegNone(line, left.pos);
    PeekIs(line, s);
    if Peek(line, s, ";") {
      var t := Gettoken(line, s);
      var right := ParseLine(line, t.next);
      var vs := LineSound(line, t.next);
      SegOne(line, s);
      SegSkip(line, left.pos, t.next, [Sym(';')]);
      SegJoin(line, p, left.pos, t.next, us, [Sym(';')]);
      SegJoin(line, p, t.next, right.pos, us + [Sym(';')], vs);
      ts := us + [Sym(';')] + vs;
      LineSpelled(us, vs, P.Text(line, left.cmd), P.Text(line, right.cmd));
    } else {
      SegJoin(line, p, left.pos, s, us, []);
      ts := us + [];
      assert ts == us;
      BackIsLine(us, P.Text(line, left.cmd));
    }
  }

  // ------------------------------------------------------------------
  // What tokens spell, the parser answers.

  lemma {:induction false} SegSplit(line: Line, p: nat, pos: nat, ts: seq<Lexeme>, j: nat) returns (mid: nat)
    requires p <= |line| && pos <= |line| && Seg(line, p, pos, ts) && j <= |ts|
    ensures mid <= |line| && Seg(line, p, mid, ts[..j]) && Seg(line, mid, pos, ts[j..])
    decreases |ts|
  {
    hide IsSpace, OneOf, IsWordChar, WordEnd, Skip, Gettoken;
    if j == 0 {
      mid := p;
      assert ts[..0] == [] && ts[0..] == ts;
    } else {
      mid := SegSplit(line, Gettoken(line, p).next, pos, ts[1..], j - 1);
      assert ts[..j][1..] == ts[1..][..j - 1] && ts[1..][j - 1..] == ts[j..];
    }
  }

  lemma SegFirst(line: Line, p: nat, pos: nat, ts: seq<Lexeme>)
    requires p <= |line| && pos <= |line| && Seg(line, p, pos, ts) && ts != []
    ensures var t := Gettoken(line, p);
            && Seg(line, t.next, pos, ts[1..]) && t.kind != '\0'
            && (ts[0].Name? ==> t.kind == 'a' && P.Word(line, Span(t.q, t.eq)) == ts[0].w) && (ts[0].Sym? ==> t.kind == ts[0].c)
  {
    hide Gettoken;
  }

  lemma FollowIs(line: Line, p: nat)
    requires p <= |line|
    ensures var k := Gettoken(line, p).kind;
            && (P.Follow(line, p, "|)&;") <==> k == '\0' || k == '|' || k == ')' || k == '&' || k == ';')
            && (P.Follow(line, p, ")&;") <==> k == '\0' || k == ')' || k == '&' || k == ';')
            && (P.Follow(line, p, ")") <==> k == '\0' || k == ')')
  {
    hide IsSpace, IsWordChar, WordEnd, Skip;
    var q := Skip(line, p);
    if q < |line| { NoNul(line, q); }
  }

  lemma FollowHere(line: Line, p: nat, pos: nat, toks: string)
    requires p <= |line| && pos <= |line| && Seg(line, p, pos, []) && P.Follow(line, pos, toks)
    ensures Skip(line, p) == Skip(line, pos) && P.Follow(line, p, toks)
  {
    hide Skip;
  }

  lemma ArgStep(line: Line, p: nat, argc: nat, cmd: Cmd<Span>)
    requires p <= |line| && Gettoken(line, p).kind == 'a' && argc + 1 < 10
    ensures var t := Gettoken(line, p);
            P.ExecFrom(line, p, argc, cmd) == P.ExecFrom(line, t.next, argc + 1, AddArg(cmd, Span(t.q, t.eq)))
  {
    hide IsSpace, OneOf, IsWordChar, WordEnd, Skip, Gettoken, Peek, TreeOk, IsSimple, SpanOk, AddArg;
    var s := Skip(line, p);
    SkipOnce(line, p);
    PeekIs(line, s);
    assert ParseRedirs(line, p, cmd) == Done(cmd, s);
  }

  lemma RedirStep(line: Line, p: nat, cmd: Cmd<Span>)
    requires p <= |line| && IsArrow(Sym(Gettoken(line, p).kind)) && Gettoken(line, Gettoken(line, p).next).kind == 'a'
    ensures var f, input := Gettoken(line, Gettoken(line, p).next), Gettoken(line, p).kind == '<';
            ParseRedirs(line, p, cmd) ==
            ParseRedirs(line, f.next, Redir(cmd, Span(f.q, f.eq), if input then 0 else 0x201, if input then 0 else 1))
  {
    hide IsSpace, OneOf, IsWordChar, WordEnd, Skip, Gettoken, Peek, TreeOk, IsSimple, SpanOk;
    SkipOnce(line, p);
    PeekIs(line, Skip(line, p));
  }

  lemma TextRedir(line: Line, cmd: Cmd<Span>, sp: Span, t: Lexeme, rs: seq<Redirection>, c: Cmd<string>)
    requires P.Text(line, cmd) == Wrap(c, rs) && IsArrow(t)
    ensures P.Text(line, Redir(cmd, sp, if t == Sym('<') then 0 else 0x201, if t == Sym('<') then 0 else 1))
            == Wrap(c, rs + [RedirOf(t, P.Word(line, sp))])
  {
    hide Wrap, P.Word;
    WrapMore(c, rs, RedirOf(t, P.Word(line, sp)));
  }

  lemma {:induction false} SimpleComplete(line: Line, p: nat, pos: nat, ts: seq<Lexeme>, cmd: Cmd<Span>, argv: seq<string>, rs: seq<Redirection>)
    returns (cs: Cmd<Span>)
    requires p <= |line| && pos <= |line| && Seg(line, p, pos, ts) && P.Follow(line, pos, "|)&;")
    requires Mixed(ts) && |argv + Args(ts)| < 10 && P.Text(line, cmd) == Wrap(Exec(argv), rs)
    ensures P.ExecFrom(line, p, |argv|, cmd) == Done(cs, Skip(line, pos))
    ensures P.Text(line, cs) == Wrap(Exec(argv + Args(ts)), rs + Redirs(ts))
    decreases |ts|
  {
    hide IsSpace, OneOf, IsWordChar, WordEnd, Skip, Gettoken, Peek, Seg, Mixed, Wrap, Args, Redirs, P.ExecFrom, AddArg, P.Text, P.Word, P.Follow, IsArrow;
    if ts == [] {
      NoRedirs(Exec([]));
      FollowHere(line, p, pos, "|)&;");
      P.ExecEnds(line, p, |argv|, cmd);
      cs := cmd;
      assert argv + [] == argv && rs + [] == rs;
    } else {
      MixedStarts(ts);
      SegFirst(line, p, pos, ts);
      var t := Gettoken(line, p);
      if ts[0].Name? {
        var w, sp := ts[0].w, Span(t.q, t.eq);
        ConsArg(w, ts[1..]);
        assert argv + ([w] + Args(ts[1..])) == (argv + [w]) + Args(ts[1..]);
        ArgStep(line, p, |argv|, cmd);
        TextAddArg(line, cmd, sp);
        WrapAddArg(argv, rs, w);
        cs := SimpleComplete(line, t.next, pos, ts[1..], AddArg(cmd, sp), argv + [w], rs);
      } else {
        var f := Gettoken(line, t.next);
        SegFirst(line, t.next, pos, ts[1..]);
        assert ts[1..][1..] == ts[2..];
        var sp, r := Span(f.q, f.eq), RedirOf(ts[0], ts[1].w);
        ConsRedir(ts[0], ts[1].w, ts[2..]);
        assert rs + ([r] + Redirs(ts[2..])) == (rs + [r]) + Redirs(ts[2..]);
        RedirStep(line, p, cmd);
        TextRedir(line, cmd, sp, ts[0], rs, Exec(argv));
        var more := Redir(cmd, sp, if t.kind == '<' then 0 else 0x201, if t.kind == '<' then 0 else 1);
        SameRedirs(line, p, f.next, |argv|, cmd, more);
        cs := SimpleComplete(line, f.next, pos, ts[2..], more, argv, rs + [r]);
      }
    }
  }

  lemma SameRedirs(line: Line, p: nat, q: nat, argc: nat, cmd: Cmd<Span>, more: Cmd<Span>)
    requires p <= |line| && q <= |line| && ParseRedirs(line, p, cmd) == ParseRedirs(line, q, more)
    ensures P.ExecFrom(line, p, argc, cmd) == P.ExecFrom(line, q, argc, more)
  {
    hide ParseRedirs, ParseArgs;
  }

  lemma {:induction false} RedirsComplete(line: Line, p: nat, pos: nat, ts: seq<Lexeme>, cmd: Cmd<Span>, c: Cmd<string>, rs: seq<Redirection>)
    returns (cs: Cmd<Span>)
    requires p <= |line| && pos <= |line| && Seg(line, p, pos, ts) && P.Follow(line, pos, "|)&;")
    requires OnlyRedirs(ts) && P.Text(line, cmd) == Wrap(c, rs)
    ensures ParseRedirs(line, p, cmd) == Done(cs, Skip(line, pos)) && P.Text(line, cs) == Wrap(c, rs + Redirs(ts))
    decreases |ts|
  {
    hide IsSpace, OneOf, IsWordChar, WordEnd, Skip, Gettoken, Peek, Seg, Mixed, Wrap, Args, Redirs, ParseRedirs, P.Text, P.Word, P.Follow, IsArrow;
    if ts == [] {
      NoRedirs(Exec([]));
      FollowHere(line, p, pos, "|)&;");
      P.RedirsEnd(line, p, cmd);
      cs := cmd;
      assert rs + [] == rs;
    } else {
      MixedStarts(ts);
      SegFirst(line, p, pos, ts);
      if ts[0].Name? { ConsArg(ts[0].w, ts[1..]); }
      var t := Gettoken(line, p);
      var f := Gettoken(line, t.next);
      SegFirst(line, t.next, pos, ts[1..]);
      assert ts[1..][1..] == ts[2..];
      var sp, r := Span(f.q, f.eq), RedirOf(ts[0], ts[1].w);
      ConsRedir(ts[0], ts[1].w, ts[2..]);
      assert rs + ([r] + Redirs(ts[2..])) == (rs + [r]) + Redirs(ts[2..]);
      RedirStep(line, p, cmd);
      TextRedir(line, cmd, sp, ts[0], rs, c);
      var more := Redir(cmd, sp, if t.kind == '<' then 0 else 0x201, if t.kind == '<' then 0 else 1);
      cs := RedirsComplete(line, f.next, pos, ts[2..], more, c, rs + [r]);
    }
  }

  lemma {:induction false} ExecComplete(line: Line, p: nat, pos: nat, ts: seq<Lexeme>, c: Cmd<string>) returns (cs: Cmd<Span>)
    requires p <= |line| && pos <= |line| && Seg(line, p, pos, ts) && SpellsExec(ts, c) && P.Follow(line, pos, "|)&;")
    ensures ParseExec(line, p) == Done(cs, Skip(line, pos)) && P.Text(line, cs) == c
    decreases |ts|, 1
  {
    hide IsSpace, OneOf, IsWordChar, WordEnd, Skip, Gettoken, Peek, Seg, Mixed, Wrap, Args, Redirs, ParseRedirs, ParseArgs, ParseBlock, P.Follow, SpellsLine;
    if Mixed(ts) && |Args(ts)| < 10 && c == Wrap(Exec(Args(ts)), Redirs(ts)) {
      NoRedirs(Exec([]));
      assert [] + Args(ts) == Args(ts) && [] + Redirs(ts) == Redirs(ts) && P.Text(line, Exec([])) == Exec([]);
      NotOpen(line, p, pos, ts);
      cs := SimpleComplete(line, p, pos, ts, Exec([]), [], []);
      ExecIsFrom(line, p);
    } else {
      var j, d :| 0 < j < |ts| && ts[0] == Sym('(') && ts[j] == Sym(')') && OnlyRedirs(ts[j + 1..])
                  && c == Wrap(d, Redirs(ts[j + 1..])) && SpellsLine(ts[1..j], d);
      cs := BlockComplete(line, p, pos, ts, j, d);
    }
  }

  /** A simple command does not begin with a parenthesis. */
  lemma NotOpen(line: Line, p: nat, pos: nat, ts: seq<Lexeme>)
    requires p <= |line| && pos <= |line| && Seg(line, p, pos, ts) && Mixed(ts) && P.Follow(line, pos, "|)&;")
    ensures Gettoken(line, p).kind != '('
  {
    hide IsSpace, OneOf, IsWordChar, WordEnd, Skip, Gettoken, P.Follow, Seg, Mixed;
    if ts == [] {
      FollowHere(line, p, pos, "|)&;");
      FollowIs(line, p);
    } else {
      MixedStarts(ts);
      SegFirst(line, p, pos, ts);
    }
  }

  lemma ExecIsFrom(line: Line, p: nat)
    requires p <= |line| && Gettoken(line, p).kind != '('
    ensures ParseExec(line, p) == P.ExecFrom(line, p, 0, Exec([]))
  {
    hide IsSpace, OneOf, IsWordChar, WordEnd, Skip, Gettoken, Peek, ParseRedirs, ParseArgs, ParseBlock;
    SkipOnce(line, p);
    PeekIs(line, Skip(line, p));
    P.RedirsSkip(line, p, Exec([]));
  }

  lemma {:induction false} BlockComplete(line: Line, p: nat, pos: nat, ts: seq<Lexeme>, j: nat, d: Cmd<string>) returns (cs: Cmd<Span>)
    requires p <= |line| && pos <= |line| && Seg(line, p, pos, ts) && P.Follow(line, pos, "|)&;")
    requires 0 < j < |ts| && ts[0] == Sym('(') && ts[j] == Sym(')') && OnlyRedirs(ts[j + 1..]) && SpellsLine(ts[1..j], d)
    ensures ParseExec(line, p) == Done(cs, Skip(line, pos)) && P.Text(line, cs) == Wrap(d, Redirs(ts[j + 1..]))
    decreases |ts|, 0
  {
    hide IsSpace, OneOf, IsWordChar, WordEnd, Skip, Gettoken, Peek, Seg, Mixed, Wrap, Args, Redirs, ParseRedirs, ParseArgs, ParseLine, ParseExec, ParseBlock, P.Follow, SpellsLine, P.Text;
    SegFirst(line, p, pos, ts);
    var open := Gettoken(line, p);
    var mid := SegSplit(line, open.next, pos, ts[1..], j - 1);
    assert ts[1..][..j - 1] == ts[1..j] && ts[1..][j - 1..] == ts[j..];
    SegFirst(line, mid, pos, ts[j..]);
    var close := Gettoken(line, mid);
    assert ts[j..][1..] == ts[j + 1..];
    FollowIs(line, mid);
    var inner := LineComplete(line, open.next, mid, ts[1..j], d);
    NoRedirs(d);
    assert [] + Redirs(ts[j + 1..]) == Redirs(ts[j + 1..]);
    cs := RedirsComplete(line, close.next, pos, ts[j + 1..], inner, d, []);
    BlockIs(line, p, mid, inner);
  }

  lemma BlockIs(line: Line, p: nat, mid: nat, inner: Cmd<Span>)
    requires p <= |line| && mid <= |line| && Gettoken(line, p).kind == '(' && Gettoken(line, mid).kind == ')'
    requires ParseLine(line, Gettoken(line, p).next) == Done(inner, Skip(line, mid))
    ensures ParseExec(line, p) == ParseRedirs(line, Gettoken(line, mid).next, inner)
  {
    hide IsSpace, OneOf, IsWordChar, WordEnd, Skip, Gettoken, Peek, ParseRedirs, ParseArgs, ParseLine;
    SkipOnce(line, p);
    SkipOnce(line, mid);
    PeekIs(line, Skip(line, p));
    PeekIs(line, Skip(line, mid));
  }

  lemma {:induction false} PipeComplete(line: Line, p: nat, pos: nat, ts: seq<Lexeme>, c: Cmd<string>) returns (cs: Cmd<Span>)
    requires p <= |line| && pos <= |line| && Seg(line, p, pos, ts) && SpellsPipe(ts, c) && P.Follow(line, pos, ")&;")
    ensures ParsePipe(line, p) == Done(cs, Skip(line, pos)) && P.Text(line, cs) == c
    decreases |ts|, 2
  {
    hide IsSpace, OneOf, IsWordChar, WordEnd, Skip, Gettoken, Peek, Seg, ParseExec, ParsePipe, P.Follow, SpellsExec;
    if SpellsExec(ts, c) {
      P.Narrower(line, pos);
      cs := ExecComplete(line, p, pos, ts, c);
      P.PipeStops(line, p, cs, pos);
    } else {
      var k :| 0 <= k < |ts| && ts[k] == Sym('|') && SpellsExec(ts[..k], c.left) && SpellsPipe(ts[k + 1..], c.right);
      var mid := SegSplit(line, p, pos, ts, k);
      SegFirst(line, mid, pos, ts[k..]);
      assert ts[k..][1..] == ts[k + 1..];
      FollowIs(line, mid);
      var left := ExecComplete(line, p, mid, ts[..k], c.left);
      var right := PipeComplete(line, Gettoken(line, mid).next, pos, ts[k + 1..], c.right);
      cs := Pipe(left, right);
      PipeMore(line, p, mid, left, right, Skip(line, pos));
    }
  }

  lemma PipeMore(line: Line, p: nat, mid: nat, left: Cmd<Span>, right: Cmd<Span>, e: nat)
    requires p <= |line| && mid <= |line| && ParseExec(line, p) == Done(left, Skip(line, mid)) && Gettoken(line, mid).kind == '|'
    requires ParsePipe(line, Gettoken(line, mid).next) == Done(right, e)
    ensures ParsePipe(line, p) == Done(Pipe(left, right), e)
  {
    hide IsSpace, OneOf, IsWordChar, WordEnd, Skip, Gettoken, Peek, ParseExec, TreeOk;
    SkipOnce(line, mid);
    PeekIs(line, Skip(line, mid));
  }

  /** A command before ampersands: the loop over them goes on from behind it. */
  lemma {:induction false} BackComplete(line: Line, p: nat, pos: nat, ts: seq<Lexeme>, c: Cmd<string>) returns (cs: Cmd<Span>)
    requires p <= |line| && pos <= |line| && Seg(line, p, pos, ts) && SpellsBack(ts, c) && P.Follow(line, pos, ")&;")
    ensures P.LeftFrom(line, p) == ParseBacks(line, pos, cs) && P.Text(line, cs) == c
    decreases |ts|, 3
  {
    hide IsSpace, OneOf, IsWordChar, WordEnd, Skip, Gettoken, Peek, Seg, ParsePipe, ParseBacks, P.Follow, SpellsPipe;
    if SpellsPipe(ts, c) {
      cs := PipeComplete(line, p, pos, ts, c);
      P.BacksSkip(line, pos, cs);
    } else {
      var n := |ts| - 1;
      var mid := SegSplit(line, p, pos, ts, n);
      SegFirst(line, mid, pos, ts[n..]);
      FollowIs(line, mid);
      var before := BackComplete(line, p, mid, ts[..n], c.cmd);
      cs := Back(before);
      assert ts[n..][1..] == [];
      BackMore(line, mid, pos, before);
    }
  }

  lemma BackMore(line: Line, mid: nat, pos: nat, cmd: Cmd<Span>)
    requires mid <= |line| && pos <= |line| && Gettoken(line, mid).kind == '&' && Seg(line, Gettoken(line, mid).next, pos, [])
    ensures ParseBacks(line, mid, cmd) == ParseBacks(line, pos, Back(cmd))
  {
    hide IsSpace, OneOf, IsWordChar, WordEnd, Skip, Gettoken, Peek, TreeOk;
    var next := Gettoken(line, mid).next;
    SkipOnce(line, mid);
    PeekIs(line, Skip(line, mid));
    P.BacksSkip(line, next, Back(cmd));
    P.BacksSkip(line, pos, Back(cmd));
  }

  lemma {:induction false} LineComplete(line: Line, p: nat, pos: nat, ts: seq<Lexeme>, c: Cmd<string>) returns (cs: Cmd<Span>)
    requires p <= |line| && pos <= |line| && Seg(line, p, pos, ts) && SpellsLine(ts, c) && P.Follow(line, pos, ")")
    ensures ParseLine(line, p) == Done(cs, Skip(line, pos)) && P.Text(line, cs) == c
    decreases |ts|, 4
  {
    hide IsSpace, OneOf, IsWordChar, WordEnd, Skip, Gettoken, Peek, Seg, ParsePipe, ParseBacks, ParseLine, P.LeftFrom, P.Follow, SpellsBack;
    if SpellsBack(ts, c) {
      P.Narrower(line, pos);
      cs := BackComplete(line, p, pos, ts, c);
      P.LineStops(line, p, cs, pos);
    } else {
      var k :| 0 <= k < |ts| && ts[k] == Sym(';') && SpellsBack(ts[..k], c.left) && SpellsLine(ts[k + 1..], c.right);
      var mid := SegSplit(line, p, pos, ts, k);
      SegFirst(line, mid, pos, ts[k..]);
      assert ts[k..][1..] == ts[k + 1..];
      FollowIs(line, mid);
      var left := BackComplete(line, p, mid, ts[..k], c.left);
      var right := LineComplete(line, Gettoken(line, mid).next, pos, ts[k + 1..], c.right);
      cs := List(left, right);
      LineMore(line, p, mid, left, right, Skip(line, pos));
    }
  }

  lemma LineMore(line: Line, p: nat, mid: nat, left: Cmd<Span>, right: Cmd<Span>, e: nat)
    requires p <= |line| && mid <= |line| && P.LeftFrom(line, p) == ParseBacks(line, mid, left) && Gettoken(line, mid).kind == ';'
    requires ParseLine(line, Gettoken(line, mid).next) == Done(right, e)
    ensures ParseLine(line, p) == Done(List(left, right), e)
  {
    hide IsSpace, OneOf, IsWordChar, WordEnd, Skip, Gettoken, Peek, ParsePipe, TreeOk;
    var s := Skip(line, mid);
    SkipOnce(line, mid);
    PeekIs(line, s);
    assert ParseBacks(line, mid, left) == Done(left, s);
  }

  // ------------------------------------------------------------------
  // The language of the shell.

  /** The line spells the command. */
  ghost predicate Means(line: string, c: Cmd<string>) {
    exists ts :: Spells(line, ts) && SpellsLine(ts, c)
  }

  /** parsecmd accepts exactly the lines that spell a command, and answers with it. */
  lemma ParsesMeaning(line: Line, c: Cmd<string>)
    ensures (exists r :: ParseCmd(line) == Done(r, |line|) && P.Text(line, r) == c) <==> Means(line, c)
  {
    hide IsSpace, OneOf, IsWordChar, WordEnd, Skip, Gettoken, Peek, ParseLine, SpellsLine, Spells, Seg, P.Text;
    if r :| ParseCmd(line) == Done(r, |line|) && P.Text(line, r) == c {
      var whole := ParseLine(line, 0);
      var ts := LineSound(line, 0);
      SkipOnce(line, whole.pos);
      SegToEnd(line, whole.pos, ts);
      SpelledTokens(line, 0, ts);
      assert line[0..] == line;
    }
    if Means(line, c) {
      var ts :| Spells(line, ts) && SpellsLine(ts, c);
      assert line[0..] == line;
      SpelledTokens(line, 0, ts);
      EndFollows(line);
      var cs := LineComplete(line, 0, |line|, ts, c);
      assert ParseCmd(line) == Done(cs, |line|);
    }
  }

  lemma SegToEnd(line: Line, pos: nat, ts: seq<Lexeme>)
    requires pos <= |line| && Seg(line, 0, pos, ts) && Skip(line, pos) == |line|
    ensures Seg(line, 0, |line|, ts)
  {
    hide IsSpace, OneOf, IsWordChar, WordEnd, Gettoken;
    SegJoin(line, 0, pos, |line|, ts, []);
    assert ts + [] == ts;
  }

  lemma EndFollows(line: Line)
    ensures P.Follow(line, |line|, ")") && Skip(line, |line|) == |line|
  {
  }

  lemma AnswerMeans(line: Line)
    ensures ParseCmd(line).Done? ==> Means(line, P.Text(line, ParseCmd(line).cmd))
    ensures ParseCmd(line).Panic? ==> forall c :: !Means(line, c)
  {
    hide P.Text, Means, ParseLine;
    if ParseCmd(line).Done? {
      ParsesMeaning(line, P.Text(line, ParseCmd(line).cmd));
    } else {
      forall c ensures !Means(line, c) { ParsesMeaning(line, c); }
    }
  }

  /** So no line means two commands. */
  lemma OneMeaning(line: Line, c: Cmd<string>, d: Cmd<string>)
    requires Means(line, c) && Means(line, d)
    ensures c == d
  {
    ParsesMeaning(line, c);
    ParsesMeaning(line, d);
  }
}
