/** The shell's parser as sh.c writes it: routines that share a cursor into the
    line and move it by loops, and nulterminate, which ends every word by
    writing into the line itself. */
module Shell {
  import G = ShellGrammar
  import P = ShellPrint
  import S = ShellSpelling

  type Tree = G.Cmd<G.Span>

  /** A token that was peeked at is read past. */
  lemma TokenAdvances(line: G.Line, p: nat)
    requires p <= |line| && G.Skip(line, p) < |line|
    ensures G.Gettoken(line, G.Skip(line, p)).next > G.Skip(line, p)
  {
    hide G.IsSpace, G.OneOf;
    P.SkipTwice(line, p);
  }

  class Parser {
    const line: G.Line
    var ps: nat

    constructor (line: G.Line)
      ensures this.line == line && ps == 0
    {
      this.line := line;
      ps := 0;
    }

    /** The loop over white space in gettoken and peek. */
    method SkipSpace(p: nat) returns (s: nat)
      requires p <= |line|
      ensures s == G.Skip(line, p)
    {
      s := p;
      while s < |line| && G.IsSpace(line[s])
        invariant p <= s <= |line| && G.Skip(line, s) == G.Skip(line, p)
      {
        s := s + 1;
      }
    }

    /** The loop over a word in gettoken. */
    method SkipWord(p: nat) returns (s: nat)
      requires p <= |line|
      ensures s == G.WordEnd(line, p)
    {
      s := p;
      while s < |line| && !G.IsSpace(line[s]) && !G.IsSymbol(line[s])
        invariant p <= s <= |line| && G.WordEnd(line, s) == G.WordEnd(line, p)
      {
        s := s + 1;
      }
    }

    method Gettoken() returns (kind: char, q: nat, eq: nat)
      requires ps <= |line|
      modifies `ps
      ensures G.Token(kind, q, eq, ps) == G.Gettoken(line, old(ps))
    {
      hide G.IsSpace, G.IsSymbol, G.OneOf, G.SpanOk, G.Skip, G.WordEnd;
      var s := SkipSpace(ps);
      q := s;
      if s == |line| {
        kind := '\0';
      } else if G.OneOf(line[s], "|();&<") {
        kind := line[s];
        s := s + 1;
      } else if line[s] == '>' {
        kind := '>';
        s := s + 1;
        if s < |line| && line[s] == '>' {
          kind := '+';
          s := s + 1;
        }
      } else {
        kind := 'a';
        s := SkipWord(q);
      }
      eq := s;
      ps := SkipSpace(eq);
    }

    method Peek(toks: string) returns (b: bool)
      requires ps <= |line|
      modifies `ps
      ensures ps == G.Skip(line, old(ps)) && b == G.Peek(line, old(ps), toks)
    {
      hide G.IsSpace, G.OneOf, G.Skip;
      var s := SkipSpace(ps);
      ps := s;
      return s < |line| && G.OneOf(line[s], toks);
    }

    method ParseRedirs(cmd: Tree) returns (r: G.Parsed)
      requires ps <= |line|
      modifies `ps
      ensures r == G.ParseRedirs(line, old(ps), cmd) && (r.Done? ==> ps == r.pos)
    {
      hide G.Skip, G.Gettoken, G.OneOf, G.TreeOk, G.IsSimple, G.SpanOk;
      var ret := cmd;
      ghost var p := ps;
      var more := Peek("<>");
      while more
        invariant p <= |line| && ps == G.Skip(line, p) && more == G.Peek(line, p, "<>")
        invariant G.ParseRedirs(line, p, ret) == G.ParseRedirs(line, old(ps), cmd)
        decreases |line| - p
      {
        P.SkipTwice(line, p);
        var tok, _, _ := Gettoken();
        var kind, q, eq := Gettoken();
        if kind != 'a' {
          return G.Panic("missing file for redirection");
        }
        if tok == '<' {
          ret := G.Redir(ret, G.Span(q, eq), G.O_RDONLY, 0);
        } else {
          ret := G.Redir(ret, G.Span(q, eq), G.O_WRONLY + G.O_CREATE, 1);
        }
        p := ps;
        more := Peek("<>");
      }
      return G.Done(ret, ps);
    }

    method ParseExec() returns (r: G.Parsed)
      requires ps <= |line|
      modifies `ps
      ensures r == G.ParseExec(line, old(ps)) && (r.Done? ==> ps == r.pos)
      decreases |line| - ps, 1
    {
      hide G.Skip, G.Gettoken, G.OneOf, G.TreeOk, G.IsSimple, G.SpanOk, G.ParseRedirs, G.ParseBlock, G.ParseArgs;
      var block := Peek("(");
      P.SkipTwice(line, old(ps));
      if block {
        r := ParseBlock();
        return;
      }
      r := ParseRedirs(G.Exec([]));
      if r.Done? {
        r := ParseArgs(r.cmd);
      }
    }

    /** The loop of parseexec over the arguments. */
    method ParseArgs(cmd: Tree) returns (r: G.Parsed)
      requires ps <= |line|
      modifies `ps
      ensures r == G.ParseArgs(line, old(ps), 0, cmd) && (r.Done? ==> ps == r.pos)
    {
      hide G.Skip, G.Gettoken, G.OneOf, G.TreeOk, G.IsSimple, G.SpanOk, G.ParseRedirs, G.AddArg;
      var ret, argc := cmd, 0;
      ghost var p := ps;
      var stop := Peek("|)&;");
      while !stop
        invariant p <= |line| && ps == G.Skip(line, p) && stop == G.Peek(line, p, "|)&;")
        invariant G.ParseArgs(line, p, argc, ret) == G.ParseArgs(line, old(ps), 0, cmd)
        decreases |line| - p
      {
        P.SkipTwice(line, p);
        var tok, q, eq := Gettoken();
        if tok == '\0' {
          return G.Done(ret, ps);
        }
        if tok != 'a' {
          return G.Panic("syntax");
        }
        ret := G.AddArg(ret, G.Span(q, eq));
        argc := argc + 1;
        if argc >= G.MAXARGS {
          return G.Panic("too many args");
        }
        var next := ParseRedirs(ret);
        if next.Panic? {
          return next;
        }
        ret := next.cmd;
        p := ps;
        stop := Peek("|)&;");
      }
      return G.Done(ret, ps);
    }

    method ParseBlock() returns (r: G.Parsed)
      requires ps <= |line|
      modifies `ps
      ensures r == G.ParseBlock(line, old(ps)) && (r.Done? ==> ps == r.pos)
      decreases |line| - ps, 0
    {
      hide G.Skip, G.Gettoken, G.OneOf, G.TreeOk, G.SpanOk, G.ParseRedirs, G.ParseLine;
      var open := Peek("(");
      if !open {
        return G.Panic("parseblock");
      }
      TokenAdvances(line, old(ps));
      P.SkipTwice(line, old(ps));
      var _, _, _ := Gettoken();
      r := ParseLine();
      if r.Panic? {
        return;
      }
      P.SkipTwice(line, r.pos);
      var close := Peek(")");
      if !close {
        return G.Panic("syntax - missing )");
      }
      var _, _, _ := Gettoken();
      r := ParseRedirs(r.cmd);
    }

    method ParsePipe() returns (r: G.Parsed)
      requires ps <= |line|
      modifies `ps
      ensures r == G.ParsePipe(line, old(ps)) && (r.Done? ==> ps == r.pos)
      decreases |line| - ps, 2
    {
      hide G.Skip, G.Gettoken, G.OneOf, G.TreeOk, G.SpanOk, G.ParseExec;
      r := ParseExec();
      if r.Panic? {
        return;
      }
      P.SkipTwice(line, r.pos);
      var more := Peek("|");
      if !more {
        return G.Done(r.cmd, ps);
      }
      TokenAdvances(line, r.pos);
      var _, _, _ := Gettoken();
      var right := ParsePipe();
      r := if right.Panic? then right else G.Done(G.Pipe(r.cmd, right.cmd), right.pos);
    }

    method ParseLine() returns (r: G.Parsed)
      requires ps <= |line|
      modifies `ps
      ensures r == G.ParseLine(line, old(ps)) && (r.Done? ==> ps == r.pos)
      decreases |line| - ps, 3
    {
      hide G.Skip, G.Gettoken, G.OneOf, G.TreeOk, G.SpanOk, G.ParsePipe, G.ParseBacks;
      r := ParsePipe();
      if r.Panic? {
        return;
      }
      var left := ParseBacks(r.cmd);
      ghost var p := ps;
      P.SkipTwice(line, p);
      var more := Peek(";");
      if !more {
        return G.Done(left, ps);
      }
      TokenAdvances(line, p);
      var _, _, _ := Gettoken();
      var right := ParseLine();
      r := if right.Panic? then right else G.Done(G.List(left, right.cmd), right.pos);
    }

    /** The loop of parseline. */
    method ParseBacks(cmd: Tree) returns (ret: Tree)
      requires ps <= |line|
      modifies `ps
      ensures G.Done(ret, ps) == G.ParseBacks(line, old(ps), cmd)
    {
      hide G.Skip, G.Gettoken, G.OneOf, G.TreeOk, G.SpanOk;
      ret := cmd;
      ghost var p := ps;
      var more := Peek("&");
      while more
        invariant p <= |line| && ps == G.Skip(line, p) && more == G.Peek(line, p, "&")
        invariant G.ParseBacks(line, p, ret) == G.ParseBacks(line, old(ps), cmd)
        decreases |line| - p
      {
        P.SkipTwice(line, p);
        TokenAdvances(line, p);
        var _, _, _ := Gettoken();
        ret := G.Back(ret);
        p := ps;
        more := Peek("&");
      }
    }
  }

  // ------------------------------------------------------------------
  // Ending the words in place.

  /** Where nulterminate writes. */
  function Ends(c: Tree): set<nat> {
    match c
    case Exec(argv) => set i | 0 <= i < |argv| :: argv[i].eq
    case Redir(d, file, _, _) => Ends(d) + {file.eq}
    case Pipe(l, r) => Ends(l) + Ends(r)
    case List(l, r) => Ends(l) + Ends(r)
    case Back(d) => Ends(d)
  }

  method NulTerminate(buf: array<char>, cmd: Tree)
    requires forall k :: k in Ends(cmd) ==> k < buf.Length
    modifies buf
    ensures forall k :: 0 <= k < buf.Length ==> buf[k] == if k in Ends(cmd) then '\0' else old(buf[k])
    decreases cmd
  {
    match cmd
    case Exec(argv) =>
      var i := 0;
      while i < |argv|
        invariant 0 <= i <= |argv|
        invariant forall k :: 0 <= k < buf.Length ==>
          buf[k] == if exists j :: 0 <= j < i && argv[j].eq == k then '\0' else old(buf[k])
      {
        assert argv[i].eq in Ends(cmd);
        buf[argv[i].eq] := '\0';
        i := i + 1;
      }
    case Redir(d, file, _, _) =>
      assert Ends(d) <= Ends(cmd) && file.eq in Ends(cmd);
      NulTerminate(buf, d);
      buf[file.eq] := '\0';
    case Pipe(l, r) =>
      assert Ends(l) <= Ends(cmd) && Ends(r) <= Ends(cmd);
      NulTerminate(buf, l);
      NulTerminate(buf, r);
    case List(l, r) =>
      assert Ends(l) <= Ends(cmd) && Ends(r) <= Ends(cmd);
      NulTerminate(buf, l);
      NulTerminate(buf, r);
    case Back(d) =>
      assert Ends(d) == Ends(cmd);
      NulTerminate(buf, d);
  }

  /** The C string at q. */
  function CString(buf: seq<char>, q: nat): string
    decreases |buf| - q
  {
    if q >= |buf| || buf[q] == '\0' then "" else [buf[q]] + CString(buf, q + 1)
  }

  /** The tree as runcmd sees it, which follows only the start pointers. */
  function Seen(buf: seq<char>, c: Tree): G.Cmd<string> {
    match c
    case Exec(argv) => G.Exec(seq(|argv|, i requires 0 <= i < |argv| => CString(buf, argv[i].q)))
    case Redir(d, file, mode, fd) => G.Redir(Seen(buf, d), CString(buf, file.q), mode, fd)
    case Pipe(l, r) => G.Pipe(Seen(buf, l), Seen(buf, r))
    case List(l, r) => G.List(Seen(buf, l), Seen(buf, r))
    case Back(d) => G.Back(Seen(buf, d))
  }

  /** No NUL falls inside a word, and each falls inside the buffer. */
  lemma {:induction false} EndsOutsideWords(line: G.Line, c: Tree, k: nat)
    requires G.TreeOk(line, c) && k in Ends(c)
    ensures k <= |line| && (k < |line| ==> !G.IsWordChar(line[k]))
  {
    match c
    case Exec(argv) =>
    case Redir(d, file, _, _) => if k != file.eq { EndsOutsideWords(line, d, k); }
    case Pipe(l, r) => if k in Ends(l) { EndsOutsideWords(line, l, k); } else { EndsOutsideWords(line, r, k); }
    case List(l, r) => if k in Ends(l) { EndsOutsideWords(line, l, k); } else { EndsOutsideWords(line, r, k); }
    case Back(d) => EndsOutsideWords(line, d, k);
  }

  /** buf is the line with NULs written at the given places and one at its end. */
  predicate EndedAt(line: G.Line, buf: seq<char>, ends: set<nat>) {
    |line| < |buf| && forall k :: 0 <= k <= |line| ==>
      buf[k] == if k in ends || k == |line| then '\0' else line[k]
  }

  lemma {:induction false} WordSeen(line: G.Line, buf: seq<char>, ends: set<nat>, q: nat, eq: nat)
    requires EndedAt(line, buf, ends) && q <= eq <= |line| && (eq in ends || eq == |line|)
    requires forall k :: q <= k < eq ==> k !in ends
    ensures CString(buf, q) == line[q..eq]
    decreases eq - q
  {
    if q < eq {
      WordSeen(line, buf, ends, q + 1, eq);
      assert buf[q] == line[q] != '\0';
    }
  }

  lemma SpanSeen(line: G.Line, buf: seq<char>, whole: Tree, sp: G.Span)
    requires G.TreeOk(line, whole) && EndedAt(line, buf, Ends(whole)) && G.SpanOk(line, sp) && sp.eq in Ends(whole)
    ensures CString(buf, sp.q) == P.Word(line, sp)
  {
    forall k | sp.q <= k < sp.eq ensures k !in Ends(whole) {
      if k in Ends(whole) { EndsOutsideWords(line, whole, k); }
    }
    WordSeen(line, buf, Ends(whole), sp.q, sp.eq);
  }

  /** Every argument and file name is seen exactly as its token. */
  lemma {:induction false} TreeSeen(line: G.Line, buf: seq<char>, whole: Tree, c: Tree)
    requires G.TreeOk(line, whole) && EndedAt(line, buf, Ends(whole))
    requires G.TreeOk(line, c) && Ends(c) <= Ends(whole)
    ensures Seen(buf, c) == P.Text(line, c)
    decreases c
  {
    hide EndedAt, CString, G.SpanOk, P.Word;
    match c
    case Exec(argv) =>
      forall i | 0 <= i < |argv| ensures CString(buf, argv[i].q) == P.Word(line, argv[i]) {
        assert argv[i].eq in Ends(c);
        SpanSeen(line, buf, whole, argv[i]);
      }
    case Redir(d, file, _, _) =>
      TreeSeen(line, buf, whole, d);
      SpanSeen(line, buf, whole, file);
    case Pipe(l, r) => TreeSeen(line, buf, whole, l); TreeSeen(line, buf, whole, r);
    case List(l, r) => TreeSeen(line, buf, whole, l); TreeSeen(line, buf, whole, r);
    case Back(d) => TreeSeen(line, buf, whole, d);
  }

  /** parsecmd on a buffer that holds the line and its NUL. An accepted line is
      left so that the tree seen through the buffer is the tree of the line. */
  method ParseCmd(buf: array<char>, line: G.Line) returns (r: G.Parsed)
    requires buf.Length > |line| && buf[..|line|] == line && buf[|line|] == '\0'
    modifies buf
    ensures r == G.ParseCmd(line)
    ensures r.Done? ==> Seen(buf[..], r.cmd) == P.Text(line, r.cmd)
    ensures r.Done? ==> S.Means(line, Seen(buf[..], r.cmd))
    ensures r.Panic? ==> buf[..] == old(buf[..]) && forall c :: !S.Means(line, c)
  {
    hide S.Means;
    S.AnswerMeans(line);
    var parser := new Parser(line);
    r := parser.ParseLine();
    if r.Panic? {
      return;
    }
    var _ := parser.Peek("");
    if parser.ps != |line| {
      return G.Panic("syntax");
    }
    r := G.Done(r.cmd, |line|);
    forall k | k in Ends(r.cmd) ensures k <= |line| { EndsOutsideWords(line, r.cmd, k); }
    NulTerminate(buf, r.cmd);
    assert EndedAt(line, buf[..], Ends(r.cmd)) by {
      forall k | 0 <= k < |line| ensures old(buf[k]) == line[k] { assert line[k] == old(buf[..|line|])[k]; }
    }
    TreeSeen(line, buf[..], r.cmd, r.cmd);
  }

  /** From a tree, through its printed form, to the C strings runcmd works
      from: the same tree. */
  method PrintedCommandRuns(c: G.Cmd<string>, buf: array<char>) returns (r: G.Parsed)
    requires P.Valid(c) && buf.Length == |P.Print(c, 0)| + 1
    requires buf[..|P.Print(c, 0)|] == P.Print(c, 0) && buf[|P.Print(c, 0)|] == '\0'
    modifies buf
    ensures r.Done? && Seen(buf[..], r.cmd) == c
  {
    ghost var cmd := P.RoundTrip(c);
    r := ParseCmd(buf, P.Print(c, 0));
  }
}
