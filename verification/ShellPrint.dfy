/** A printer for command trees that writes parentheses only where the grammar
    of sh.c needs them, and the proof that the shell's parser reads every
    printed tree back unchanged. */
module ShellPrint {
  import opened ShellGrammar

  // ------------------------------------------------------------------
  // Trees over strings.

  predicate WordOk(w: string) {
    w != [] && forall k :: 0 <= k < |w| ==> IsWordChar(w[k])
  }

  /** The trees the shell can be asked for. */
  predicate Valid(c: Cmd<string>) {
    match c
    case Exec(argv) => |argv| < MAXARGS && forall i :: 0 <= i < |argv| ==> WordOk(argv[i])
    case Redir(d, file, mode, fd) => Valid(d) && WordOk(file) && ModeOk(mode, fd)
    case Pipe(l, r) => Valid(l) && Valid(r)
    case List(l, r) => Valid(l) && Valid(r)
    case Back(d) => Valid(d)
  }

  /** The characters between a word's two pointers. */
  function Word(line: string, sp: Span): string {
    if sp.q <= sp.eq <= |line| then line[sp.q..sp.eq] else ""
  }

  /** The tree the pointers of a parsed tree stand for. */
  function Text(line: string, c: Cmd<Span>): Cmd<string> {
    match c
    case Exec(argv) => Exec(seq(|argv|, i requires 0 <= i < |argv| => Word(line, argv[i])))
    case Redir(d, file, mode, fd) => Redir(Text(line, d), Word(line, file), mode, fd)
    case Pipe(l, r) => Pipe(Text(line, l), Text(line, r))
    case List(l, r) => List(Text(line, l), Text(line, r))
    case Back(d) => Back(Text(line, d))
  }

  lemma {:induction false} TextValid(line: Line, c: Cmd<Span>)
    requires TreeOk(line, c)
    ensures Valid(Text(line, c))
  {
    match c
    case Exec(argv) =>
    case Redir(d, _, _, _) => TextValid(line, d);
    case Pipe(l, r) => TextValid(line, l); TextValid(line, r);
    case List(l, r) => TextValid(line, l); TextValid(line, r);
    case Back(d) => TextValid(line, d);
  }

  // ------------------------------------------------------------------
  // Printing.

  /** How tightly a tree binds: 0 for parseline, 1 for its operands of & and ;,
      2 for parsepipe and 3 for parseexec. */
  function Binding<W>(c: Cmd<W>): nat {
    match c
    case List(_, _) => 0
    case Back(_) => 1
    case Pipe(_, _) => 2
    case _ => 3
  }

  function Words(argv: seq<string>): string {
    if argv == [] then "" else Words(argv[..|argv| - 1]) + (argv[|argv| - 1] + " ")
  }

  function Arrow(fd: nat): string {
    if fd == 0 then "<" else ">"
  }

  function Print(c: Cmd<string>, level: nat): string
    requires level <= 3
    decreases c, if Binding(c) < level then 1 else 0
  {
    if Binding(c) < level then "(" + Print(c, 0) + ")"
    else
      match c
      case Exec(argv) => Words(argv)
      case Redir(d, file, _, fd) => Print(d, 3) + (Arrow(fd) + file + " ")
      case Pipe(l, r) => Print(l, 3) + "|" + Print(r, 2)
      case List(l, r) => Print(l, 1) + ";" + Print(r, 0)
      case Back(d) => Print(d, 1) + "&"
  }

  lemma {:induction false} WordsAreText(argv: seq<string>)
    requires forall i :: 0 <= i < |argv| ==> WordOk(argv[i])
    ensures '\0' !in Words(argv)
  {
    if argv != [] {
      WordsAreText(argv[..|argv| - 1]);
      assert WordOk(argv[|argv| - 1]);
    }
  }

  lemma {:induction false} PrintIsText(c: Cmd<string>, level: nat)
    requires Valid(c) && level <= 3
    ensures '\0' !in Print(c, level)
    decreases c, if Binding(c) < level then 1 else 0
  {
    if Binding(c) < level {
      PrintIsText(c, 0);
    } else {
      match c
      case Exec(argv) => WordsAreText(argv);
      case Redir(d, _, _, _) => PrintIsText(d, 3);
      case Pipe(l, r) => PrintIsText(l, 3); PrintIsText(r, 2);
      case List(l, r) => PrintIsText(l, 1); PrintIsText(r, 0);
      case Back(d) => PrintIsText(d, 1);
    }
  }

  // ------------------------------------------------------------------
  // Text in place, and what follows it.

  predicate At(line: Line, p: nat, t: string) {
    p + |t| <= |line| && line[p..p + |t|] == t
  }

  lemma AtSplit(line: Line, p: nat, a: string, b: string)
    requires At(line, p, a + b)
    ensures At(line, p, a) && At(line, p + |a|, b)
  {
    assert line[p..p + |a|] == line[p..p + |a + b|][..|a|];
    assert line[p + |a|..p + |a| + |b|] == line[p..p + |a + b|][|a|..];
  }

  lemma AtChar(line: Line, p: nat, t: string, k: nat)
    requires At(line, p, t) && k < |t|
    ensures line[p + k] == t[k]
  {
    assert line[p..p + |t|][k] == line[p + k];
  }

  /** The next character that is not white space, if any, is one of these. */
  predicate Follow(line: Line, p: nat, toks: string) {
    p <= |line| && (Skip(line, p) == |line| || OneOf(line[Skip(line, p)], toks))
  }

  lemma SkipTwice(line: Line, p: nat)
    requires p <= |line|
    ensures Skip(line, Skip(line, p)) == Skip(line, p)
  {
  }

  lemma SkipBlank(line: Line, p: nat)
    requires p < |line| && IsSpace(line[p])
    ensures Skip(line, p) == Skip(line, p + 1)
  {
  }

  lemma WordCharIsPlain(c: char)
    requires IsWordChar(c)
    ensures !IsSpace(c) && c != '>' && !OneOf(c, "|();&<") && !OneOf(c, "<>") && !OneOf(c, "|)&;") && !OneOf(c, "(")
  {
  }

  lemma WordInPlace(line: Line, p: nat, w: string)
    requires WordOk(w) && At(line, p, w + " ")
    ensures p + |w| + 1 <= |line| && IsSpace(line[p + |w|]) && !IsWordChar(line[p + |w|])
    ensures forall k :: p <= k < p + |w| ==> IsWordChar(line[k])
    ensures line[p..p + |w|] == w
  {
    hide IsWordChar;
    AtSplit(line, p, w, " ");
    forall k | p <= k < p + |w| ensures IsWordChar(line[k]) { AtChar(line, p, w, k - p); }
    AtChar(line, p + |w|, " ", 0);
    BlankIsSpace();
  }

  lemma BlankIsSpace()
    ensures IsSpace(' ') && !IsWordChar(' ')
  {
  }

  /** A word and the blank after it. */
  lemma ReadWord(line: Line, p: nat, w: string)
    requires WordOk(w) && At(line, p, w + " ")
    ensures p + |w| + 1 <= |line| && IsWordChar(line[p]) && Skip(line, p) == p
    ensures Gettoken(line, p) == Token('a', p, p + |w|, Skip(line, p + |w| + 1))
    ensures Word(line, Span(p, p + |w|)) == w
  {
    hide IsWordChar, IsSpace, OneOf, WordEnd, At;
    WordInPlace(line, p, w);
    WordCharIsPlain(line[p]);
    WordEndsAt(line, p, p + |w|);
    SkipBlank(line, p + |w|);
  }

  lemma {:induction false} WordEndsAt(line: Line, p: nat, e: nat)
    requires p <= e < |line| && (forall k :: p <= k < e ==> IsWordChar(line[k])) && !IsWordChar(line[e])
    ensures WordEnd(line, p) == e
    decreases e - p
  {
    if p < e { WordEndsAt(line, p + 1, e); }
  }

  // ------------------------------------------------------------------
  // Simple commands and redirections.

  /** parseexec from the middle of a simple command on. */
  function ExecFrom(line: Line, p: nat, argc: nat, cmd: Cmd<Span>): Parsed
    requires p <= |line|
  {
    var next := ParseRedirs(line, p, cmd);
    if next.Panic? then next else ParseArgs(line, next.pos, argc, next.cmd)
  }

  lemma ReadArg(line: Line, p: nat, argc: nat, cmd: Cmd<Span>, w: string)
    requires WordOk(w) && At(line, p, w + " ") && argc + 1 < MAXARGS
    ensures p + |w| + 1 <= |line|
    ensures ExecFrom(line, p, argc, cmd) ==
            ExecFrom(line, p + |w| + 1, argc + 1, AddArg(cmd, Span(p, p + |w|)))
  {
    hide IsWordChar, IsSpace, OneOf, At, WordOk, Gettoken, Skip, AddArg, SpanOk;
    ReadWord(line, p, w);
    WordCharIsPlain(line[p]);
    SkipTwice(line, p + |w| + 1);
    var sp := Span(p, p + |w|);
    assert ParseRedirs(line, p, cmd) == Done(cmd, p);
    RedirsSkip(line, p + |w| + 1, AddArg(cmd, sp));
  }

  lemma RedirsSkip(line: Line, p: nat, cmd: Cmd<Span>)
    requires p <= |line|
    ensures ParseRedirs(line, Skip(line, p), cmd) == ParseRedirs(line, p, cmd)
  {
    hide IsWordChar, IsSpace, OneOf, Gettoken, Skip, Peek;
    SkipTwice(line, p);
  }

  lemma ReadRedir(line: Line, p: nat, cmd: Cmd<Span>, file: string, mode: nat, fd: nat)
    requires WordOk(file) && ModeOk(mode, fd) && At(line, p, Arrow(fd) + file + " ")
    ensures p + |file| + 2 <= |line| && Word(line, Span(p + 1, p + 1 + |file|)) == file
    ensures ParseRedirs(line, p, cmd) ==
            ParseRedirs(line, p + |file| + 2, Redir(cmd, Span(p + 1, p + 1 + |file|), mode, fd))
  {
    hide IsWordChar, IsSpace, OneOf, At, WordOk, Gettoken, Skip, SpanOk, Peek, ParseRedirs, Word;
    ArrowInPlace(line, p, file, fd);
    ReadWord(line, p + 1, file);
    OneRedir(line, p, cmd);
    RedirsSkip(line, p + |file| + 2, Redir(cmd, Span(p + 1, p + 1 + |file|), mode, fd));
  }

  lemma OneRedir(line: Line, p: nat, cmd: Cmd<Span>)
    requires p <= |line| && Skip(line, p) == p && Peek(line, p, "<>")
    requires Gettoken(line, Gettoken(line, p).next).kind == 'a'
    ensures var f := Gettoken(line, Gettoken(line, p).next);
            var input := Gettoken(line, p).kind == '<';
            ParseRedirs(line, p, cmd) == ParseRedirs(line, f.next, Redir(cmd, Span(f.q, f.eq),
              if input then O_RDONLY else O_WRONLY + O_CREATE, if input then 0 else 1))
  {
    hide IsWordChar, IsSpace, OneOf, Gettoken, Skip, SpanOk, Peek, TreeOk, IsSimple;
  }

  lemma ArrowIsPlain()
    ensures !IsSpace('<') && !IsSpace('>')
  {
  }

  lemma ArrowInPlace(line: Line, p: nat, file: string, fd: nat)
    requires WordOk(file) && At(line, p, Arrow(fd) + file + " ")
    ensures At(line, p + 1, file + " ") && Skip(line, p) == p < |line| && Peek(line, p, "<>")
    ensures Gettoken(line, p).kind == Arrow(fd)[0] && Gettoken(line, p).next == p + 1
  {
    hide IsWordChar, IsSpace, At;
    assert Arrow(fd) + file + " " == Arrow(fd) + (file + " ");
    AtSplit(line, p, Arrow(fd), file + " ");
    AtChar(line, p, Arrow(fd), 0);
    ReadWord(line, p + 1, file);
    WordCharIsPlain(line[p + 1]);
    ArrowIsPlain();
  }

  lemma {:induction false} ReadWords(line: Line, p: nat, argv: seq<string>) returns (cmd: Cmd<Span>)
    requires |argv| < MAXARGS && (forall i :: 0 <= i < |argv| ==> WordOk(argv[i])) && At(line, p, Words(argv))
    ensures cmd.Exec? && |cmd.argv| == |argv| && Text(line, cmd) == Exec(argv)
    ensures ExecFrom(line, p, 0, Exec([])) == ExecFrom(line, p + |Words(argv)|, |argv|, cmd)
    decreases |argv|
  {
    hide IsWordChar, IsSpace, OneOf, At, WordOk, ExecFrom, Word;
    if argv == [] {
      cmd := Exec([]);
    } else {
      var n := |argv| - 1;
      AtSplit(line, p, Words(argv[..n]), argv[n] + " ");
      var before := ReadWords(line, p, argv[..n]);
      var q := p + |Words(argv[..n])|;
      ReadArg(line, q, n, before, argv[n]);
      ReadWord(line, q, argv[n]);
      cmd := AddArg(before, Span(q, q + |argv[n]|));
      assert Text(line, cmd).argv == Text(line, before).argv + [argv[n]] == argv;
    }
  }

  /** A simple command, with its redirections. */
  lemma {:induction false} ReadSimple(line: Line, p: nat, c: Cmd<string>, argc: nat) returns (cmd: Cmd<Span>)
    requires Valid(c) && IsSimple(c, argc) && At(line, p, Print(c, 3))
    ensures p + |Print(c, 3)| <= |line| && Text(line, cmd) == c
    ensures ExecFrom(line, p, 0, Exec([])) == ExecFrom(line, p + |Print(c, 3)|, argc, cmd)
    decreases c
  {
    hide IsWordChar, IsSpace, OneOf, At, WordOk, Word, ParseRedirs, ParseArgs;
    AtEnds(line, p, Print(c, 3));
    if c.Exec? {
      cmd := ReadWords(line, p, c.argv);
    } else {
      var t := Print(c.cmd, 3);
      AtSplit(line, p, t, Arrow(c.fd) + c.file + " ");
      var before := ReadSimple(line, p, c.cmd, argc);
      ReadRedir(line, p + |t|, before, c.file, c.mode, c.fd);
      cmd := Redir(before, Span(p + |t| + 1, p + |t| + 1 + |c.file|), c.mode, c.fd);
    }
  }

  lemma AtEnds(line: Line, p: nat, t: string)
    requires At(line, p, t)
    ensures p + |t| <= |line|
  {
  }

  lemma ExecEnds(line: Line, p: nat, argc: nat, cmd: Cmd<Span>)
    requires Follow(line, p, "|)&;")
    ensures ExecFrom(line, p, argc, cmd) == Done(cmd, Skip(line, p))
  {
    hide IsSpace, Skip;
    SkipTwice(line, p);
  }

  /** What a simple command's text begins with. */
  predicate Starts(t: string) {
    t == [] || IsWordChar(t[0]) || t[0] == '<' || t[0] == '>'
  }

  lemma {:induction false} WordsStart(argv: seq<string>)
    requires forall i :: 0 <= i < |argv| ==> WordOk(argv[i])
    ensures Starts(Words(argv)) && (argv != [] ==> Words(argv) != [])
  {
    hide IsWordChar;
    if argv != [] {
      WordsStart(argv[..|argv| - 1]);
      assert WordOk(argv[|argv| - 1]);
    }
  }

  lemma {:induction false} SimpleStarts(c: Cmd<string>, argc: nat)
    requires Valid(c) && IsSimple(c, argc)
    ensures Starts(Print(c, 3))
    decreases c
  {
    hide IsWordChar, WordOk;
    if c.Exec? { WordsStart(c.argv); } else { SimpleStarts(c.cmd, argc); }
  }

  lemma NoParenthesis(line: Line, p: nat, t: string)
    requires At(line, p, t) && Starts(t) && Follow(line, p + |t|, "|)&;")
    ensures !Peek(line, Skip(line, p), "(")
  {
    SkipTwice(line, p);
    if t != [] {
      AtChar(line, p, t, 0);
    }
  }

  lemma ReadSimpleExec(line: Line, p: nat, c: Cmd<string>, argc: nat) returns (cmd: Cmd<Span>)
    requires Valid(c) && IsSimple(c, argc) && At(line, p, Print(c, 3)) && Follow(line, p + |Print(c, 3)|, "|)&;")
    ensures Text(line, cmd) == c && ParseExec(line, p) == Done(cmd, Skip(line, p + |Print(c, 3)|))
  {
    hide IsWordChar, IsSpace, OneOf, At, WordOk, Word, ParseRedirs, ParseArgs, Follow, Print, Peek, Skip, ParseBlock;
    var t := Print(c, 3);
    AtEnds(line, p, t);
    SimpleStarts(c, argc);
    NoParenthesis(line, p, t);
    cmd := ReadSimple(line, p, c, argc);
    RedirsSkip(line, p, Exec([]));
    ExecEnds(line, p + |t|, argc, cmd);
  }

  // ------------------------------------------------------------------
  // Where the cursor stands before white space makes no difference.

  lemma ExecSkip(line: Line, p: nat)
    requires p <= |line|
    ensures ParseExec(line, Skip(line, p)) == ParseExec(line, p)
  {
    hide IsSpace, OneOf, Skip, ParseBlock, ParseRedirs, ParseArgs;
    SkipTwice(line, p);
  }

  lemma PipeSkip(line: Line, p: nat)
    requires p <= |line|
    ensures ParsePipe(line, Skip(line, p)) == ParsePipe(line, p)
  {
    hide IsSpace, OneOf, Skip, ParseExec;
    ExecSkip(line, p);
  }

  lemma BacksSkip(line: Line, p: nat, cmd: Cmd<Span>)
    requires p <= |line|
    ensures ParseBacks(line, Skip(line, p), cmd) == ParseBacks(line, p, cmd)
  {
    hide IsSpace, OneOf, Skip;
    SkipTwice(line, p);
  }

  lemma LineSkip(line: Line, p: nat)
    requires p <= |line|
    ensures ParseLine(line, Skip(line, p)) == ParseLine(line, p)
  {
    hide IsSpace, OneOf, Skip, ParsePipe;
    PipeSkip(line, p);
  }

  /** A symbol at the cursor. */
  lemma ReadSymbol(line: Line, p: nat, c: char)
    requires At(line, p, [c]) && OneOf(c, "|();&")
    ensures p < |line| && Skip(line, p) == p && Gettoken(line, p).next == Skip(line, p + 1)
    ensures line[p] == c
  {
    AtChar(line, p, [c], 0);
  }

  // ------------------------------------------------------------------
  // Every tree, level by level.

  function Rank(c: Cmd<string>, level: nat): nat
    requires level <= 3
  {
    if level <= Binding(c) < 3 then Binding(c) - level else 8 - level
  }

  lemma {:induction false} ReadCompound(line: Line, p: nat, c: Cmd<string>) returns (cmd: Cmd<Span>)
    requires Valid(c) && (forall argc: nat :: !IsSimple(c, argc)) && At(line, p, Print(c, 3))
    ensures p + |Print(c, 3)| <= |line| && Text(line, cmd) == c
    ensures ParseExec(line, p) == ParseRedirs(line, p + |Print(c, 3)|, cmd)
    decreases c, 4
  {
    hide IsWordChar, IsSpace, OneOf, At, WordOk, Word, ParseRedirs, ParseArgs, ParseExec, Skip, ModeOk;
    AtEnds(line, p, Print(c, 3));
    if c.Redir? {
      var t := Print(c.cmd, 3);
      AtSplit(line, p, t, Arrow(c.fd) + c.file + " ");
      assert forall argc: nat :: IsSimple(c.cmd, argc) ==> IsSimple(c, argc);
      var before := ReadCompound(line, p, c.cmd);
      ReadRedir(line, p + |t|, before, c.file, c.mode, c.fd);
      cmd := Redir(before, Span(p + |t| + 1, p + |t| + 1 + |c.file|), c.mode, c.fd);
    } else {
      assert !c.Exec? by { NotExec(c); }
      cmd := ReadBlock(line, p, c);
    }
  }

  lemma NotExec(c: Cmd<string>)
    requires forall argc: nat :: !IsSimple(c, argc)
    ensures !c.Exec?
  {
    match c
    case Exec(argv) => assert IsSimple(c, |argv|);
    case _ =>
  }

  lemma {:induction false} ReadBlock(line: Line, p: nat, c: Cmd<string>) returns (cmd: Cmd<Span>)
    requires Valid(c) && Binding(c) < 3 && At(line, p, "(" + Print(c, 0) + ")")
    ensures p + |Print(c, 0)| + 2 <= |line| && Text(line, cmd) == c
    ensures ParseExec(line, p) == ParseRedirs(line, p + |Print(c, 0)| + 2, cmd)
    decreases c, 3
  {
    hide IsWordChar, IsSpace, At, WordOk, Word, ParseRedirs, ParseArgs, Skip, ParseLine, Print, Text, Valid, Gettoken;
    var t := Print(c, 0);
    assert "(" + t + ")" == "(" + (t + ")");
    AtSplit(line, p, "(", t + ")");
    AtSplit(line, p + 1, t, ")");
    var e := p + 1 + |t|;
    ReadSymbol(line, p, '(');
    ReadSymbol(line, e, ')');
    cmd := ReadLine(line, p + 1, c);
    LineSkip(line, p + 1);
    RedirsSkip(line, e + 1, cmd);
  }

  lemma {:induction false} ReadExec(line: Line, p: nat, c: Cmd<string>) returns (cmd: Cmd<Span>)
    requires Valid(c) && At(line, p, Print(c, 3)) && Follow(line, p + |Print(c, 3)|, "|)&;")
    ensures Text(line, cmd) == c && ParseExec(line, p) == Done(cmd, Skip(line, p + |Print(c, 3)|))
    decreases c, Rank(c, 3)
  {
    hide IsWordChar, IsSpace, OneOf, At, WordOk, Word, ParseArgs, ParseExec, Follow, Print, Skip, ParseRedirs, Text, Valid;
    if argc: nat :| IsSimple(c, argc) {
      cmd := ReadSimpleExec(line, p, c, argc);
    } else {
      cmd := ReadCompound(line, p, c);
      RedirsEnd(line, p + |Print(c, 3)|, cmd);
    }
  }

  lemma RedirsEnd(line: Line, p: nat, cmd: Cmd<Span>)
    requires Follow(line, p, "|)&;")
    ensures ParseRedirs(line, p, cmd) == Done(cmd, Skip(line, p))
  {
    hide IsSpace, Skip;
    SkipTwice(line, p);
  }

  /** A symbol that follows. */
  lemma FollowedBy(line: Line, p: nat, c: char)
    requires At(line, p, [c]) && OneOf(c, "|();&")
    ensures OneOf(c, "|)&;") ==> Follow(line, p, "|)&;")
    ensures OneOf(c, ")&;") ==> Follow(line, p, ")&;")
    ensures OneOf(c, ")") ==> Follow(line, p, ")")
  {
    hide OneOf;
    ReadSymbol(line, p, c);
  }

  lemma PipeStops(line: Line, p: nat, cmd: Cmd<Span>, e: nat)
    requires p <= |line| && Follow(line, e, ")&;") && ParseExec(line, p) == Done(cmd, Skip(line, e))
    ensures ParsePipe(line, p) == Done(cmd, Skip(line, e))
  {
    hide IsSpace, Skip, ParseExec;
    SkipTwice(line, e);
  }

  lemma PipeGoesOn(line: Line, p: nat, left: Cmd<Span>, q: nat, right: Cmd<Span>, e: nat)
    requires p <= |line| && At(line, q, "|") && ParseExec(line, p) == Done(left, Skip(line, q))
    requires q < |line| && ParsePipe(line, q + 1) == Done(right, e)
    ensures ParsePipe(line, p) == Done(Pipe(left, right), e)
  {
    hide IsSpace, Skip, ParseExec, At;
    ReadSymbol(line, q, '|');
    PipeSkip(line, q + 1);
  }

  lemma Narrower(line: Line, p: nat)
    requires Follow(line, p, ")") || Follow(line, p, ")&;")
    ensures Follow(line, p, ")&;") && Follow(line, p, "|)&;")
  {
    hide Skip;
  }

  lemma {:induction false} ReadPipe(line: Line, p: nat, c: Cmd<string>) returns (cmd: Cmd<Span>)
    requires Valid(c) && At(line, p, Print(c, 2)) && Follow(line, p + |Print(c, 2)|, ")&;")
    ensures Text(line, cmd) == c && ParsePipe(line, p) == Done(cmd, Skip(line, p + |Print(c, 2)|))
    decreases c, Rank(c, 2)
  {
    hide IsWordChar, IsSpace, At, WordOk, Word, ParseExec, Skip, Follow, Peek, ParsePipe;
    var t := Print(c, 2);
    AtEnds(line, p, t);
    Narrower(line, p + |t|);
    if c.Pipe? {
      var l, r := Print(c.left, 3), Print(c.right, 2);
      AtSplit(line, p, l + "|", r);
      AtSplit(line, p, l, "|");
      var q := p + |l|;
      FollowedBy(line, q, '|');
      AtEnds(line, q, "|");
      var left := ReadExec(line, p, c.left);
      var right := ReadPipe(line, q + 1, c.right);
      cmd := Pipe(left, right);
      PipeGoesOn(line, p, left, q, right, Skip(line, p + |t|));
    } else {
      cmd := ReadExec(line, p, c);
      PipeStops(line, p, cmd, p + |t|);
    }
  }

  /** parseline up to the end of its loop. */
  function LeftFrom(line: Line, p: nat): Parsed
    requires p <= |line|
  {
    var first := ParsePipe(line, p);
    if first.Panic? then first else ParseBacks(line, first.pos, first.cmd)
  }

  lemma {:induction false} ReadBack(line: Line, p: nat, c: Cmd<string>) returns (cmd: Cmd<Span>)
    requires Valid(c) && At(line, p, Print(c, 1)) && Follow(line, p + |Print(c, 1)|, ")&;")
    ensures Text(line, cmd) == c && LeftFrom(line, p) == ParseBacks(line, p + |Print(c, 1)|, cmd)
    decreases c, Rank(c, 1)
  {
    hide IsWordChar, IsSpace, At, WordOk, Word, ParsePipe, Skip;
    var t := Print(c, 1);
    AtEnds(line, p, t);
    if c.Back? {
      var q := p + |Print(c.cmd, 1)|;
      AtSplit(line, p, Print(c.cmd, 1), "&");
      ReadSymbol(line, q, '&');
      var before := ReadBack(line, p, c.cmd);
      cmd := Back(before);
      BacksSkip(line, q + 1, cmd);
    } else {
      cmd := ReadPipe(line, p, c);
      BacksSkip(line, p + |t|, cmd);
    }
  }

  lemma LineStops(line: Line, p: nat, cmd: Cmd<Span>, e: nat)
    requires p <= |line| && Follow(line, e, ")") && LeftFrom(line, p) == ParseBacks(line, e, cmd)
    ensures ParseLine(line, p) == Done(cmd, Skip(line, e))
  {
    hide IsSpace, Skip, ParsePipe;
    SkipTwice(line, e);
  }

  lemma LineGoesOn(line: Line, p: nat, left: Cmd<Span>, q: nat, right: Cmd<Span>, e: nat)
    requires p <= |line| && At(line, q, ";") && q < |line| && LeftFrom(line, p) == ParseBacks(line, q, left)
    requires ParseLine(line, q + 1) == Done(right, e)
    ensures ParseLine(line, p) == Done(List(left, right), e)
  {
    hide IsSpace, Skip, ParsePipe, At;
    ReadSymbol(line, q, ';');
    LineSkip(line, q + 1);
  }

  lemma {:induction false} ReadLine(line: Line, p: nat, c: Cmd<string>) returns (cmd: Cmd<Span>)
    requires Valid(c) && At(line, p, Print(c, 0)) && Follow(line, p + |Print(c, 0)|, ")")
    ensures Text(line, cmd) == c && ParseLine(line, p) == Done(cmd, Skip(line, p + |Print(c, 0)|))
    decreases c, Rank(c, 0)
  {
    hide IsWordChar, IsSpace, At, WordOk, Word, ParsePipe, Skip, Follow, Peek, ParseLine, LeftFrom, ParseBacks;
    var t := Print(c, 0);
    AtEnds(line, p, t);
    Narrower(line, p + |t|);
    if c.List? {
      var l, r := Print(c.left, 1), Print(c.right, 0);
      AtSplit(line, p, l + ";", r);
      AtSplit(line, p, l, ";");
      var q := p + |l|;
      FollowedBy(line, q, ';');
      AtEnds(line, q, ";");
      var left := ReadBack(line, p, c.left);
      var right := ReadLine(line, q + 1, c.right);
      cmd := List(left, right);
      LineGoesOn(line, p, left, q, right, Skip(line, p + |t|));
    } else {
      cmd := ReadBack(line, p, c);
      LineStops(line, p, cmd, p + |t|);
    }
  }

  /** Every command tree with proper words and at most nine arguments to a
      command is read back from its printed form. */
  lemma RoundTrip(c: Cmd<string>) returns (cmd: Cmd<Span>)
    requires Valid(c)
    ensures '\0' !in Print(c, 0)
    ensures ParseCmd(Print(c, 0)) == Done(cmd, |Print(c, 0)|) && Text(Print(c, 0), cmd) == c
  {
    PrintIsText(c, 0);
    var line: Line := Print(c, 0);
    cmd := ReadLine(line, 0, c);
  }

  /** And every line the shell accepts means the same as its tree printed. */
  lemma AcceptedLineReprints(line: Line) returns (cmd: Cmd<Span>)
    requires ParseCmd(line).Done?
    ensures var c := Text(line, ParseCmd(line).cmd);
            '\0' !in Print(c, 0) && ParseCmd(Print(c, 0)) == Done(cmd, |Print(c, 0)|) && Text(Print(c, 0), cmd) == c
  {
    TextValid(line, ParseCmd(line).cmd);
    cmd := RoundTrip(Text(line, ParseCmd(line).cmd));
  }
}
