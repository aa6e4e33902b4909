/** The command language of sh.c: its tokens, its parse trees and, as
    functions of the line and a position in it, what each parsing routine
    answers. */
module ShellGrammar {

  const MAXARGS := 10
  const O_RDONLY := 0
  const O_WRONLY := 0x001
  const O_CREATE := 0x200

  /** A C string: no NUL before its end. */
  type Line = s: seq<char> | '\0' !in s

  /** The two pointers that delimit a word in the line. */
  datatype Span = Span(q: nat, eq: nat)

  /** struct cmd and its five kinds, over words of any representation. */
  datatype Cmd<W> =
    | Exec(argv: seq<W>)
    | Redir(cmd: Cmd<W>, file: W, mode: nat, fd: nat)
    | Pipe(left: Cmd<W>, right: Cmd<W>)
    | List(left: Cmd<W>, right: Cmd<W>)
    | Back(cmd: Cmd<W>)

  /** A tree and the cursor after it, or the message the shell panics with. */
  datatype Parsed = Done(cmd: Cmd<Span>, pos: nat) | Panic(message: string)

  datatype Token = Token(kind: char, q: nat, eq: nat, next: nat)

  predicate IsSpace(c: char) {
    c in [' ', '\t', '\r', '\n', 11 as char]
  }

  /** strchr(toks, c), for a c that is not NUL. */
  predicate OneOf(c: char, toks: string) {
    c in toks
  }

  predicate IsSymbol(c: char) {
    c in "<|>&;()"
  }

  predicate IsWordChar(c: char) {
    !IsSpace(c) && !IsSymbol(c) && c != '\0'
  }

  /** The first position from p on that holds no white space. */
  function Skip(line: Line, p: nat): (r: nat)
    requires p <= |line|
    ensures p <= r <= |line| && (r < |line| ==> !IsSpace(line[r]))
    ensures forall k :: p <= k < r ==> IsSpace(line[k])
    decreases |line| - p
  {
    if p < |line| && IsSpace(line[p]) then Skip(line, p + 1) else p
  }

  /** The end of the word that p is in. */
  function WordEnd(line: Line, p: nat): (r: nat)
    requires p <= |line|
    ensures p <= r <= |line| && (r < |line| ==> !IsWordChar(line[r]))
    ensures forall k :: p <= k < r ==> IsWordChar(line[k])
    decreases |line| - p
  {
    if p < |line| && IsWordChar(line[p]) then WordEnd(line, p + 1) else p
  }

  /** gettoken: the kind is the symbol itself, '+' for >>, 'a' for a word and
      NUL at the end of the line. */
  function Gettoken(line: Line, p: nat): (t: Token)
    requires p <= |line|
    ensures p <= t.q <= t.eq <= t.next <= |line|
    ensures t.kind != '\0' ==> t.q < t.eq
    ensures t.kind == 'a' ==> SpanOk(line, Span(t.q, t.eq))
  {
    var q := Skip(line, p);
    if q == |line| then Token('\0', q, q, q)
    else if OneOf(line[q], "|();&<") then Token(line[q], q, q + 1, Skip(line, q + 1))
    else if line[q] == '>' then
      if q + 1 < |line| && line[q + 1] == '>' then Token('+', q, q + 2, Skip(line, q + 2))
      else Token('>', q, q + 1, Skip(line, q + 1))
    else
      var e := WordEnd(line, q);
      Token('a', q, e, Skip(line, e))
  }

  /** peek's answer; it also moves the cursor to Skip(line, p). */
  predicate Peek(line: Line, p: nat, toks: string)
    requires p <= |line|
  {
    Skip(line, p) < |line| && OneOf(line[Skip(line, p)], toks)
  }

  // ------------------------------------------------------------------
  // What holds of every tree the parser builds.

  /** A maximal run of word characters, not empty. */
  predicate SpanOk(line: Line, sp: Span) {
    && sp.q < sp.eq <= |line|
    && (forall k :: sp.q <= k < sp.eq ==> IsWordChar(line[k]))
    && (sp.eq < |line| ==> !IsWordChar(line[sp.eq]))
  }

  predicate ModeOk(mode: nat, fd: nat) {
    (mode == O_RDONLY && fd == 0) || (mode == O_WRONLY + O_CREATE && fd == 1)
  }

  predicate TreeOk(line: Line, c: Cmd<Span>) {
    match c
    case Exec(argv) => |argv| < MAXARGS && forall i :: 0 <= i < |argv| ==> SpanOk(line, argv[i])
    case Redir(d, file, mode, fd) => TreeOk(line, d) && SpanOk(line, file) && ModeOk(mode, fd)
    case Pipe(l, r) => TreeOk(line, l) && TreeOk(line, r)
    case List(l, r) => TreeOk(line, l) && TreeOk(line, r)
    case Back(d) => TreeOk(line, d)
  }

  /** A simple command under some redirections, with that many arguments. */
  predicate IsSimple<W>(c: Cmd<W>, argc: nat) {
    match c
    case Exec(argv) => |argv| == argc
    case Redir(d, _, _, _) => IsSimple(d, argc)
    case _ => false
  }

  // ------------------------------------------------------------------
  // The parser.

  /** cmd->argv[argc] = q, where ret may already wrap cmd in redirections. */
  function AddArg<W>(c: Cmd<W>, w: W): Cmd<W> {
    match c
    case Exec(argv) => Exec(argv + [w])
    case Redir(d, file, mode, fd) => Redir(AddArg(d, w), file, mode, fd)
    case _ => c
  }

  lemma AddArgOk(line: Line, c: Cmd<Span>, w: Span, argc: nat)
    requires TreeOk(line, c) && IsSimple(c, argc) && argc + 1 < MAXARGS && SpanOk(line, w)
    ensures TreeOk(line, AddArg(c, w)) && IsSimple(AddArg(c, w), argc + 1)
  {
    if c.Redir? { AddArgOk(line, c.cmd, w, argc); }
  }

  function ParseRedirs(line: Line, p: nat, cmd: Cmd<Span>): (r: Parsed)
    requires p <= |line|
    ensures r.Done? ==> p <= r.pos <= |line|
    ensures r.Done? && TreeOk(line, cmd) ==> TreeOk(line, r.cmd)
    ensures forall argc: nat :: r.Done? && IsSimple(cmd, argc) ==> IsSimple(r.cmd, argc)
    decreases |line| - p
  {
    var s := Skip(line, p);
    if Peek(line, s, "<>") then
      var t := Gettoken(line, s);
      var f := Gettoken(line, t.next);
      if f.kind != 'a' then Panic("missing file for redirection")
      else
        var input := t.kind == '<';
        ParseRedirs(line, f.next, Redir(cmd, Span(f.q, f.eq),
          if input then O_RDONLY else O_WRONLY + O_CREATE, if input then 0 else 1))
    else Done(cmd, s)
  }

  /** The argument loop of parseexec. */
  function ParseArgs(line: Line, p: nat, argc: nat, cmd: Cmd<Span>): (r: Parsed)
    requires p <= |line|
    ensures r.Done? ==> p <= r.pos <= |line|
    ensures r.Done? && TreeOk(line, cmd) && IsSimple(cmd, argc) ==> TreeOk(line, r.cmd)
    decreases |line| - p
  {
    var s := Skip(line, p);
    if Peek(line, s, "|)&;") then Done(cmd, s)
    else
      var t := Gettoken(line, s);
      if t.kind == '\0' then Done(cmd, t.next)
      else if t.kind != 'a' then Panic("syntax")
      else if argc + 1 >= MAXARGS then Panic("too many args")
      else
        var next := ParseRedirs(line, t.next, AddArg(cmd, Span(t.q, t.eq)));
        if next.Panic? then next
        else
          assert TreeOk(line, cmd) && IsSimple(cmd, argc) ==> TreeOk(line, next.cmd) && IsSimple(next.cmd, argc + 1) by {
            if TreeOk(line, cmd) && IsSimple(cmd, argc) { AddArgOk(line, cmd, Span(t.q, t.eq), argc); }
          }
          ParseArgs(line, next.pos, argc + 1, next.cmd)
  }

  function ParseExec(line: Line, p: nat): (r: Parsed)
    requires p <= |line|
    ensures r.Done? ==> p <= r.pos <= |line| && TreeOk(line, r.cmd)
    decreases |line| - p, 1
  {
    var s := Skip(line, p);
    if Peek(line, s, "(") then ParseBlock(line, s)
    else
      var first := ParseRedirs(line, s, Exec([]));
      if first.Panic? then first else ParseArgs(line, first.pos, 0, first.cmd)
  }

  function ParseBlock(line: Line, p: nat): (r: Parsed)
    requires p <= |line|
    ensures r.Done? ==> p <= r.pos <= |line| && TreeOk(line, r.cmd)
    decreases |line| - p, 0
  {
    if !Peek(line, p, "(") then Panic("parseblock")
    else
      var inner := ParseLine(line, Gettoken(line, Skip(line, p)).next);
      if inner.Panic? then inner
      else if !Peek(line, inner.pos, ")") then Panic("syntax - missing )")
      else ParseRedirs(line, Gettoken(line, Skip(line, inner.pos)).next, inner.cmd)
  }

  function ParsePipe(line: Line, p: nat): (r: Parsed)
    requires p <= |line|
    ensures r.Done? ==> p <= r.pos <= |line| && TreeOk(line, r.cmd)
    decreases |line| - p, 2
  {
    var left := ParseExec(line, p);
    if left.Panic? then left
    else
      var s := Skip(line, left.pos);
      if Peek(line, s, "|") then
        var right := ParsePipe(line, Gettoken(line, s).next);
        if right.Panic? then right else Done(Pipe(left.cmd, right.cmd), right.pos)
      else Done(left.cmd, s)
  }

  /** The loop of parseline over trailing ampersands. */
  function ParseBacks(line: Line, p: nat, cmd: Cmd<Span>): (r: Parsed)
    requires p <= |line|
    ensures r.Done? && p <= r.pos <= |line| && (TreeOk(line, cmd) ==> TreeOk(line, r.cmd))
    decreases |line| - p
  {
    var s := Skip(line, p);
    if Peek(line, s, "&") then ParseBacks(line, Gettoken(line, s).next, Back(cmd)) else Done(cmd, s)
  }

  function ParseLine(line: Line, p: nat): (r: Parsed)
    requires p <= |line|
    ensures r.Done? ==> p <= r.pos <= |line| && TreeOk(line, r.cmd)
    decreases |line| - p, 3
  {
    var first := ParsePipe(line, p);
    if first.Panic? then first
    else
      var left := ParseBacks(line, first.pos, first.cmd);
      var s := Skip(line, left.pos);
      if Peek(line, s, ";") then
        var right := ParseLine(line, Gettoken(line, s).next);
        if right.Panic? then right else Done(List(left.cmd, right.cmd), right.pos)
      else Done(left.cmd, s)
  }

  /** parsecmd: the whole line must be used up. */
  function ParseCmd(line: Line): (r: Parsed)
    ensures r.Done? ==> TreeOk(line, r.cmd) && r.pos == |line|
  {
    var whole := ParseLine(line, 0);
    if whole.Panic? then whole
    else if Skip(line, whole.pos) != |line| then Panic("syntax")
    else Done(whole.cmd, |line|)
  }
}
