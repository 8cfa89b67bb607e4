/** The grammar of the shell, on values: what its recursive-descent parser makes
    of a line. */
module ShellSyntax {
  const NUL := '\0'
  const MAXARGS: nat := 10
  const O_RDONLY: nat := 0x000
  const O_WRONLY: nat := 0x001
  const O_CREATE: nat := 0x200

  /** A token by its ends in the line. */
  datatype Word = Word(q: nat, eq: nat)

  datatype Cmd =
    | Exec(argv: seq<Word>)
    | Redir(cmd: Cmd, file: Word, mode: nat, fd: nat)
    | Piped(left: Cmd, right: Cmd)
    | List(left: Cmd, right: Cmd)
    | Back(cmd: Cmd)

  /** A command and where the cursor is left, or the message of a panic. */
  datatype Parse = Parsed(cmd: Cmd, s: nat) | Panic(msg: string)

  predicate Space(c: char) {
    c == ' ' || c == '\t' || c == '\r' || c == '\n' || c == '\U{B}'
  }

  predicate Symbol(c: char) {
    c == '<' || c == '|' || c == '>' || c == '&' || c == ';' || c == '(' || c == ')'
  }

  predicate Plain(c: char) {
    !Space(c) && !Symbol(c)
  }

  /** *s, for a cursor that may stand at the end of the line. */
  function At(b: string, s: nat): char {
    if s < |b| then b[s] else NUL
  }

  function Skip(b: string, s: nat): (r: nat)
    requires s <= |b|
    ensures s <= r <= |b|
    ensures r < |b| ==> !Space(b[r])
    ensures At(b, s) == NUL || !Space(At(b, s)) ==> r == s
    decreases |b| - s
  {
    if s < |b| && Space(b[s]) then Skip(b, s + 1) else s
  }

  function WordEnd(b: string, s: nat): (r: nat)
    requires s <= |b|
    ensures s <= r <= |b|
    ensures forall k :: s <= k < r ==> Plain(b[k])
    ensures r < |b| ==> !Plain(b[r])
    decreases |b| - s
  {
    if s < |b| && Plain(b[s]) then WordEnd(b, s + 1) else s
  }

  // ---- gettoken

  /** The kind gettoken returns, the ends of the token, and the cursor after it. */
  datatype Token = Token(kind: char, q: nat, eq: nat, next: nat)

  function NextToken(b: string, s: nat): (t: Token)
    requires s <= |b| && NUL !in b
    ensures s <= t.q <= t.eq <= t.next <= |b|
    ensures t.kind == NUL <==> t.q == |b|
    ensures t.kind != NUL ==> t.q < t.eq
    ensures t.kind == 'a' ==> TokenOk(b, Word(t.q, t.eq))
  {
    var q := Skip(b, s);
    var c := At(b, q);
    if c == NUL then Token(NUL, q, q, q)
    else if c == '>' then
      if At(b, q + 1) == '>' then Token('+', q, q + 2, Skip(b, q + 2)) else Token('>', q, q + 1, Skip(b, q + 1))
    else if Symbol(c) then Token(c, q, q + 1, Skip(b, q + 1))
    else
      var eq := WordEnd(b, q);
      Token('a', q, eq, Skip(b, eq))
  }

  /** A word is a longest run of plain characters. */
  predicate TokenOk(b: string, w: Word) {
    w.q < w.eq <= |b| && (forall k :: w.q <= k < w.eq ==> Plain(b[k])) && (w.eq < |b| ==> !Plain(b[w.eq]))
  }

  ghost predicate TokensOk(b: string, c: Cmd) {
    match c
    case Exec(argv) => forall k :: 0 <= k < |argv| ==> TokenOk(b, argv[k])
    case Redir(d, file, _, _) => TokensOk(b, d) && TokenOk(b, file)
    case Piped(l, r) => TokensOk(b, l) && TokensOk(b, r)
    case List(l, r) => TokensOk(b, l) && TokensOk(b, r)
    case Back(d) => TokensOk(b, d)
  }

  // ---- the parser

  /** parseredirs */
  function Redirs(b: string, s: nat, cmd: Cmd): (r: Parse)
    requires s <= |b| && NUL !in b
    ensures r.Parsed? ==> s <= r.s <= |b| && (TokensOk(b, cmd) ==> TokensOk(b, r.cmd))
    decreases |b| - s
  {
    var p := Skip(b, s);
    if At(b, p) == '<' || At(b, p) == '>' then
      var t := NextToken(b, p);
      var f := NextToken(b, t.next);
      if f.kind != 'a' then Panic("missing file for redirection")
      else Redirs(b, f.next, Redirected(cmd, t.kind, Word(f.q, f.eq)))
    else Parsed(cmd, p)
  }

  function Redirected(cmd: Cmd, kind: char, file: Word): Cmd {
    if kind == '<' then Redir(cmd, file, O_RDONLY, 0) else Redir(cmd, file, O_WRONLY + O_CREATE, 1)
  }

  /** One more word for the execcmd node under the redirections. */
  function AddArg(cmd: Cmd, w: Word): Cmd {
    match cmd
    case Exec(argv) => Exec(argv + [w])
    case Redir(d, file, mode, fd) => Redir(AddArg(d, w), file, mode, fd)
    case _ => cmd
  }

  lemma AddArgTokens(b: string, cmd: Cmd, w: Word)
    requires TokenOk(b, w)
    ensures TokensOk(b, cmd) ==> TokensOk(b, AddArg(cmd, w))
  {
  }

  predicate Ends(c: char) {
    c == '|' || c == ')' || c == '&' || c == ';'
  }

  /** The loop of parseexec, with argc words so far. */
  function Args(b: string, s: nat, ret: Cmd, argc: nat): (r: Parse)
    requires s <= |b| && NUL !in b
    ensures r.Parsed? ==> s <= r.s <= |b| && (TokensOk(b, ret) ==> TokensOk(b, r.cmd))
    decreases |b| - s
  {
    var p := Skip(b, s);
    if Ends(At(b, p)) then Parsed(ret, p)
    else
      var t := NextToken(b, p);
      if t.kind == NUL then Parsed(ret, t.next)
      else if t.kind != 'a' then Panic("syntax")
      else if argc + 1 >= MAXARGS then Panic("too many args")
      else
        AddArgTokens(b, ret, Word(t.q, t.eq));
        match Redirs(b, t.next, AddArg(ret, Word(t.q, t.eq)))
        case Parsed(more, s2) => Args(b, s2, more, argc + 1)
        case Panic(m) => Panic(m)
  }

  function ParseExec(b: string, s: nat): (r: Parse)
    requires s <= |b| && NUL !in b
    ensures r.Parsed? ==> s <= r.s <= |b| && TokensOk(b, r.cmd)
    decreases |b| - s, 1
  {
    var p := Skip(b, s);
    if At(b, p) == '(' then ParseBlock(b, p)
    else
      match Redirs(b, p, Exec([]))
      case Parsed(ret, s2) => Args(b, s2, ret, 0)
      case Panic(m) => Panic(m)
  }

  function ParseBlock(b: string, s: nat): (r: Parse)
    requires s <= |b| && NUL !in b
    ensures r.Parsed? ==> s < r.s <= |b| && TokensOk(b, r.cmd)
    decreases |b| - s, 0
  {
    var p := Skip(b, s);
    if At(b, p) != '(' then Panic("parseblock")
    else
      match ParseLine(b, NextToken(b, p).next)
      case Panic(m) => Panic(m)
      case Parsed(cmd, s2) =>
        var p2 := Skip(b, s2);
        if At(b, p2) != ')' then Panic("syntax - missing )")
        else Redirs(b, NextToken(b, p2).next, cmd)
  }

  function ParsePipe(b: string, s: nat): (r: Parse)
    requires s <= |b| && NUL !in b
    ensures r.Parsed? ==> s <= r.s <= |b| && TokensOk(b, r.cmd)
    decreases |b| - s, 2
  {
    match ParseExec(b, s)
    case Panic(m) => Panic(m)
    case Parsed(cmd, s2) =>
      var p := Skip(b, s2);
      if At(b, p) != '|' then Parsed(cmd, p)
      else
        match ParsePipe(b, NextToken(b, p).next)
        case Panic(m) => Panic(m)
        case Parsed(right, s3) => Parsed(Piped(cmd, right), s3)
  }

  /** The loop of parseline. */
  function Backs(b: string, s: nat, cmd: Cmd): (r: Parse)
    requires s <= |b| && NUL !in b
    ensures r.Parsed? && s <= r.s <= |b| && (TokensOk(b, cmd) ==> TokensOk(b, r.cmd))
    decreases |b| - s
  {
    var p := Skip(b, s);
    if At(b, p) != '&' then Parsed(cmd, p) else Backs(b, NextToken(b, p).next, Back(cmd))
  }

  function ParseLine(b: string, s: nat): (r: Parse)
    requires s <= |b| && NUL !in b
    ensures r.Parsed? ==> s <= r.s <= |b| && TokensOk(b, r.cmd)
    decreases |b| - s, 3
  {
    match ParsePipe(b, s)
    case Panic(m) => Panic(m)
    case Parsed(first, s2) =>
      var Parsed(cmd, s3) := Backs(b, s2, first);
      var p := Skip(b, s3);
      if At(b, p) != ';' then Parsed(cmd, p)
      else
        match ParseLine(b, NextToken(b, p).next)
        case Panic(m) => Panic(m)
        case Parsed(right, s4) => Parsed(List(cmd, right), s4)
  }

  /** parsecmd, before the tokens are terminated. */
  function ParseCmd(b: string): (r: Parse)
    requires NUL !in b
    ensures r.Parsed? ==> TokensOk(b, r.cmd)
  {
    match ParseLine(b, 0)
    case Panic(m) => Panic(m)
    case Parsed(cmd, s) => if Skip(b, s) != |b| then Panic("syntax") else Parsed(cmd, |b|)
  }
}
