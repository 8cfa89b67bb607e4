/** Printing a command tree with every part in parentheses, and parsing it back. */
module ShellRoundTrip {
  import opened ShellSyntax

  datatype Tree =
    | Simple(words: seq<string>)
    | Redirect(sub: Tree, file: string, input: bool)
    | Pipeline(left: Tree, right: Tree)
    | Sequence(left: Tree, right: Tree)
    | Background(sub: Tree)

  predicate WordText(w: string) {
    w != "" && forall k :: 0 <= k < |w| ==> Plain(w[k]) && w[k] != NUL
  }

  /** A tree the shell can hold: at most nine words a command. */
  predicate Printable(t: Tree) {
    match t
    case Simple(words) => |words| < MAXARGS && forall k :: 0 <= k < |words| ==> WordText(words[k])
    case Redirect(d, file, _) => Printable(d) && WordText(file)
    case Pipeline(l, r) => Printable(l) && Printable(r)
    case Sequence(l, r) => Printable(l) && Printable(r)
    case Background(d) => Printable(d)
  }

  function Join(words: seq<string>): string {
    if |words| == 0 then "" else if |words| == 1 then words[0] else words[0] + (" " + Join(words[1..]))
  }

  function Block(t: Tree): string
    decreases t, 1
  {
    "(" + (Print(t) + ")")
  }

  function Print(t: Tree): string
    decreases t, 0
  {
    match t
    case Simple(words) => Join(words)
    case Redirect(d, file, input) => Block(d) + ((if input then "<" else ">") + file)
    case Pipeline(l, r) => Block(l) + ("|" + Block(r))
    case Sequence(l, r) => Block(l) + (";" + Block(r))
    case Background(d) => Block(d) + "&"
  }

  /** The command holds this tree, each word being the characters of the line
      between its two ends. */
  ghost predicate Spells(b: string, c: Cmd, t: Tree) {
    match (c, t)
    case (Exec(argv), Simple(words)) => AllText(b, argv, words)
    case (Redir(d, f, mode, fd), Redirect(sub, file, input)) =>
      && Spells(b, d, sub) && Text(b, f, file)
      && mode == (if input then O_RDONLY else O_WRONLY + O_CREATE) && fd == (if input then 0 else 1)
    case (Piped(l, r), Pipeline(left, right)) => Spells(b, l, left) && Spells(b, r, right)
    case (List(l, r), Sequence(left, right)) => Spells(b, l, left) && Spells(b, r, right)
    case (Back(d), Background(sub)) => Spells(b, d, sub)
    case _ => false
  }

  predicate Text(b: string, w: Word, x: string) {
    w.q <= w.eq <= |b| && b[w.q..w.eq] == x
  }

  predicate AllText(b: string, argv: seq<Word>, words: seq<string>) {
    |argv| == |words| && forall k :: 0 <= k < |argv| ==> Text(b, argv[k], words[k])
  }

  // ---- reading what was printed

  predicate Reads(b: string, s: nat, x: string) {
    s + |x| <= |b| && b[s..s + |x|] == x
  }

  lemma ReadsParts(b: string, s: nat, x: string, y: string)
    requires Reads(b, s, x + y)
    ensures Reads(b, s, x) && Reads(b, s + |x|, y)
  {
    assert b[s..s + |x|] == b[s..s + |x + y|][..|x|] == x;
    assert b[s + |x|..s + |x| + |y|] == b[s..s + |x + y|][|x|..] == y;
  }

  lemma ReadsNone(b: string, s: nat)
    requires s <= |b|
    ensures Reads(b, s, "")
  {
  }

  lemma ReadsChar(b: string, s: nat, x: string)
    requires Reads(b, s, x) && x != ""
    ensures At(b, s) == x[0]
  {
    assert b[s] == b[s..s + |x|][0];
  }

  /** A word ends where the text printed for it does. */
  lemma WordRead(b: string, s: nat, w: string)
    requires NUL !in b && Reads(b, s, w) && WordText(w) && (s + |w| == |b| || !Plain(b[s + |w|]))
    ensures WordEnd(b, s) == s + |w| && Skip(b, s) == s
    ensures NextToken(b, s) == Token('a', s, s + |w|, Skip(b, s + |w|)) && Text(b, Word(s, s + |w|), w)
  {
    var r := WordEnd(b, s);
    assert forall k :: 0 <= k < |w| ==> w[k] == b[s..s + |w|][k] == b[s + k];
    assert Plain(b[s]) by { assert b[s] == w[0]; }
  }

  /** The end of a printed part: the end of the line or a closing parenthesis. */
  predicate Closed(b: string, e: nat) {
    e == |b| || (e < |b| && b[e] == ')')
  }

  /** One round of the loop of parseexec: a word, and no redirection after it. */
  lemma ArgStep(b: string, s: nat, w: string, next: nat, argv: seq<Word>)
    requires NUL !in b && Reads(b, s, w) && WordText(w) && (s + |w| == |b| || !Plain(b[s + |w|]))
    requires next == Skip(b, s + |w|) && At(b, next) != '<' && At(b, next) != '>' && |argv| + 1 < MAXARGS
    requires Skip(b, next) == next
    ensures next <= |b|
    ensures Args(b, s, Exec(argv), |argv|) == Args(b, next, Exec(argv + [Word(s, s + |w|)]), |argv| + 1)
  {
    hide Reads, WordEnd, Text, NextToken, Redirs, AddArg, Skip, TokensOk, TokenOk, Plain, Space, Symbol, Ends,
         WordText, At;
    WordRead(b, s, w);
    PlainStart(b, s, w);
    AddArgExec(argv, Word(s, s + |w|));
    RedirsNone(b, next, Exec(argv + [Word(s, s + |w|)]));
  }

  lemma AddArgExec(argv: seq<Word>, w: Word)
    ensures AddArg(Exec(argv), w) == Exec(argv + [w])
  {
  }

  lemma RedirsNone(b: string, s: nat, c: Cmd)
    requires NUL !in b && s <= |b| && At(b, s) != '<' && At(b, s) != '>' && Skip(b, s) == s
    ensures Redirs(b, s, c) == Parsed(c, s)
  {
  }

  lemma PlainStart(b: string, s: nat, w: string)
    requires Reads(b, s, w) && WordText(w)
    ensures Plain(At(b, s)) && At(b, s) != NUL && !Ends(At(b, s))
  {
    ReadsChar(b, s, w);
  }

  /** After a word that is not the last comes a space, and then the next word. */
  lemma WordGap(b: string, s: nat, words: seq<string>)
    requires |words| > 1 && Reads(b, s, Join(words)) && WordText(words[0]) && WordText(words[1])
    ensures var e := s + |words[0]|;
            Reads(b, s, words[0]) && e + 1 <= |b| && b[e] == ' ' && Reads(b, e + 1, Join(words[1..]))
            && Skip(b, e) == e + 1 && Plain(At(b, e + 1))
  {
    var w := words[0];
    ReadsParts(b, s, w, " " + Join(words[1..]));
    ReadsParts(b, s + |w|, " ", Join(words[1..]));
    ReadsChar(b, s + |w|, " ");
    JoinStarts(words[1..]);
    ReadsChar(b, s + |w| + 1, Join(words[1..]));
  }

  /** The words of a simple command, from the k-th on. */
  lemma {:induction false} ArgsSpell(b: string, s: nat, words: seq<string>, argv: seq<Word>) returns (all: seq<Word>)
    requires NUL !in b && s <= |b| && |argv| <= |words| < MAXARGS && AllText(b, argv, words[..|argv|])
    requires (forall k :: 0 <= k < |words| ==> WordText(words[k])) && Reads(b, s, Join(words[|argv|..]))
    requires Closed(b, s + |Join(words[|argv|..])|)
    ensures AllText(b, all, words)
    ensures Args(b, s, Exec(argv), |argv|) == Parsed(Exec(all), s + |Join(words[|argv|..])|)
    decreases |words| - |argv|
  {
    hide Reads, WordEnd, Skip, Redirs, AddArg, Text, Args;
    var k := |argv|;
    var rest := words[k..];
    if rest == [] {
      assert words[..k] == words;
      LastArg(b, s, argv);
      return argv;
    }
    var w := rest[0];
    assert WordText(w) && w == words[k];
    var next := s + |w|;
    if |rest| > 1 {
      assert WordText(rest[1]) by { assert rest[1] == words[k + 1]; }
      WordGap(b, s, rest);
      next := next + 1;
    } else {
      SkipClosed(b, next);
      ReadsNone(b, next);
    }
    WordRead(b, s, w);
    ArgStep(b, s, w, next, argv);
    var more := argv + [Word(s, s + |w|)];
    assert words[|more|..] == rest[1..];
    assert words[..|more|] == words[..k] + [w];
    all := ArgsSpell(b, next, words, more);
  }

  lemma LastArg(b: string, s: nat, argv: seq<Word>)
    requires NUL !in b && Closed(b, s)
    ensures Args(b, s, Exec(argv), |argv|) == Parsed(Exec(argv), s)
  {
  }

  lemma SkipClosed(b: string, s: nat)
    requires Closed(b, s)
    ensures Skip(b, s) == s && At(b, s) != '<' && At(b, s) != '>' && (s < |b| ==> !Plain(b[s]))
  {
  }

  lemma JoinStarts(words: seq<string>)
    requires words != [] && words[0] != ""
    ensures Join(words) != "" && Join(words)[0] == words[0][0]
  {
  }

  /** A symbol that is not followed by one that joins it, and then no space. */
  lemma SymbolRead(b: string, s: nat)
    requires NUL !in b && s < |b| && Symbol(b[s]) && (b[s] == '>' ==> At(b, s + 1) != '>')
    requires s + 1 == |b| || !Space(b[s + 1])
    ensures Skip(b, s) == s && Skip(b, s + 1) == s + 1 && NextToken(b, s) == Token(b[s], s, s + 1, s + 1)
  {
  }

  /** Nothing continues a line at the end or at a closing parenthesis. */
  lemma LineEnds(b: string, s: nat, c: Cmd, e: nat)
    requires NUL !in b && s <= |b| && Closed(b, e) && ParseExec(b, s) == Parsed(c, e)
    ensures ParsePipe(b, s) == Parsed(c, e) && ParseLine(b, s) == Parsed(c, e)
  {
    hide ParseExec, Skip, NextToken, TokensOk;
    SkipClosed(b, e);
    PipeEnds(b, s, c, e);
    assert Backs(b, e, c) == Parsed(c, e);
  }

  lemma PipeEnds(b: string, s: nat, c: Cmd, e: nat)
    requires NUL !in b && s <= |b| && e <= |b| && Skip(b, e) == e && At(b, e) != '|' && ParseExec(b, s) == Parsed(c, e)
    ensures ParsePipe(b, s) == Parsed(c, e)
  {
    hide ParseExec, Skip, NextToken, TokensOk;
  }

  /** A part in parentheses: the tree inside, then redirections. */
  lemma BlockSpells(b: string, s: nat, t: Tree) returns (c: Cmd)
    requires NUL !in b && Reads(b, s, Block(t)) && Printable(t)
    requires s + |Block(t)| == |b| || !Space(b[s + |Block(t)|])
    ensures Spells(b, c, t) && ParseExec(b, s) == Redirs(b, s + |Block(t)|, c)
    decreases t, 3
  {
    hide Reads, Skip, NextToken, TokensOk, ParseLine, Redirs, Printable, Spells;
    ReadsParts(b, s, "(", Print(t) + ")");
    ReadsParts(b, s + 1, Print(t), ")");
    ReadsChar(b, s, "(");
    ReadsChar(b, s + 1 + |Print(t)|, ")");
    NoSpaceFirst(b, s + 1, t);
    SymbolRead(b, s);
    c := TreeSpells(b, s + 1, t);
    SymbolRead(b, s + 1 + |Print(t)|);
  }

  lemma PrintStarts(t: Tree)
    requires Printable(t)
    ensures !Space((Print(t) + ")")[0])
  {
    if t.Simple? && t.words != [] {
      JoinStarts(t.words);
      assert (Print(t) + ")")[0] == t.words[0][0];
    } else {
      assert (Print(t) + ")")[0] == if t.Simple? then ')' else '(';
    }
  }

  /** No printing begins with a space. */
  lemma NoSpaceFirst(b: string, s: nat, t: Tree)
    requires Printable(t) && Reads(b, s, Print(t) + ")")
    ensures s < |b| && !Space(b[s])
  {
    PrintStarts(t);
    ReadsChar(b, s, Print(t) + ")");
  }

  /** The main induction: a printed tree, followed by the end of the line or a
      closing parenthesis, parses to that tree. */
  lemma {:induction false} TreeSpells(b: string, s: nat, t: Tree) returns (c: Cmd)
    requires NUL !in b && Reads(b, s, Print(t)) && Printable(t) && Closed(b, s + |Print(t)|)
    ensures Spells(b, c, t) && s <= |b| && ParseLine(b, s) == Parsed(c, s + |Print(t)|)
    decreases t, 2
  {
    hide Reads, ParseLine, Print, Printable, Spells, Closed;
    match t {
      case Simple(_) => c := SimpleTree(b, s, t);
      case Redirect(_, _, _) => c := RedirectTree(b, s, t);
      case Pipeline(_, _) => c := PairTree(b, s, t);
      case Sequence(_, _) => c := PairTree(b, s, t);
      case Background(_) => c := BackgroundTree(b, s, t);
    }
  }

  lemma SimpleTree(b: string, s: nat, t: Tree) returns (c: Cmd)
    requires NUL !in b && Reads(b, s, Print(t)) && Printable(t) && Closed(b, s + |Print(t)|) && t.Simple?
    ensures Spells(b, c, t) && s <= |b| && ParseLine(b, s) == Parsed(c, s + |Print(t)|)
  {
    hide Reads, Skip, ParseLine;
    c := SimpleSpells(b, s, t.words);
  }

  lemma {:induction false} RedirectTree(b: string, s: nat, t: Tree) returns (c: Cmd)
    requires NUL !in b && Reads(b, s, Print(t)) && Printable(t) && Closed(b, s + |Print(t)|) && t.Redirect?
    ensures Spells(b, c, t) && s <= |b| && ParseLine(b, s) == Parsed(c, s + |Print(t)|)
    decreases t, 1
  {
    hide Reads, Skip, NextToken, TokensOk, ParseLine, ParsePipe, ParseExec, Redirs, Args, Backs;
    RedirectParts(b, s, t);
    var inner := BlockSpells(b, s, t.sub);
    c := RedirectSpells(b, s, s + |Block(t.sub)|, inner, t.file, t.input);
  }

  lemma {:induction false} PairTree(b: string, s: nat, t: Tree) returns (c: Cmd)
    requires NUL !in b && Reads(b, s, Print(t)) && Printable(t) && Closed(b, s + |Print(t)|)
    requires (t.Pipeline? || t.Sequence?)
    ensures Spells(b, c, t) && s <= |b| && ParseLine(b, s) == Parsed(c, s + |Print(t)|)
    decreases t, 1
  {
    hide Reads, Skip, NextToken, TokensOk, ParseLine, ParsePipe, ParseExec, Redirs, Args, Backs;
    var left, right := PairSpells(b, s, t, t.left, if t.Pipeline? then "|" else ";", t.right);
    if t.Pipeline? {
      c := Piped(left, right);
      PipelineJoins(b, s, s + |Block(t.left)|, s + |Print(t)|, left, right);
    } else {
      c := List(left, right);
      SequenceJoins(b, s, s + |Block(t.left)|, s + |Print(t)|, left, right);
    }
  }

  lemma {:induction false} BackgroundTree(b: string, s: nat, t: Tree) returns (c: Cmd)
    requires NUL !in b && Reads(b, s, Print(t)) && Printable(t) && Closed(b, s + |Print(t)|) && t.Background?
    ensures Spells(b, c, t) && s <= |b| && ParseLine(b, s) == Parsed(c, s + |Print(t)|)
    decreases t, 1
  {
    hide Reads, Skip, NextToken, TokensOk, ParseLine, ParsePipe, ParseExec, Redirs, Args, Backs;
    ReadsParts(b, s, Block(t.sub), "&");
    ReadsChar(b, s + |Block(t.sub)|, "&");
    var inner := BlockSpells(b, s, t.sub);
    c := Back(inner);
    BackgroundJoins(b, s, s + |Block(t.sub)|, inner);
  }

  /** Two parts joined by a sign. */
  lemma {:induction false} PairSpells(b: string, s: nat, t: Tree, l: Tree, sign: string, r: Tree)
      returns (left: Cmd, right: Cmd)
    requires l < t && r < t && Printable(l) && Printable(r) && (sign == "|" || sign == ";")
    requires NUL !in b && Reads(b, s, Block(l) + (sign + Block(r))) && Closed(b, s + |Block(l)| + 1 + |Block(r)|)
    ensures Spells(b, left, l) && Spells(b, right, r)
    ensures var e := s + |Block(l)|;
            && e + 1 < |b| && b[e] == sign[0] && b[e + 1] == '('
            && ParseExec(b, s) == Redirs(b, e, left) && ParseExec(b, e + 1) == Redirs(b, e + 1 + |Block(r)|, right)
    decreases t, 0
  {
    hide Reads, Skip, NextToken, TokensOk, ParseExec, Redirs, Printable, Spells;
    PairParts(b, s, l, sign, r);
    left := BlockSpells(b, s, l);
    right := BlockSpells(b, s + |Block(l)| + 1, r);
  }

  lemma SimpleSpells(b: string, s: nat, words: seq<string>) returns (c: Cmd)
    requires NUL !in b && Reads(b, s, Join(words)) && Printable(Simple(words)) && Closed(b, s + |Join(words)|)
    ensures Spells(b, c, Simple(words)) && s <= |b| && ParseLine(b, s) == Parsed(c, s + |Join(words)|)
  {
    hide Skip, NextToken, TokensOk, ParseLine, ParsePipe, Args, Text, Reads, Redirs;
    assert words[0..] == words;
    var all := ArgsSpell(b, s, words, []);
    SimpleStart(b, s, words);
    RedirsNone(b, s, Exec([]));
    c := Exec(all);
    LineEnds(b, s, c, s + |Join(words)|);
  }

  lemma SimpleStart(b: string, s: nat, words: seq<string>)
    requires NUL !in b && Reads(b, s, Join(words)) && Printable(Simple(words)) && Closed(b, s + |Join(words)|)
    ensures Skip(b, s) == s && At(b, s) != '(' && At(b, s) != '<' && At(b, s) != '>'
  {
    if words != [] {
      JoinStarts(words);
      ReadsChar(b, s, Join(words));
    }
  }

  lemma RedirectParts(b: string, s: nat, t: Tree)
    requires Reads(b, s, Print(t)) && t.Redirect? && Printable(t)
    ensures var e := s + |Block(t.sub)|;
            Reads(b, s, Block(t.sub)) && e < |b| && b[e] == (if t.input then '<' else '>') && Reads(b, e + 1, t.file)
            && e + 1 + |t.file| == s + |Print(t)|
  {
    var sign := if t.input then "<" else ">";
    ReadsParts(b, s, Block(t.sub), sign + t.file);
    ReadsParts(b, s + |Block(t.sub)|, sign, t.file);
    ReadsChar(b, s + |Block(t.sub)|, sign);
  }

  lemma RedirectSpells(b: string, s: nat, e: nat, inner: Cmd, file: string, input: bool) returns (c: Cmd)
    requires NUL !in b && s <= e < |b| && b[e] == (if input then '<' else '>') && Reads(b, e + 1, file)
    requires WordText(file)
    requires Closed(b, e + 1 + |file|) && ParseExec(b, s) == Redirs(b, e, inner)
    ensures c == Redir(inner, Word(e + 1, e + 1 + |file|), if input then O_RDONLY else O_WRONLY + O_CREATE,
                       if input then 0 else 1)
    ensures Text(b, c.file, file) && ParseLine(b, s) == Parsed(c, e + 1 + |file|)
  {
    hide Skip, NextToken, TokensOk, ParseLine, ParsePipe, ParseExec, Reads, WordEnd;
    var f := e + 1 + |file|;
    SkipClosed(b, f);
    PlainStart(b, e + 1, file);
    SymbolRead(b, e);
    WordRead(b, e + 1, file);
    c := Redirected(inner, b[e], Word(e + 1, f));
    RedirsNone(b, f, c);
    LineEnds(b, s, c, f);
  }

  lemma PairParts(b: string, s: nat, l: Tree, sign: string, r: Tree)
    requires |sign| == 1 && Reads(b, s, Block(l) + (sign + Block(r)))
    ensures var e := s + |Block(l)|;
            Reads(b, s, Block(l)) && e + 1 < |b| && b[e] == sign[0] && b[e + 1] == '(' && Reads(b, e + 1, Block(r))
  {
    ReadsParts(b, s, Block(l), sign + Block(r));
    ReadsParts(b, s + |Block(l)|, sign, Block(r));
    ReadsChar(b, s + |Block(l)|, sign);
    ReadsChar(b, s + |Block(l)| + 1, Block(r));
  }

  lemma PipelineJoins(b: string, s: nat, e: nat, f: nat, left: Cmd, right: Cmd)
    requires NUL !in b && s <= e && e + 1 < |b| && b[e] == '|' && b[e + 1] == '(' && Closed(b, f)
    requires ParseExec(b, s) == Redirs(b, e, left) && ParseExec(b, e + 1) == Redirs(b, f, right)
    ensures ParseLine(b, s) == Parsed(Piped(left, right), f)
  {
    hide Skip, NextToken, TokensOk, ParseExec, Redirs;
    SymbolRead(b, e);
    SkipClosed(b, f);
    RedirsNone(b, e, left);
    RedirsNone(b, f, right);
    PipeEnds(b, e + 1, right, f);
    assert ParsePipe(b, s) == Parsed(Piped(left, right), f);
    assert Backs(b, f, Piped(left, right)) == Parsed(Piped(left, right), f);
  }

  lemma SequenceJoins(b: string, s: nat, e: nat, f: nat, left: Cmd, right: Cmd)
    requires NUL !in b && s <= e && e + 1 < |b| && b[e] == ';' && b[e + 1] == '(' && Closed(b, f)
    requires ParseExec(b, s) == Redirs(b, e, left) && ParseExec(b, e + 1) == Redirs(b, f, right)
    ensures ParseLine(b, s) == Parsed(List(left, right), f)
  {
    hide Skip, NextToken, TokensOk, ParseExec, Redirs;
    SymbolRead(b, e);
    SkipClosed(b, f);
    RedirsNone(b, e, left);
    RedirsNone(b, f, right);
    PipeEnds(b, s, left, e);
    LineEnds(b, e + 1, right, f);
    assert Backs(b, e, left) == Parsed(left, e);
  }

  lemma BackgroundJoins(b: string, s: nat, e: nat, inner: Cmd)
    requires NUL !in b && s <= e < |b| && b[e] == '&' && Closed(b, e + 1) && ParseExec(b, s) == Redirs(b, e, inner)
    ensures ParseLine(b, s) == Parsed(Back(inner), e + 1)
  {
    hide Skip, NextToken, TokensOk, ParseExec, Redirs;
    SkipClosed(b, e + 1);
    SymbolRead(b, e);
    RedirsNone(b, e, inner);
    PipeEnds(b, s, inner, e);
    assert Backs(b, e + 1, Back(inner)) == Parsed(Back(inner), e + 1);
    assert Backs(b, e, inner) == Parsed(Back(inner), e + 1);
  }

  lemma {:induction false} PrintClean(t: Tree)
    requires Printable(t)
    ensures NUL !in Print(t)
  {
    match t {
      case Simple(words) => JoinClean(words);
      case Redirect(d, _, _) => PrintClean(d);
      case Pipeline(l, r) => PrintClean(l); PrintClean(r);
      case Sequence(l, r) => PrintClean(l); PrintClean(r);
      case Background(d) => PrintClean(d);
    }
  }

  lemma {:induction false} JoinClean(words: seq<string>)
    requires forall k :: 0 <= k < |words| ==> WordText(words[k])
    ensures NUL !in Join(words)
  {
    if |words| > 1 { JoinClean(words[1..]); }
  }

  /** Parsing the printing of a command tree gives that tree. */
  lemma RoundTrip(t: Tree)
    requires Printable(t)
    ensures NUL !in Print(t)
    ensures ParseCmd(Print(t)).Parsed? && Spells(Print(t), ParseCmd(Print(t)).cmd, t)
  {
    hide Printable, Spells, ParseLine;
    PrintClean(t);
    var b := Print(t);
    assert b[0..0 + |b|] == b;
    var c := TreeSpells(b, 0, t);
  }
}
