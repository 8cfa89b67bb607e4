/** How tightly the shell's operators bind: commands printed with parentheses only
    where precedence needs them, or where the writer puts them, and parsed back. */
module ShellPrecedence {
  import opened ShellRoundTrip
  import opened ShellSyntax

  datatype Sign = In | Out | Append

  /** A word or a redirection of a simple command. */
  datatype Piece = Arg(text: string) | File(sign: Sign, text: string)

  /** A simple command with its words and redirections in any order, parentheses
      with redirections behind them, and the three operators. */
  datatype Phrase =
    | Command(pieces: seq<Piece>)
    | Group(sub: Phrase, files: seq<Piece>)
    | Chain(left: Phrase, right: Phrase)
    | Detached(sub: Phrase)
    | Series(left: Phrase, right: Phrase)

  /** How tightly a phrase binds: `;` least, then `&`, then `|`. */
  function Level(t: Phrase): nat {
    match t
    case Series(_, _) => 0
    case Detached(_) => 1
    case Chain(_, _) => 2
    case _ => 3
  }

  function Words(ps: seq<Piece>): (r: seq<string>) {
    if ps == [] then [] else Words(ps[..|ps| - 1]) + if ps[|ps| - 1].Arg? then [ps[|ps| - 1].text] else []
  }

  function Files(ps: seq<Piece>): (r: seq<Piece>)
    ensures forall k :: 0 <= k < |r| ==> r[k].File?
  {
    if ps == [] then [] else Files(ps[..|ps| - 1]) + if ps[|ps| - 1].Arg? then [] else [ps[|ps| - 1]]
  }

  /** Words that can be words, at most nine a command, and nothing but
      redirections behind parentheses. */
  predicate Sayable(t: Phrase) {
    match t
    case Command(ps) => Writable(ps) && |Words(ps)| < MAXARGS
    case Group(d, files) => Sayable(d) && Writable(files) && forall k :: 0 <= k < |files| ==> files[k].File?
    case Chain(l, r) => Sayable(l) && Sayable(r)
    case Detached(d) => Sayable(d)
    case Series(l, r) => Sayable(l) && Sayable(r)
  }

  predicate Writable(ps: seq<Piece>) {
    forall k :: 0 <= k < |ps| ==> WordText(ps[k].text)
  }

  // ---- printing

  function SignText(sign: Sign): (r: string)
    ensures r != "" && Symbol(r[0])
  {
    match sign
    case In => "<"
    case Out => ">"
    case Append => ">>"
  }

  function PieceText(p: Piece): string {
    match p
    case Arg(text) => text
    case File(sign, text) => SignText(sign) + text
  }

  function Line(ps: seq<Piece>): string {
    if |ps| == 0 then "" else if |ps| == 1 then PieceText(ps[0]) else PieceText(ps[0]) + (" " + Line(ps[1..]))
  }

  function Behind(files: seq<Piece>): string {
    if files == [] then "" else " " + Line(files)
  }

  /** A phrase where one that binds at least as tightly as `level` is wanted. */
  function Show(t: Phrase, level: nat): string
    decreases t, 1
  {
    if Level(t) >= level then Bare(t) else "(" + (Bare(t) + ")")
  }

  function Bare(t: Phrase): string
    decreases t, 0
  {
    match t
    case Command(ps) => Line(ps)
    case Group(d, files) => "(" + (Bare(d) + ")") + Behind(files)
    case Chain(l, r) => Show(l, 3) + (" | " + Show(r, 2))
    case Detached(d) => Show(d, 1) + " &"
    case Series(l, r) => Show(l, 1) + (" ; " + Show(r, 0))
  }

  // ---- what the command must hold

  /** The command under n redirections. */
  function Core(c: Cmd, n: nat): Cmd {
    if n == 0 || !c.Redir? then c else Core(c.cmd, n - 1)
  }

  /** The outermost redirections are these, the last one outermost; `>>` opens its
      file just as `>` does. */
  ghost predicate Opens(b: string, c: Cmd, files: seq<Piece>)
    requires forall k :: 0 <= k < |files| ==> files[k].File?
    decreases |files|
  {
    files != [] ==>
      var last := files[|files| - 1];
      && c.Redir? && Text(b, c.file, last.text)
      && (last.sign == In ==> c.mode == O_RDONLY && c.fd == 0)
      && (last.sign != In ==> c.mode == O_WRONLY + O_CREATE && c.fd == 1)
      && Opens(b, c.cmd, files[..|files| - 1])
  }

  /** The command runs these words under these redirections. */
  ghost predicate Runs(b: string, c: Cmd, ps: seq<Piece>) {
    && Opens(b, c, Files(ps)) && Core(c, |Files(ps)|).Exec?
    && AllText(b, Core(c, |Files(ps)|).argv, Words(ps))
  }

  ghost predicate Holds(b: string, c: Cmd, t: Phrase)
    decreases t
  {
    match t
    case Command(ps) => Runs(b, c, ps)
    case Group(d, files) =>
      (forall k :: 0 <= k < |files| ==> files[k].File?) && Opens(b, c, files) && Holds(b, Core(c, |files|), d)
    case Chain(l, r) => c.Piped? && Holds(b, c.left, l) && Holds(b, c.right, r)
    case Detached(d) => c.Back? && Holds(b, c.cmd, d)
    case Series(l, r) => c.List? && Holds(b, c.left, l) && Holds(b, c.right, r)
  }

  // ---- spaces

  lemma SkipTwice(b: string, s: nat)
    requires s <= |b|
    ensures Skip(b, Skip(b, s)) == Skip(b, s)
  {
  }

  lemma ExecSkips(b: string, s: nat)
    requires s <= |b| && NUL !in b
    ensures ParseExec(b, Skip(b, s)) == ParseExec(b, s)
  {
    hide NextToken, TokensOk, ParseLine, Redirs, Args;
    SkipTwice(b, s);
  }

  lemma PipeSkips(b: string, s: nat)
    requires s <= |b| && NUL !in b
    ensures ParsePipe(b, Skip(b, s)) == ParsePipe(b, s)
  {
    hide ParseExec, NextToken, TokensOk, Skip;
    ExecSkips(b, s);
  }

  lemma LineSkips(b: string, s: nat)
    requires s <= |b| && NUL !in b
    ensures ParseLine(b, Skip(b, s)) == ParseLine(b, s)
  {
    hide ParsePipe, NextToken, TokensOk, Skip, Backs;
    PipeSkips(b, s);
  }

  lemma RedirsSkips(b: string, s: nat, c: Cmd)
    requires s <= |b| && NUL !in b
    ensures Redirs(b, Skip(b, s), c) == Redirs(b, s, c)
  {
    hide NextToken, TokensOk;
    SkipTwice(b, s);
  }

  /** After e come spaces, and then the end of the line or one of these signs. */
  predicate Before(b: string, e: nat, signs: string) {
    e <= |b| && (Skip(b, e) == |b| || b[Skip(b, e)] in signs)
  }

  predicate Stops(signs: string) {
    forall c :: c in signs ==> Ends(c)
  }

  lemma Ended(b: string, e: nat, signs: string)
    requires Before(b, e, signs) && Stops(signs)
    ensures e == |b| || !Plain(b[e])
    ensures At(b, Skip(b, e)) == NUL || (Ends(At(b, Skip(b, e))) && At(b, Skip(b, e)) in signs)
  {
  }

  // ---- simple commands

  /** parseexec from some point on: the redirections there, and then its loop. */
  function Rest(b: string, s: nat, cmd: Cmd, argc: nat): Parse
    requires s <= |b| && NUL !in b
  {
    match Redirs(b, s, cmd)
    case Parsed(more, s2) => Args(b, s2, more, argc)
    case Panic(m) => Panic(m)
  }

  lemma FileStep(b: string, s: nat, p: Piece, cmd: Cmd) returns (c: Cmd)
    requires NUL !in b && p.File? && WordText(p.text) && Reads(b, s, PieceText(p))
    requires var e := s + |PieceText(p)|; e == |b| || !Plain(b[e])
    ensures s + |PieceText(p)| <= |b| && Redirs(b, s, cmd) == Redirs(b, s + |PieceText(p)|, c)
    ensures c.Redir? && c.cmd == cmd && Opens(b, c, [p])
  {
    hide Reads, WordEnd, TokensOk, WordText, TokenOk, NextToken, Skip, Plain, Text, SignText, Redirs, At;
    var e, sign := s + |PieceText(p)|, SignText(p.sign);
    var f := s + |sign|;
    ReadsParts(b, s, sign, p.text);
    ReadsChar(b, s, sign);
    PlainStart(b, f, p.text);
    WordRead(b, f, p.text);
    SignRead(b, s, p.sign);
    c := Redirected(cmd, NextToken(b, s).kind, Word(f, e));
    RedirsOnce(b, s, cmd);
    RedirsSkips(b, e, c);
  }

  lemma RedirsOnce(b: string, s: nat, cmd: Cmd)
    requires NUL !in b && s <= |b| && Skip(b, s) == s && (At(b, s) == '<' || At(b, s) == '>')
    requires NextToken(b, NextToken(b, s).next).kind == 'a'
    ensures var f := NextToken(b, NextToken(b, s).next);
            Redirs(b, s, cmd) == Redirs(b, f.next, Redirected(cmd, NextToken(b, s).kind, Word(f.q, f.eq)))
  {
    hide NextToken, TokensOk, Skip, Redirected, At;
  }

  lemma SignRead(b: string, s: nat, sign: Sign)
    requires NUL !in b && Reads(b, s, SignText(sign)) && Plain(At(b, s + |SignText(sign)|))
    ensures Skip(b, s) == s && (At(b, s) == '<' || At(b, s) == '>')
    ensures var t := NextToken(b, s); t.next == s + |SignText(sign)| && (t.kind == '<' <==> sign == In)
  {
    var x := SignText(sign);
    assert forall k :: 0 <= k < |x| ==> x[k] == b[s..s + |x|][k] == b[s + k];
  }

  lemma ArgRest(b: string, s: nat, w: string, cmd: Cmd, argc: nat)
    requires NUL !in b && WordText(w) && Reads(b, s, w) && argc + 1 < MAXARGS
    requires var e := s + |w|; e == |b| || !Plain(b[e])
    ensures s + |w| <= |b| && Rest(b, s, cmd, argc) == Rest(b, s + |w|, AddArg(cmd, Word(s, s + |w|)), argc + 1)
    ensures Text(b, Word(s, s + |w|), w)
  {
    hide WordEnd, TokensOk, WordText, AddArg, TokenOk, NextToken;
    var more := AddArg(cmd, Word(s, s + |w|));
    PlainStart(b, s, w);
    WordRead(b, s, w);
    RedirsNone(b, s, cmd);
    RedirsSkips(b, s + |w|, more);
  }

  lemma RestEnds(b: string, s: nat, cmd: Cmd, argc: nat, signs: string)
    requires NUL !in b && Before(b, s, signs) && Stops(signs)
    ensures Rest(b, s, cmd, argc) == Parsed(cmd, Skip(b, s)) && Redirs(b, s, cmd) == Parsed(cmd, Skip(b, s))
  {
    hide TokensOk, WordEnd;
    Ended(b, s, signs);
    SkipTwice(b, s);
  }

  /** A further word goes to the command under the redirections. */
  lemma {:induction false} AddArgRuns(b: string, c: Cmd, files: seq<Piece>, w: Word)
    requires forall k :: 0 <= k < |files| ==> files[k].File?
    requires Opens(b, c, files) && Core(c, |files|).Exec?
    ensures Opens(b, AddArg(c, w), files)
    ensures Core(AddArg(c, w), |files|) == Exec(Core(c, |files|).argv + [w])
    decreases |files|
  {
    hide Text;
    if files != [] { AddArgRuns(b, c.cmd, files[..|files| - 1], w); }
  }

  lemma RunsArg(b: string, c: Cmd, ps: seq<Piece>, p: Piece, w: Word)
    requires Runs(b, c, ps) && p.Arg? && Text(b, w, p.text)
    ensures Runs(b, AddArg(c, w), ps + [p]) && Words(ps + [p]) == Words(ps) + [p.text]
  {
    hide Text, AddArg, Opens, Core;
    assert (ps + [p])[..|ps|] == ps;
    assert Files(ps + [p]) == Files(ps);
    AddArgRuns(b, c, Files(ps), w);
  }

  lemma OpensMore(b: string, c: Cmd, files: seq<Piece>, p: Piece)
    requires (forall k :: 0 <= k < |files| ==> files[k].File?) && p.File?
    requires c.Redir? && Opens(b, c, [p]) && Opens(b, c.cmd, files)
    ensures Opens(b, c, files + [p]) && Core(c, |files| + 1) == Core(c.cmd, |files|)
  {
    hide Text;
    assert (files + [p])[..|files|] == files;
  }

  lemma RunsFile(b: string, c: Cmd, ps: seq<Piece>, p: Piece)
    requires p.File? && c.Redir? && Opens(b, c, [p]) && Runs(b, c.cmd, ps)
    ensures Runs(b, c, ps + [p]) && Words(ps + [p]) == Words(ps)
  {
    hide Text, Opens, Core;
    assert (ps + [p])[..|ps|] == ps;
    assert Files(ps + [p]) == Files(ps) + [p];
    OpensMore(b, c, Files(ps), p);
  }

  lemma SpaceNotPlain()
    ensures !Plain(' ')
  {
  }

  /** Where the next piece begins, and that this one has ended. */
  lemma PieceGap(b: string, s: nat, ps: seq<Piece>, signs: string)
    requires ps != [] && Writable(ps) && Reads(b, s, Line(ps)) && Before(b, s + |Line(ps)|, signs) && Stops(signs)
    ensures var e := s + |PieceText(ps[0])|;
            && Reads(b, s, PieceText(ps[0])) && e <= |b| && (e == |b| || !Plain(b[e]))
            && (|ps| > 1 ==> e < |b| && b[e] == ' ' && Reads(b, e + 1, Line(ps[1..]))
                             && e + 1 + |Line(ps[1..])| == s + |Line(ps)|)
            && (|ps| == 1 ==> e == s + |Line(ps)|)
  {
    hide Reads, Skip, Plain, Before, PieceText, WordText;
    var x := PieceText(ps[0]);
    if |ps| > 1 {
      ReadsParts(b, s, x, " " + Line(ps[1..]));
      ReadsParts(b, s + |x|, " ", Line(ps[1..]));
      ReadsChar(b, s + |x|, " ");
      SpaceNotPlain();
    } else {
      Ended(b, s + |Line(ps)|, signs);
    }
  }

  lemma {:induction false} WordsGrow(done: seq<Piece>, rest: seq<Piece>)
    ensures |Words(done)| <= |Words(done + rest)|
    decreases |rest|
  {
    if rest == [] {
      assert done + rest == done;
    } else {
      var k := |rest| - 1;
      assert (done + rest)[..|done + rest| - 1] == done + rest[..k];
      WordsGrow(done, rest[..k]);
    }
  }

  /** The position after a piece: past the space if another one follows. */
  lemma RestMoves(b: string, e: nat, cmd: Cmd, argc: nat)
    requires NUL !in b && e < |b| && b[e] == ' '
    ensures Rest(b, e, cmd, argc) == Rest(b, e + 1, cmd, argc) && Redirs(b, e, cmd) == Redirs(b, e + 1, cmd)
  {
    hide Redirs, Args, TokensOk;
    RedirsSkips(b, e, cmd);
    RedirsSkips(b, e + 1, cmd);
  }

  /** Words and redirections in any order: the words come back in order under the
      redirections in order. */
  lemma {:induction false} PiecesSpell(b: string, s: nat, done: seq<Piece>, ps: seq<Piece>, cmd: Cmd, signs: string)
      returns (c: Cmd)
    requires NUL !in b && Writable(ps) && Reads(b, s, Line(ps)) && Runs(b, cmd, done) && |Words(done + ps)| < MAXARGS
    requires Before(b, s + |Line(ps)|, signs) && Stops(signs)
    ensures Runs(b, c, done + ps) && s <= |b|
    ensures Rest(b, s, cmd, |Words(done)|) == Parsed(c, Skip(b, s + |Line(ps)|))
    decreases |ps|
  {
    hide Reads, Skip, Plain, Before, Stops, PieceText, WordText, Rest, Runs, Words, Text, AddArg;
    if ps == [] {
      assert done + ps == done;
      RestEnds(b, s, cmd, |Words(done)|, signs);
      return cmd;
    }
    var p := ps[0];
    var e := s + |PieceText(p)|;
    PieceGap(b, s, ps, signs);
    assert done + [p] + ps[1..] == done + ps;
    WordsGrow(done + [p], ps[1..]);
    var next := PieceSpells(b, s, done, p, cmd);
    if |ps| > 1 { RestMoves(b, e, next, |Words(done + [p])|); } else { ReadsNone(b, e); }
    c := PiecesSpell(b, if |ps| > 1 then e + 1 else e, done + [p], ps[1..], next, signs);
  }

  /** A tenth word ends in a panic, wherever the redirections stand. */
  lemma {:induction false} PiecesPanic(b: string, s: nat, done: seq<Piece>, ps: seq<Piece>, cmd: Cmd, signs: string)
    requires NUL !in b && Writable(ps) && Reads(b, s, Line(ps)) && Runs(b, cmd, done)
    requires |Words(done)| < MAXARGS <= |Words(done + ps)| && Before(b, s + |Line(ps)|, signs) && Stops(signs)
    ensures s <= |b| && Rest(b, s, cmd, |Words(done)|) == Panic("too many args")
    decreases |ps|
  {
    hide Reads, Skip, Plain, Before, Stops, PieceText, WordText, Rest, Runs, Words, Text, AddArg;
    assert ps == [] ==> done + ps == done;
    if ps == [] {
      assert false;
    }
    var p := ps[0];
    var e := s + |PieceText(p)|;
    PieceGap(b, s, ps, signs);
    assert done + [p] + ps[1..] == done + ps;
    if |Words(done + [p])| >= MAXARGS {
      TenthWord(b, s, done, p, cmd);
    } else {
      var next := PieceSpells(b, s, done, p, cmd);
      if |ps| > 1 { RestMoves(b, e, next, |Words(done + [p])|); } else { ReadsNone(b, e); }
      PiecesPanic(b, if |ps| > 1 then e + 1 else e, done + [p], ps[1..], next, signs);
    }
  }

  lemma TenthWord(b: string, s: nat, done: seq<Piece>, p: Piece, cmd: Cmd)
    requires NUL !in b && WordText(p.text) && Reads(b, s, PieceText(p))
    requires var e := s + |PieceText(p)|; e <= |b| && (e == |b| || !Plain(b[e]))
    requires |Words(done)| < MAXARGS <= |Words(done + [p])|
    ensures s <= |b| && Rest(b, s, cmd, |Words(done)|) == Panic("too many args")
  {
    hide WordEnd, TokensOk, WordText, AddArg, TokenOk, NextToken, Reads;
    assert (done + [p])[..|done|] == done;
    PlainStart(b, s, p.text);
    WordRead(b, s, p.text);
    RedirsNone(b, s, cmd);
  }

  lemma PieceSpells(b: string, s: nat, done: seq<Piece>, p: Piece, cmd: Cmd) returns (c: Cmd)
    requires NUL !in b && WordText(p.text) && Reads(b, s, PieceText(p)) && Runs(b, cmd, done)
    requires var e := s + |PieceText(p)|; e <= |b| && (e == |b| || !Plain(b[e])) && |Words(done + [p])| < MAXARGS
    ensures Runs(b, c, done + [p])
    ensures s <= |b|
            && Rest(b, s, cmd, |Words(done)|) == Rest(b, s + |PieceText(p)|, c, |Words(done + [p])|)
  {
    hide Reads, Plain, WordText, Runs, Words, Text, AddArg, Opens, Redirs, Args;
    if p.Arg? {
      var w := Word(s, s + |p.text|);
      c := AddArg(cmd, w);
      assert Text(b, w, p.text) by { ArgText(b, s, p.text); }
      RunsArg(b, cmd, done, p, w);
      ArgRest(b, s, p.text, cmd, |Words(done)|);
    } else {
      c := FileStep(b, s, p, cmd);
      RunsFile(b, c, done, p);
    }
  }

  lemma ArgText(b: string, s: nat, w: string)
    requires Reads(b, s, w)
    ensures Text(b, Word(s, s + |w|), w)
  {
  }

  /** The redirections behind a closing parenthesis. */
  lemma {:induction false} FilesSpell(b: string, s: nat, done: seq<Piece>, ps: seq<Piece>, cmd: Cmd, signs: string)
      returns (c: Cmd)
    requires NUL !in b && Writable(ps) && Reads(b, s, Line(ps)) && Before(b, s + |Line(ps)|, signs) && Stops(signs)
    requires (forall k :: 0 <= k < |ps| ==> ps[k].File?) && (forall k :: 0 <= k < |done| ==> done[k].File?)
    requires Opens(b, cmd, done)
    ensures Opens(b, c, done + ps) && Core(c, |done + ps|) == Core(cmd, |done|)
    ensures s <= |b| && Redirs(b, s, cmd) == Parsed(c, Skip(b, s + |Line(ps)|))
    decreases |ps|
  {
    hide Reads, Skip, Plain, Before, Stops, PieceText, WordText, Text, Opens, Redirs, Core, TokensOk, Rest;
    if ps == [] {
      assert done + ps == done;
      RestEnds(b, s, cmd, 0, signs);
      return cmd;
    }
    var e := s + |PieceText(ps[0])|;
    PieceGap(b, s, ps, signs);
    var next := FileStep(b, s, ps[0], cmd);
    OpensMore(b, next, done, ps[0]);
    if |ps| > 1 { RestMoves(b, e, next, 0); } else { ReadsNone(b, e); }
    assert done + [ps[0]] + ps[1..] == done + ps;
    c := FilesSpell(b, if |ps| > 1 then e + 1 else e, done + [ps[0]], ps[1..], next, signs);
  }

  // ---- operators

  /** What may follow a phrase where this level is wanted. */
  function After(level: nat): (r: string)
    ensures Stops(r)
  {
    if level == 0 then ")" else if level < 3 then ")&;" else "|)&;"
  }

  lemma AfterMore(b: string, e: nat, level: nat, more: nat)
    requires Before(b, e, After(level)) && level <= more
    ensures Before(b, e, After(more))
  {
    hide Skip;
  }

  lemma SignBefore(b: string, e: nat, signs: string)
    requires e < |b| && (if b[e] == ' ' then e + 1 < |b| && b[e + 1] in signs else b[e] in signs) && Stops(signs)
    ensures Before(b, e, signs)
  {
    var q := if b[e] == ' ' then e + 1 else e;
    assert Ends(b[q]) && !Space(b[q]);
    assert Skip(b, e) == q;
  }

  lemma SignTaken(b: string, q: nat)
    requires NUL !in b && q < |b| && (Ends(b[q]) || b[q] == '(')
    ensures Skip(b, q) == q && At(b, q) == b[q] && NextToken(b, q).next == Skip(b, q + 1)
  {
  }

  /** Two texts with a sign and spaces between them. */
  lemma Between(b: string, s: nat, x: string, sign: char, y: string)
    requires NUL !in b && Reads(b, s, x + ([' ', sign, ' '] + y)) && Ends(sign)
    ensures var e := s + |x|;
            && Reads(b, s, x) && e + 3 <= |b| && b[e] == ' ' && b[e + 1] == sign && Reads(b, e + 3, y)
            && Skip(b, e) == e + 1 && At(b, e + 1) == sign && NextToken(b, e + 1).next == Skip(b, e + 3)
  {
    hide Reads, Ends, NextToken, Skip, Symbol, Space;
    var e, gap := s + |x|, [' ', sign, ' '];
    ReadsParts(b, s, x, gap + y);
    ReadsParts(b, e, gap, y);
    GapRead(b, e, sign);
    SignTaken(b, e + 1);
  }

  lemma GapRead(b: string, e: nat, sign: char)
    requires Reads(b, e, [' ', sign, ' ']) && Ends(sign)
    ensures e + 3 <= |b| && b[e] == ' ' && b[e + 1] == sign
    ensures Skip(b, e) == e + 1 && Skip(b, e + 2) == Skip(b, e + 3)
  {
    var gap := [' ', sign, ' '];
    assert forall k :: 0 <= k < 3 ==> gap[k] == b[e..e + 3][k] == b[e + k];
    assert b[e + 2] == gap[2] && b[e + 1] == gap[1] && b[e] == gap[0];
    hide Reads;
  }

  lemma PipeStops(b: string, s: nat, c: Cmd, e: nat)
    requires NUL !in b && s <= |b| && Before(b, e, After(2)) && ParseExec(b, s) == Parsed(c, Skip(b, e))
    ensures ParsePipe(b, s) == Parsed(c, Skip(b, e))
  {
    hide ParseExec, ParsePipe, NextToken, TokensOk, Skip;
    SkipTwice(b, e);
    Ended(b, e, After(2));
    PipeEnds(b, s, c, Skip(b, e));
  }

  lemma PipeJoins(b: string, s: nat, left: Cmd, e: nat, right: Cmd, f: nat)
    requires NUL !in b && s <= |b| && e + 3 <= |b| && Skip(b, e) == e + 1 && At(b, e + 1) == '|'
    requires NextToken(b, e + 1).next == Skip(b, e + 3)
    requires ParseExec(b, s) == Parsed(left, e + 1) && ParsePipe(b, e + 3) == Parsed(right, f)
    ensures ParsePipe(b, s) == Parsed(Piped(left, right), f)
  {
    PipeSkips(b, e + 3);
    SkipTwice(b, e);
    hide ParseExec, NextToken, TokensOk, Skip;
  }

  lemma BackJoins(b: string, e: nat, c: Cmd)
    requires NUL !in b && Reads(b, e, " &")
    ensures e + 2 <= |b| && Backs(b, Skip(b, e), c) == Backs(b, Skip(b, e + 2), Back(c)) && Before(b, e, After(1))
  {
    assert b[e] == b[e..e + 2][0] && b[e + 1] == b[e..e + 2][1];
    SignTaken(b, e + 1);
    SignBefore(b, e, After(1));
    assert Skip(b, e) == e + 1;
    hide NextToken, TokensOk, Before, Skip;
  }

  /** The pipeline at s and the `&`s behind it make c, and end at e. */
  ghost predicate Leads(b: string, s: nat, c: Cmd, e: nat)
    requires NUL !in b && s <= |b| && e <= |b|
  {
    match ParsePipe(b, s)
    case Parsed(first, m) => Backs(b, m, first) == Backs(b, Skip(b, e), c)
    case Panic(_) => false
  }

  lemma LineStops(b: string, s: nat, c: Cmd, e: nat)
    requires NUL !in b && s <= |b| && Before(b, e, After(0)) && Leads(b, s, c, e)
    ensures ParseLine(b, s) == Parsed(c, Skip(b, e))
  {
    hide ParsePipe, NextToken, TokensOk, Skip;
    SkipTwice(b, e);
    Ended(b, e, After(0));
    assert Backs(b, Skip(b, e), c) == Parsed(c, Skip(b, e));
  }

  lemma LineJoins(b: string, s: nat, left: Cmd, e: nat, right: Cmd, f: nat)
    requires NUL !in b && s <= |b| && e + 3 <= |b| && Skip(b, e) == e + 1 && At(b, e + 1) == ';'
    requires NextToken(b, e + 1).next == Skip(b, e + 3)
    requires Leads(b, s, left, e) && ParseLine(b, e + 3) == Parsed(right, f)
    ensures ParseLine(b, s) == Parsed(List(left, right), f)
  {
    LineSkips(b, e + 3);
    SkipTwice(b, e);
    hide ParsePipe, NextToken, TokensOk, Skip;
    assert Backs(b, e + 1, left) == Parsed(left, e + 1);
  }

  // ---- the main induction

  lemma CommandSpells(b: string, s: nat, ps: seq<Piece>) returns (c: Cmd)
    requires NUL !in b && Reads(b, s, Line(ps)) && Writable(ps) && |Words(ps)| < MAXARGS
    requires Before(b, s + |Line(ps)|, After(3))
    ensures Runs(b, c, ps) && s <= |b| && ParseExec(b, s) == Parsed(c, Skip(b, s + |Line(ps)|))
  {
    hide Reads, Skip, Before, Stops, WordText, Redirs, Args, TokensOk, Line;
    NoBlock(b, s, ps);
    assert [] + ps == ps;
    assert Runs(b, Exec([]), []);
    c := PiecesSpell(b, s, [], ps, Exec([]), After(3));
    RedirsSkips(b, s, Exec([]));
  }

  lemma CommandPanics(b: string, ps: seq<Piece>)
    requires Writable(ps) && |Words(ps)| >= MAXARGS && b == Line(ps) && NUL !in b
    ensures ParseExec(b, 0) == Panic("too many args")
  {
    hide Skip, Stops, WordText, Redirs, Args, TokensOk, Line;
    assert b[0..0 + |b|] == b;
    assert Skip(b, |b|) == |b|;
    NoBlock(b, 0, ps);
    assert [] + ps == ps;
    assert Runs(b, Exec([]), []);
    PiecesPanic(b, 0, [], ps, Exec([]), After(3));
    RedirsSkips(b, 0, Exec([]));
  }

  /** A simple command does not begin with a parenthesis. */
  lemma NoBlock(b: string, s: nat, ps: seq<Piece>)
    requires NUL !in b && Reads(b, s, Line(ps)) && Writable(ps) && Before(b, s + |Line(ps)|, After(3))
    ensures s <= |b| && At(b, Skip(b, s)) != '('
  {
    if ps == [] {
      Ended(b, s, After(3));
    } else {
      LineStarts(ps);
      ReadsChar(b, s, Line(ps));
    }
  }

  lemma LineStarts(ps: seq<Piece>)
    requires ps != [] && Writable(ps)
    ensures Line(ps) != "" && Line(ps)[0] != '(' && !Space(Line(ps)[0])
  {
    var x := PieceText(ps[0]);
    assert x != "" && Line(ps)[0] == x[0];
  }

  /** A phrase in parentheses, up to the redirections behind it. */
  lemma {:induction false} ParenSpells(b: string, s: nat, t: Phrase) returns (c: Cmd)
    requires NUL !in b && Reads(b, s, "(" + (Bare(t) + ")")) && Sayable(t)
    ensures s + |Bare(t)| + 2 <= |b| && Holds(b, c, t) && ParseExec(b, s) == Redirs(b, s + |Bare(t)| + 2, c)
    decreases |Bare(t)| + 2, 0
  {
    hide Reads, Skip, Before, Redirs, TokensOk, ParseLine, Bare, Sayable, Holds, NextToken;
    var e := s + 1 + |Bare(t)|;
    ReadsParts(b, s, "(", Bare(t) + ")");
    ReadsParts(b, s + 1, Bare(t), ")");
    ReadsChar(b, s, "(");
    ReadsChar(b, e, ")");
    SignTaken(b, s);
    SignTaken(b, e);
    SignBefore(b, e, After(0));
    c := LineSpells(b, s + 1, t);
    LineSkips(b, s + 1);
    RedirsSkips(b, e + 1, c);
  }

  lemma {:induction false} ExecSpells(b: string, s: nat, t: Phrase) returns (c: Cmd)
    requires NUL !in b && Reads(b, s, Show(t, 3)) && Sayable(t) && Before(b, s + |Show(t, 3)|, After(3))
    ensures Holds(b, c, t) && s <= |b| && ParseExec(b, s) == Parsed(c, Skip(b, s + |Show(t, 3)|))
    decreases |Show(t, 3)|, 2
  {
    hide Reads, Skip, Before, Stops, Redirs, TokensOk, ParseExec, Line, Runs;
    match t {
      case Command(ps) => c := CommandSpells(b, s, ps);
      case Group(d, files) => c := GroupSpells(b, s, t);
      case _ =>
        var e := s + |Show(t, 3)|;
        c := ParenSpells(b, s, t);
        RestEnds(b, e, c, 0, After(3));
    }
  }

  lemma {:induction false} GroupSpells(b: string, s: nat, t: Phrase) returns (c: Cmd)
    requires NUL !in b && t.Group? && Reads(b, s, Bare(t)) && Sayable(t) && Before(b, s + |Bare(t)|, After(3))
    ensures Holds(b, c, t) && s <= |b| && ParseExec(b, s) == Parsed(c, Skip(b, s + |Bare(t)|))
    decreases |Bare(t)|, 1
  {
    hide Reads, Skip, Before, Stops, Redirs, TokensOk, ParseExec, Line, Opens, Rest;
    var inside := "(" + (Bare(t.sub) + ")");
    var e := s + |inside|;
    ReadsParts(b, s, inside, Behind(t.files));
    var d := ParenSpells(b, s, t.sub);
    assert Opens(b, d, []) by { OpensNone(b, d); }
    if t.files == [] {
      RestEnds(b, e, d, 0, After(3));
      return d;
    }
    ReadsParts(b, e, " ", Line(t.files));
    ReadsChar(b, e, " ");
    RestMoves(b, e, d, 0);
    c := FilesSpell(b, e + 1, [], t.files, d, After(3));
    assert [] + t.files == t.files;
  }

  lemma OpensNone(b: string, c: Cmd)
    ensures Opens(b, c, []) && Core(c, 0) == c
  {
  }

  lemma {:induction false} PipeSpells(b: string, s: nat, t: Phrase) returns (c: Cmd)
    requires NUL !in b && Reads(b, s, Show(t, 2)) && Sayable(t) && Before(b, s + |Show(t, 2)|, After(2))
    ensures Holds(b, c, t) && s <= |b| && ParsePipe(b, s) == Parsed(c, Skip(b, s + |Show(t, 2)|))
    decreases |Show(t, 2)|, 3
  {
    hide Reads, Skip, Before, Stops, TokensOk, ParseExec, ParsePipe, NextToken;
    if t.Chain? {
      var x, y := Show(t.left, 3), Show(t.right, 2);
      var e := s + |x|;
      Between(b, s, x, '|', y);
      SignBefore(b, e, After(3));
      var left := ExecSpells(b, s, t.left);
      var right := PipeSpells(b, e + 3, t.right);
      c := Piped(left, right);
      PipeJoins(b, s, left, e, right, Skip(b, s + |Show(t, 2)|));
    } else {
      assert Show(t, 2) == Show(t, 3);
      AfterMore(b, s + |Show(t, 2)|, 2, 3);
      c := ExecSpells(b, s, t);
      PipeStops(b, s, c, s + |Show(t, 2)|);
    }
  }

  lemma {:induction false} LeadSpells(b: string, s: nat, t: Phrase) returns (c: Cmd)
    requires NUL !in b && Reads(b, s, Show(t, 1)) && Sayable(t) && Before(b, s + |Show(t, 1)|, After(1))
    ensures Holds(b, c, t) && s + |Show(t, 1)| <= |b| && Leads(b, s, c, s + |Show(t, 1)|)
    decreases |Show(t, 1)|, 4
  {
    hide Reads, Skip, Before, Stops, TokensOk, ParsePipe, NextToken, Backs;
    if t.Detached? {
      var x := Show(t.sub, 1);
      ReadsParts(b, s, x, " &");
      var d := LeadFirst(b, s, t.sub, " &");
      c := Back(d);
      BackJoins(b, s + |x|, d);
    } else {
      assert Show(t, 1) == Show(t, 2);
      c := PipeSpells(b, s, t);
    }
  }

  lemma {:induction false} LeadFirst(b: string, s: nat, t: Phrase, sign: string) returns (c: Cmd)
    requires NUL !in b && Reads(b, s, Show(t, 1)) && Sayable(t) && sign == " &" && Reads(b, s + |Show(t, 1)|, sign)
    ensures Holds(b, c, t) && s + |Show(t, 1)| <= |b| && Leads(b, s, c, s + |Show(t, 1)|)
    decreases |Show(t, 1)| + 1, 0
  {
    BackJoins(b, s + |Show(t, 1)|, Exec([]));
    c := LeadSpells(b, s, t);
  }

  lemma {:induction false} SeriesSpells(b: string, s: nat, t: Phrase) returns (c: Cmd)
    requires NUL !in b && t.Series? && Reads(b, s, Bare(t)) && Sayable(t) && Before(b, s + |Bare(t)|, After(0))
    ensures Holds(b, c, t) && s <= |b| && ParseLine(b, s) == Parsed(c, Skip(b, s + |Bare(t)|))
    decreases |Bare(t)|, 0
  {
    hide Reads, Skip, Before, Stops, TokensOk, ParseLine, Leads, NextToken, Show;
    var x, y := Show(t.left, 1), Show(t.right, 0);
    var e := s + |x|;
    assert y == Bare(t.right) by { ShowLeast(t.right); }
    Between(b, s, x, ';', y);
    SignBefore(b, e, After(1));
    var left := LeadSpells(b, s, t.left);
    var right := LineSpells(b, e + 3, t.right);
    c := List(left, right);
    LineJoins(b, s, left, e, right, Skip(b, s + |Bare(t)|));
  }

  lemma ShowLeast(t: Phrase)
    ensures Show(t, 0) == Bare(t)
  {
  }

  lemma {:induction false} LineSpells(b: string, s: nat, t: Phrase) returns (c: Cmd)
    requires NUL !in b && Reads(b, s, Bare(t)) && Sayable(t) && Before(b, s + |Bare(t)|, After(0))
    ensures Holds(b, c, t) && s <= |b| && ParseLine(b, s) == Parsed(c, Skip(b, s + |Bare(t)|))
    decreases |Bare(t)|, 5
  {
    hide Reads, Skip, Before, Stops, TokensOk, ParseLine, Leads, NextToken;
    if t.Series? {
      c := SeriesSpells(b, s, t);
    } else {
      assert Show(t, 1) == Bare(t);
      AfterMore(b, s + |Bare(t)|, 0, 1);
      c := LeadSpells(b, s, t);
      LineStops(b, s, c, s + |Bare(t)|);
    }
  }

  // ---- the round trip

  lemma {:induction false} LineClean(ps: seq<Piece>)
    requires Writable(ps)
    ensures NUL !in Line(ps)
  {
    if ps != [] {
      assert NUL !in PieceText(ps[0]);
      LineClean(ps[1..]);
    }
  }

  lemma {:induction false} BareClean(t: Phrase)
    requires Sayable(t)
    ensures NUL !in Bare(t)
  {
    match t {
      case Command(ps) => LineClean(ps);
      case Group(d, files) => BareClean(d); LineClean(files);
      case Chain(l, r) => BareClean(l); BareClean(r);
      case Detached(d) => BareClean(d);
      case Series(l, r) => BareClean(l); BareClean(r);
    }
  }

  /** A phrase printed with the parentheses it needs, and those it has, comes back
      as itself. */
  lemma PhraseRoundTrip(t: Phrase)
    requires Sayable(t)
    ensures NUL !in Bare(t) && ParseCmd(Bare(t)).Parsed? && Holds(Bare(t), ParseCmd(Bare(t)).cmd, t)
  {
    hide Sayable, Holds, ParseLine, Bare;
    BareClean(t);
    var b := Bare(t);
    assert b[0..0 + |b|] == b;
    var c := LineSpells(b, 0, t);
    assert Skip(b, |b|) == |b|;
  }

  /** Words and redirections in any order make a command exactly up to nine words. */
  lemma CommandIff(ps: seq<Piece>)
    requires Writable(ps)
    ensures NUL !in Line(ps) && (ParseCmd(Line(ps)).Parsed? <==> |Words(ps)| < MAXARGS)
    ensures |Words(ps)| >= MAXARGS ==> ParseCmd(Line(ps)) == Panic("too many args")
  {
    hide ParseExec, ParseLine, ParseCmd, Words, Holds, WordText, Line;
    LineClean(ps);
    if |Words(ps)| < MAXARGS {
      PhraseRoundTrip(Command(ps));
    } else {
      CommandPanics(Line(ps), ps);
      PanicRises(Line(ps), "too many args");
    }
  }

  lemma PanicRises(b: string, m: string)
    requires NUL !in b && ParseExec(b, 0) == Panic(m)
    ensures ParseCmd(b) == Panic(m)
  {
    hide ParseExec, Skip, NextToken, TokensOk, Backs;
    var pipe := ParsePipe(b, 0);
    assert pipe == Panic(m);
    var line := ParseLine(b, 0);
    assert line == Panic(m);
  }

  /** The command runs the program `name` without arguments. */
  ghost predicate Calls(b: string, c: Cmd, name: string) {
    c.Exec? && AllText(b, c.argv, [name])
  }

  function One(name: string): Phrase {
    Command([Arg(name)])
  }

  lemma OneShown(name: string, level: nat)
    requires WordText(name) && level <= 3
    ensures Show(One(name), level) == Bare(One(name)) == name && Sayable(One(name))
  {
    hide WordText;
    var ps := [Arg(name)];
    WordsOne(name);
    assert PieceText(ps[0]) == name;
    assert Line(ps) == PieceText(ps[0]);
    assert One(name).pieces == ps && Writable(ps);
  }

  lemma WordsOne(name: string)
    ensures Words([Arg(name)]) == [name] && Files([Arg(name)]) == []
  {
    var ps := [Arg(name)];
    assert ps[..0] == [];
    assert Words(ps[..0]) == [] && Files(ps[..0]) == [];
  }

  lemma CallsOne(b: string, c: Cmd, name: string)
    requires Holds(b, c, One(name))
    ensures Calls(b, c, name)
  {
    WordsOne(name);
  }

  /** `x | y ; z` runs the pipe and then z. */
  lemma PipeInList(x: string, y: string, z: string)
    requires WordText(x) && WordText(y) && WordText(z)
    ensures var b := x + " | " + y + " ; " + z;
            && NUL !in b && ParseCmd(b).Parsed? && var c := ParseCmd(b).cmd;
            c.List? && c.left.Piped? && Calls(b, c.left.left, x) && Calls(b, c.left.right, y) && Calls(b, c.right, z)
  {
    hide WordText, Calls, ParseCmd, AllText, One, Runs, Bare, Show;
    var pipe := Chain(One(x), One(y));
    PipeShown(x, y);
    var t, b := Series(pipe, One(z)), x + " | " + y + " ; " + z;
    assert Bare(t) == b && Sayable(t) by { SeriesShown(pipe, z, x + " | " + y); }
    PhraseRoundTrip(t);
    var c := ParseCmd(b).cmd;
    CallsOne(b, c.left.left, x);
    CallsOne(b, c.left.right, y);
    CallsOne(b, c.right, z);
  }

  lemma PipeShown(x: string, y: string)
    requires WordText(x) && WordText(y)
    ensures var t := Chain(One(x), One(y)); Bare(t) == x + " | " + y && Sayable(t)
  {
    hide WordText, One, Sayable;
    OneShown(x, 3);
    OneShown(y, 2);
    var t := Chain(One(x), One(y));
    assert Bare(t) == Show(One(x), 3) + (" | " + Show(One(y), 2));
    assert x + (" | " + y) == x + " | " + y;
    assert Sayable(t) by { BothSayable(t); }
  }

  lemma BothSayable(t: Phrase)
    requires t.Chain? || t.Series?
    ensures Sayable(t) <==> Sayable(t.left) && Sayable(t.right)
  {
  }

  lemma SeriesShown(t: Phrase, z: string, x: string)
    requires t.Chain? && Sayable(t) && Bare(t) == x && WordText(z)
    ensures Bare(Series(t, One(z))) == x + " ; " + z && Sayable(Series(t, One(z)))
  {
    hide WordText, One, Sayable;
    OneShown(z, 0);
    var r := Series(t, One(z));
    assert Show(t, 1) == x;
    assert Bare(r) == Show(t, 1) + (" ; " + Show(One(z), 0));
    assert x + (" ; " + z) == x + " ; " + z;
    assert Sayable(r) by { BothSayable(r); }
  }

  /** `x | y &` runs the whole pipe in the background. */
  lemma PipeInBack(x: string, y: string)
    requires WordText(x) && WordText(y)
    ensures var b := x + " | " + y + " &";
            && NUL !in b && ParseCmd(b).Parsed? && var c := ParseCmd(b).cmd;
            c.Back? && c.cmd.Piped? && Calls(b, c.cmd.left, x) && Calls(b, c.cmd.right, y)
  {
    hide WordText, Calls, ParseCmd, AllText, One, Runs, Bare, Show;
    var pipe := Chain(One(x), One(y));
    PipeShown(x, y);
    var t, b := Detached(pipe), x + " | " + y + " &";
    assert Bare(t) == b && Sayable(t) by { BackShown(pipe); }
    PhraseRoundTrip(t);
    var c := ParseCmd(b).cmd;
    CallsOne(b, c.cmd.left, x);
    CallsOne(b, c.cmd.right, y);
  }

  lemma BackShown(t: Phrase)
    requires t.Chain? && Sayable(t)
    ensures Bare(Detached(t)) == Bare(t) + " &" && Sayable(Detached(t))
  {
    assert Show(t, 1) == Bare(t);
  }

  /** `x | y | z` pipes x into the pipe of the others. */
  lemma PipeInPipe(x: string, y: string, z: string)
    requires WordText(x) && WordText(y) && WordText(z)
    ensures var b := x + " | " + y + " | " + z;
            && NUL !in b && ParseCmd(b).Parsed? && var c := ParseCmd(b).cmd;
            c.Piped? && c.right.Piped? && Calls(b, c.left, x) && Calls(b, c.right.left, y) && Calls(b, c.right.right, z)
  {
    hide WordText, Calls, ParseCmd, AllText, One, Runs, Bare, Show;
    var pipe := Chain(One(y), One(z));
    PipeShown(y, z);
    var t, b := Chain(One(x), pipe), x + " | " + y + " | " + z;
    assert Bare(t) == b && Sayable(t) by { ChainShown(x, pipe, y, z); }
    PhraseRoundTrip(t);
    var c := ParseCmd(b).cmd;
    CallsOne(b, c.left, x);
    CallsOne(b, c.right.left, y);
    CallsOne(b, c.right.right, z);
  }

  lemma ChainShown(x: string, t: Phrase, y: string, z: string)
    requires t.Chain? && Sayable(t) && WordText(x) && Bare(t) == y + " | " + z
    ensures Bare(Chain(One(x), t)) == x + " | " + y + " | " + z && Sayable(Chain(One(x), t))
  {
    hide WordText, One, Sayable;
    OneShown(x, 3);
    var r := Chain(One(x), t);
    assert Show(t, 2) == Bare(t);
    assert Bare(r) == Show(One(x), 3) + (" | " + Show(t, 2));
    assert x + (" | " + (y + " | " + z)) == x + " | " + y + " | " + z;
    assert Sayable(r) by { BothSayable(r); }
  }
}
