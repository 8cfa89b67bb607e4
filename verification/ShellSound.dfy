/** What the shell's parser never lets through: a line it accepts has its
    parentheses nested, and no command has more words than argv can hold. */
module ShellSound {
  import opened ShellSyntax

  function Turn(c: char): int {
    if c == '(' then 1 else if c == ')' then -1 else 0
  }

  /** How many parentheses are open at e of those from s on. */
  function Net(b: string, s: nat, e: nat): int
    requires s <= e <= |b|
    decreases e
  {
    if s == e then 0 else Net(b, s, e - 1) + Turn(b[e - 1])
  }

  /** Every closing parenthesis has its opening one, and the other way round. */
  ghost predicate Nested(b: string, s: nat, e: nat) {
    s <= e <= |b| && Net(b, s, e) == 0 && forall m :: s <= m <= e ==> Net(b, s, m) >= 0
  }

  lemma {:induction false} NetSplit(b: string, s: nat, m: nat, e: nat)
    requires s <= m <= e <= |b|
    ensures Net(b, s, e) == Net(b, s, m) + Net(b, m, e)
    decreases e
  {
    if m < e { NetSplit(b, s, m, e - 1); }
  }

  lemma NestedJoin(b: string, s: nat, m: nat, e: nat)
    requires Nested(b, s, m) && Nested(b, m, e)
    ensures Nested(b, s, e)
  {
    NetSplit(b, s, m, e);
    forall k | s <= k <= e ensures Net(b, s, k) >= 0 {
      if k > m { NetSplit(b, s, m, k); }
    }
  }

  /** A part in parentheses. */
  lemma NestedWrap(b: string, s: nat, e: nat)
    requires s + 1 <= e < |b| && b[s] == '(' && b[e] == ')' && Nested(b, s + 1, e)
    ensures Nested(b, s, e + 1)
  {
    assert Net(b, s, s + 1) == 1;
    forall k | s < k <= e + 1 ensures Net(b, s, k) == 1 + Net(b, s + 1, k) { NetSplit(b, s, s + 1, k); }
  }

  lemma {:induction false} NestedFlat(b: string, s: nat, e: nat)
    requires s <= e <= |b| && forall k :: s <= k < e ==> b[k] != '(' && b[k] != ')'
    ensures Nested(b, s, e)
    decreases e
  {
    if s < e {
      NestedFlat(b, s, e - 1);
      assert Turn(b[e - 1]) == 0;
    }
  }

  lemma {:induction false} SkipNested(b: string, s: nat)
    requires s <= |b|
    ensures Nested(b, s, Skip(b, s)) && forall k :: s <= k < Skip(b, s) ==> Space(b[k])
    decreases |b| - s
  {
    if s < |b| && Space(b[s]) { SkipNested(b, s + 1); }
    NestedFlat(b, s, Skip(b, s));
  }

  /** A token other than a parenthesis, with the spaces around it. */
  lemma TokenNested(b: string, s: nat)
    requires s <= |b| && NUL !in b
    ensures var t := NextToken(b, s); t.kind != '(' && t.kind != ')' ==> Nested(b, s, t.next)
  {
    hide Nested;
    var t := NextToken(b, s);
    SkipNested(b, s);
    SkipNested(b, t.eq);
    if t.kind != '(' && t.kind != ')' {
      TokenFlat(b, s);
      NestedJoin(b, s, t.q, t.eq);
      NestedJoin(b, s, t.eq, t.next);
    }
  }

  lemma TokenFlat(b: string, s: nat)
    requires s <= |b| && NUL !in b && NextToken(b, s).kind != '(' && NextToken(b, s).kind != ')'
    ensures var t := NextToken(b, s); t.q == Skip(b, s) && t.next == Skip(b, t.eq) && Nested(b, t.q, t.eq)
  {
    hide Nested, Skip, WordEnd;
    NestedFlat(b, NextToken(b, s).q, NextToken(b, s).eq);
  }

  /** n words under redirections. */
  predicate Simple(c: Cmd, n: nat) {
    match c
    case Exec(argv) => |argv| == n
    case Redir(d, _, _, _) => Simple(d, n)
    case _ => false
  }

  /** Each command's words, and the null behind them, fit into argv. */
  predicate Fits(c: Cmd) {
    match c
    case Exec(argv) => |argv| < MAXARGS
    case Redir(d, _, _, _) => Fits(d)
    case Piped(l, r) => Fits(l) && Fits(r)
    case List(l, r) => Fits(l) && Fits(r)
    case Back(d) => Fits(d)
  }

  lemma {:induction false} SimpleFits(c: Cmd, n: nat)
    requires Simple(c, n) && n < MAXARGS
    ensures Fits(c)
  {
    if c.Redir? { SimpleFits(c.cmd, n); }
  }

  lemma {:induction false} AddArgSimple(c: Cmd, n: nat, w: Word)
    requires Simple(c, n)
    ensures Simple(AddArg(c, w), n + 1)
  {
    if c.Redir? { AddArgSimple(c.cmd, n, w); }
  }

  lemma {:induction false} RedirsSound(b: string, s: nat, cmd: Cmd, n: nat)
    requires s <= |b| && NUL !in b
    ensures var r := Redirs(b, s, cmd);
            r.Parsed? ==> Nested(b, s, r.s) && (Fits(cmd) ==> Fits(r.cmd)) && (Simple(cmd, n) ==> Simple(r.cmd, n))
    decreases |b| - s
  {
    hide Nested, Skip, NextToken, TokensOk;
    var p := Skip(b, s);
    SkipNested(b, s);
    if At(b, p) == '<' || At(b, p) == '>' {
      var t := NextToken(b, p);
      var f := NextToken(b, t.next);
      SignKind(b, p);
      TokenNested(b, p);
      TokenNested(b, t.next);
      if f.kind == 'a' {
        NestedJoin(b, s, p, t.next);
        NestedJoin(b, s, t.next, f.next);
        RedirsSound(b, f.next, Redirected(cmd, t.kind, Word(f.q, f.eq)), n);
        if Redirs(b, s, cmd).Parsed? { NestedJoin(b, s, f.next, Redirs(b, s, cmd).s); }
      }
    }
  }

  lemma SignKind(b: string, p: nat)
    requires p <= |b| && NUL !in b && Symbol(At(b, p))
    ensures Skip(b, p) == p && (NextToken(b, p).kind == At(b, p) || (At(b, p) == '>' && NextToken(b, p).kind == '+'))
    ensures p < NextToken(b, p).next
  {
  }

  lemma {:induction false} ArgsSound(b: string, s: nat, ret: Cmd, argc: nat)
    requires s <= |b| && NUL !in b && Simple(ret, argc) && argc < MAXARGS
    ensures var r := Args(b, s, ret, argc); r.Parsed? ==> Nested(b, s, r.s) && Fits(r.cmd)
    decreases |b| - s
  {
    hide Nested, Skip, NextToken, TokensOk, TokenOk, Redirs, AddArg, Ends, Simple, Fits;
    var p := Skip(b, s);
    SkipNested(b, s);
    SimpleFits(ret, argc);
    if !Ends(At(b, p)) {
      var t := NextToken(b, p);
      TokenNested(b, p);
      if t.kind == NUL { NestedJoin(b, s, p, t.next); }
      if t.kind == 'a' && argc + 1 < MAXARGS {
        var more := AddArg(ret, Word(t.q, t.eq));
        AddArgSimple(ret, argc, Word(t.q, t.eq));
        RedirsSound(b, t.next, more, argc + 1);
        NestedJoin(b, s, p, t.next);
        var r := Redirs(b, t.next, more);
        if r.Parsed? {
          NestedJoin(b, s, t.next, r.s);
          ArgsSound(b, r.s, r.cmd, argc + 1);
          var all := Args(b, r.s, r.cmd, argc + 1);
          if all.Parsed? { NestedJoin(b, s, r.s, all.s); }
        }
      }
    }
  }

  lemma {:induction false} ExecSound(b: string, s: nat)
    requires s <= |b| && NUL !in b
    ensures var r := ParseExec(b, s); r.Parsed? ==> Nested(b, s, r.s) && Fits(r.cmd)
    decreases |b| - s, 1
  {
    hide Nested, Skip, TokensOk, Redirs, Args, ParseBlock;
    var p := Skip(b, s);
    SkipNested(b, s);
    if At(b, p) == '(' {
      BlockSound(b, p);
      if ParseBlock(b, p).Parsed? { NestedJoin(b, s, p, ParseBlock(b, p).s); }
    } else {
      RedirsSound(b, p, Exec([]), 0);
      var r := Redirs(b, p, Exec([]));
      if r.Parsed? {
        NestedJoin(b, s, p, r.s);
        ArgsSound(b, r.s, r.cmd, 0);
        if Args(b, r.s, r.cmd, 0).Parsed? { NestedJoin(b, s, r.s, Args(b, r.s, r.cmd, 0).s); }
      }
    }
  }

  lemma {:induction false} BlockSound(b: string, s: nat)
    requires s <= |b| && NUL !in b && Skip(b, s) == s && At(b, s) == '('
    ensures var r := ParseBlock(b, s); r.Parsed? ==> Nested(b, s, r.s) && Fits(r.cmd)
    decreases |b| - s, 0
  {
    hide Nested, Skip, TokensOk, Redirs, ParseLine, NextToken, Fits;
    var t := NextToken(b, s);
    OneSign(b, s);
    SkipNested(b, s + 1);
    LineSound(b, t.next);
    var inner := ParseLine(b, t.next);
    if inner.Parsed? {
      var p := Skip(b, inner.s);
      SkipNested(b, inner.s);
      NestedJoin(b, s + 1, t.next, inner.s);
      NestedJoin(b, s + 1, inner.s, p);
      if At(b, p) == ')' {
        NestedWrap(b, s, p);
        OneSign(b, p);
        SkipNested(b, p + 1);
        NestedJoin(b, s, p + 1, NextToken(b, p).next);
        var n := NextToken(b, p).next;
        RedirsSound(b, n, inner.cmd, 0);
        if Redirs(b, n, inner.cmd).Parsed? { NestedJoin(b, s, n, Redirs(b, n, inner.cmd).s); }
      }
    }
  }

  lemma OneSign(b: string, p: nat)
    requires p <= |b| && NUL !in b && Symbol(At(b, p)) && At(b, p) != '>'
    ensures p < |b| && b[p] == At(b, p) && Skip(b, p) == p && NextToken(b, p).next == Skip(b, p + 1)
    ensures At(b, p) != '(' && At(b, p) != ')' ==> Nested(b, p, NextToken(b, p).next)
  {
    hide Nested;
    TokenNested(b, p);
  }

  lemma {:induction false} PipeSound(b: string, s: nat)
    requires s <= |b| && NUL !in b
    ensures var r := ParsePipe(b, s); r.Parsed? ==> Nested(b, s, r.s) && Fits(r.cmd)
    decreases |b| - s, 2
  {
    hide Nested, Skip, TokensOk, ParseExec, NextToken;
    ExecSound(b, s);
    var l := ParseExec(b, s);
    if l.Parsed? {
      var p := Skip(b, l.s);
      SkipNested(b, l.s);
      NestedJoin(b, s, l.s, p);
      if At(b, p) == '|' {
        OneSign(b, p);
        var n := NextToken(b, p).next;
        NestedJoin(b, s, p, n);
        PipeSound(b, n);
        if ParsePipe(b, n).Parsed? { NestedJoin(b, s, n, ParsePipe(b, n).s); }
      }
    }
  }

  lemma {:induction false} BacksSound(b: string, s: nat, cmd: Cmd)
    requires s <= |b| && NUL !in b && Fits(cmd)
    ensures Nested(b, s, Backs(b, s, cmd).s) && Fits(Backs(b, s, cmd).cmd)
    decreases |b| - s
  {
    hide Nested, Skip, TokensOk, NextToken;
    var p := Skip(b, s);
    SkipNested(b, s);
    if At(b, p) == '&' {
      OneSign(b, p);
      var n := NextToken(b, p).next;
      NestedJoin(b, s, p, n);
      BacksSound(b, n, Back(cmd));
      NestedJoin(b, s, n, Backs(b, n, Back(cmd)).s);
    }
  }

  lemma {:induction false} LineSound(b: string, s: nat)
    requires s <= |b| && NUL !in b
    ensures var r := ParseLine(b, s); r.Parsed? ==> Nested(b, s, r.s) && Fits(r.cmd)
    decreases |b| - s, 3
  {
    hide Nested, Skip, TokensOk, ParsePipe, NextToken, Backs;
    PipeSound(b, s);
    var l := ParsePipe(b, s);
    if l.Parsed? {
      BacksSound(b, l.s, l.cmd);
      var a := Backs(b, l.s, l.cmd);
      NestedJoin(b, s, l.s, a.s);
      var p := Skip(b, a.s);
      SkipNested(b, a.s);
      NestedJoin(b, s, a.s, p);
      if At(b, p) == ';' {
        OneSign(b, p);
        var n := NextToken(b, p).next;
        NestedJoin(b, s, p, n);
        LineSound(b, n);
        if ParseLine(b, n).Parsed? { NestedJoin(b, s, n, ParseLine(b, n).s); }
      }
    }
  }

  /** A line that is accepted is nested as a whole, and its words fit. */
  lemma ParseSound(b: string)
    requires NUL !in b && ParseCmd(b).Parsed?
    ensures Nested(b, 0, |b|) && Fits(ParseCmd(b).cmd)
  {
    hide Nested, Skip, TokensOk, ParseLine;
    LineSound(b, 0);
    var s := ParseLine(b, 0).s;
    SkipNested(b, s);
    NestedJoin(b, 0, s, |b|);
  }
}
