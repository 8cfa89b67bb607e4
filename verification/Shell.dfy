/** The shell's parser over its line buffer: a cursor that every parse method
    moves, and the buffer cut into C strings once the parse is done. */
module Shell {
  import opened ShellSyntax
  import Syntax = ShellSyntax

  /** A command, or the panic that ends the process. */
  datatype Result = Done(cmd: Cmd) | Failed(msg: string)

  /** What a parse method returns and where it leaves the cursor. */
  predicate Agrees(r: Result, s: nat, p: Parse) {
    match p
    case Parsed(cmd, e) => r == Done(cmd) && s == e
    case Panic(msg) => r == Failed(msg)
  }

  class Parser {
    const buf: array<char>
    const es: nat
    var ps: nat
    /** The line as it was read. */
    ghost const text: string

    /** A line of es characters ended by a NUL. */
    constructor (line: array<char>, n: nat)
      requires n < line.Length && line[n] == NUL && NUL !in line[..n]
      ensures buf == line && es == n && ps == 0 && Valid()
    {
      buf, es, ps, text := line, n, 0, line[..n];
    }

    ghost predicate Valid()
      reads this, buf
    {
      es < buf.Length && buf[es] == NUL && buf[..es] == text && NUL !in text && ps <= es
    }

    method SkipSpace(s: nat) returns (r: nat)
      requires Valid() && s <= es
      ensures r == Skip(text, s)
    {
      r := s;
      while r < es && Space(buf[r])
        invariant s <= r <= es && Skip(text, r) == Skip(text, s)
      {
        r := r + 1;
      }
    }

    /** The loop of gettoken over the characters of a word. */
    method ScanWord(q: nat) returns (s: nat)
      requires Valid() && q <= es
      ensures s == WordEnd(text, q) && q <= s <= es
    {
      s := q;
      while s < es && !Space(buf[s]) && !Symbol(buf[s])
        invariant q <= s <= es && WordEnd(text, s) == WordEnd(text, q)
      {
        s := s + 1;
      }
    }

    method Gettoken() returns (kind: char, q: nat, eq: nat)
      requires Valid()
      modifies `ps
      ensures Valid() && Token(kind, q, eq, ps) == NextToken(text, old(ps))
    {
      var s := SkipSpace(ps);
      q := s;
      kind := buf[s];
      assert kind == At(text, s);
      if buf[s] == NUL {
        assert s == es;
      } else if buf[s] == '|' || buf[s] == '(' || buf[s] == ')' || buf[s] == ';' || buf[s] == '&' || buf[s] == '<' {
        s := s + 1;
      } else if buf[s] == '>' {
        s := s + 1;
        assert buf[s] == At(text, s);
        if buf[s] == '>' {
          kind := '+';
          s := s + 1;
        }
      } else {
        kind := 'a';
        s := ScanWord(s);
      }
      eq := s;
      ps := SkipSpace(s);
    }

    method Peek(toks: string) returns (r: bool)
      requires Valid()
      modifies `ps
      ensures Valid() && ps == Skip(text, old(ps)) && r == (At(text, ps) != NUL && At(text, ps) in toks)
    {
      ps := SkipSpace(ps);
      assert buf[ps] == At(text, ps);
      r := buf[ps] != NUL && buf[ps] in toks;
    }

    method ParseRedirs(cmd: Cmd) returns (r: Result)
      requires Valid()
      modifies `ps
      ensures Valid() && ps >= old(ps) && Agrees(r, ps, Redirs(text, old(ps), cmd))
    {
      hide Skip, NextToken, TokensOk, Redirs, At, Redirected;
      var c := cmd;
      ghost var from := ps;
      var more := Peek("<>");
      InAngles(At(text, ps));
      while more
        invariant Valid() && old(ps) <= from <= ps == Skip(text, from)
        invariant more == Angle(At(text, ps))
        invariant Redirs(text, from, c) == Redirs(text, old(ps), cmd)
        decreases es - ps, more
      {
        RedirsStep(text, from, c);
        var tok, _, _ := Gettoken();
        var kind, q, eq := Gettoken();
        if kind != 'a' {
          return Failed("missing file for redirection");
        }
        c := Redirected(c, tok, Word(q, eq));
        from := ps;
        more := Peek("<>");
        InAngles(At(text, ps));
      }
      RedirsStop(text, from, c);
      return Done(c);
    }

    method ParseExec() returns (r: Result)
      requires Valid()
      modifies `ps
      ensures Valid() && ps >= old(ps) && Agrees(r, ps, Syntax.ParseExec(text, old(ps)))
      decreases es - ps, 1
    {
      hide Skip, NextToken, TokensOk, Redirs, At, Args, Syntax.ParseBlock;
      var block := Peek("(");
      if block {
        r := ParseBlock();
        return;
      }
      r := ParseRedirs(Exec([]));
      if r.Failed? {
        return;
      }
      r := ParseArgs(r.cmd);
    }

    /** The loop of parseexec. */
    method ParseArgs(cmd: Cmd) returns (r: Result)
      requires Valid()
      modifies `ps
      ensures Valid() && ps >= old(ps) && Agrees(r, ps, Args(text, old(ps), cmd, 0))
    {
      hide Skip, NextToken, TokensOk, Redirs, At, Args, AddArg;
      var ret, argc := cmd, 0;
      ghost var from := ps;
      var done := Peek("|)&;");
      InEnds(At(text, ps));
      while !done
        invariant Valid() && old(ps) <= from <= ps == Skip(text, from)
        invariant done == Ends(At(text, ps)) && argc < MAXARGS
        invariant Args(text, from, ret, argc) == Args(text, old(ps), cmd, 0)
        decreases es - ps, !done
      {
        ArgsStep(text, from, ret, argc);
        var tok, q, eq := Gettoken();
        if tok == NUL {
          return Done(ret);
        }
        if tok != 'a' {
          return Failed("syntax");
        }
        ret := AddArg(ret, Word(q, eq));
        argc := argc + 1;
        if argc >= MAXARGS {
          return Failed("too many args");
        }
        var more := ParseRedirs(ret);
        if more.Failed? {
          return more;
        }
        ret := more.cmd;
        from := ps;
        done := Peek("|)&;");
        InEnds(At(text, ps));
      }
      ArgsStop(text, from, ret, argc);
      return Done(ret);
    }

    method ParseBlock() returns (r: Result)
      requires Valid()
      modifies `ps
      ensures Valid() && ps >= old(ps) && Agrees(r, ps, Syntax.ParseBlock(text, old(ps)))
      decreases es - ps, 0
    {
      hide Skip, TokensOk, Redirs, At, NextToken, Syntax.ParseLine;
      var open := Peek("(");
      if !open {
        return Failed("parseblock");
      }
      TakesSome(text, ps);
      var _, _, _ := Gettoken();
      r := ParseLine();
      if r.Failed? {
        return;
      }
      var close := Peek(")");
      if !close {
        return Failed("syntax - missing )");
      }
      var _, _, _ := Gettoken();
      r := ParseRedirs(r.cmd);
    }

    method ParsePipe() returns (r: Result)
      requires Valid()
      modifies `ps
      ensures Valid() && ps >= old(ps) && Agrees(r, ps, Syntax.ParsePipe(text, old(ps)))
      decreases es - ps, 2
    {
      hide Skip, TokensOk, At, NextToken, Syntax.ParseExec;
      r := ParseExec();
      if r.Failed? {
        return;
      }
      var bar := Peek("|");
      if bar {
        TakesSome(text, ps);
        var _, _, _ := Gettoken();
        var right := ParsePipe();
        if right.Failed? {
          return right;
        }
        r := Done(Piped(r.cmd, right.cmd));
      }
    }

    method ParseLine() returns (r: Result)
      requires Valid()
      modifies `ps
      ensures Valid() && ps >= old(ps) && Agrees(r, ps, Syntax.ParseLine(text, old(ps)))
      decreases es - ps, 3
    {
      hide Skip, TokensOk, At, NextToken, Backs, Syntax.ParsePipe;
      r := ParsePipe();
      if r.Failed? {
        return;
      }
      var c := r.cmd;
      ghost var start, from := ps, ps;
      var more := Peek("&");
      while more
        invariant Valid() && start <= from <= ps == Skip(text, from)
        invariant more == (At(text, ps) == '&')
        invariant Backs(text, from, c) == Backs(text, start, r.cmd)
        decreases es - ps, more
      {
        BacksStep(text, from, c);
        var _, _, _ := Gettoken();
        c := Back(c);
        from := ps;
        more := Peek("&");
      }
      BacksStop(text, from, c);
      r := Done(c);
      var semi := Peek(";");
      if semi {
        TakesSome(text, ps);
        var _, _, _ := Gettoken();
        var right := ParseLine();
        if right.Failed? {
          return right;
        }
        r := Done(List(c, right.cmd));
      }
    }

    /** parsecmd: the tree, its strings cut out of the line. */
    method ParseCmd() returns (r: Result)
      requires Valid() && ps == 0
      modifies `ps, buf
      ensures match Syntax.ParseCmd(text)
              case Panic(msg) => r == Failed(msg)
              case Parsed(cmd, _) =>
                && r == Done(cmd)
                && forall w :: w in Words(cmd) ==> TokenOk(text, w) && CString(buf[..], w.q) == text[w.q..w.eq]
    {
      hide Skip, TokensOk, At, NextToken, Syntax.ParseLine, CString;
      r := ParseLine();
      if r.Failed? {
        return;
      }
      var _ := Peek("");
      if ps != es {
        return Failed("syntax");
      }
      TokensWithin(text, r.cmd, buf.Length);
      NulTerminate(r.cmd);
      Terminated(text, r.cmd, buf[..]);
    }

    /** nulterminate: a NUL after every word, and nothing else. */
    method NulTerminate(cmd: Cmd)
      requires EndsWithin(cmd, buf.Length)
      modifies buf
      ensures forall k :: 0 <= k < buf.Length ==> buf[k] == if k in EndsOf(cmd) then NUL else old(buf[k])
      decreases cmd
    {
      match cmd {
        case Exec(argv) =>
          var i := 0;
          while i < |argv|
            invariant i <= |argv|
            invariant forall k :: 0 <= k < buf.Length ==>
                        buf[k] == if exists j :: 0 <= j < i && argv[j].eq == k then NUL else old(buf[k])
          {
            buf[argv[i].eq] := NUL;
            i := i + 1;
          }
        case Redir(d, file, _, _) =>
          NulTerminate(d);
          buf[file.eq] := NUL;
        case Piped(l, r) =>
          NulTerminate(l);
          NulTerminate(r);
        case List(l, r) =>
          NulTerminate(l);
          NulTerminate(r);
        case Back(d) =>
          NulTerminate(d);
      }
    }
  }

  predicate Angle(c: char) {
    c == '<' || c == '>'
  }

  lemma InAngles(c: char)
    ensures c != NUL && c in "<>" <==> Angle(c)
  {
  }

  lemma RedirsStep(b: string, s: nat, c: Cmd)
    requires s <= |b| && NUL !in b && Angle(At(b, Skip(b, s)))
    ensures var t := NextToken(b, Skip(b, s));
            && s < t.next
            && var f := NextToken(b, t.next);
               Redirs(b, s, c) == if f.kind != 'a' then Panic("missing file for redirection")
                                  else Redirs(b, f.next, Redirected(c, t.kind, Word(f.q, f.eq)))
  {
  }

  lemma RedirsStop(b: string, s: nat, c: Cmd)
    requires s <= |b| && NUL !in b && !Angle(At(b, Skip(b, s)))
    ensures Redirs(b, s, c) == Parsed(c, Skip(b, s))
  {
  }

  lemma InEnds(c: char)
    ensures c != NUL && c in "|)&;" <==> Ends(c)
  {
  }

  lemma ArgsStep(b: string, s: nat, ret: Cmd, argc: nat)
    requires s <= |b| && NUL !in b && !Ends(At(b, Skip(b, s)))
    ensures var t := NextToken(b, Skip(b, s));
            && Args(b, s, ret, argc) ==
               (if t.kind == NUL then Parsed(ret, t.next)
                else if t.kind != 'a' then Panic("syntax")
                else if argc + 1 >= MAXARGS then Panic("too many args")
                else match Redirs(b, t.next, AddArg(ret, Word(t.q, t.eq)))
                     case Parsed(more, s2) => Args(b, s2, more, argc + 1)
                     case Panic(m) => Panic(m))
  {
    hide TokensOk, Redirs, AddArg, Skip, At;
  }

  lemma ArgsStop(b: string, s: nat, ret: Cmd, argc: nat)
    requires s <= |b| && NUL !in b && Ends(At(b, Skip(b, s)))
    ensures Args(b, s, ret, argc) == Parsed(ret, Skip(b, s))
  {
  }

  lemma BacksStep(b: string, s: nat, c: Cmd)
    requires s <= |b| && NUL !in b && At(b, Skip(b, s)) == '&'
    ensures var t := NextToken(b, Skip(b, s)); Skip(b, s) < t.next && Backs(b, s, c) == Backs(b, t.next, Back(c))
  {
  }

  lemma BacksStop(b: string, s: nat, c: Cmd)
    requires s <= |b| && NUL !in b && At(b, Skip(b, s)) != '&'
    ensures Backs(b, s, c) == Parsed(c, Skip(b, s))
  {
  }

  lemma TakesSome(b: string, s: nat)
    requires s <= |b| && NUL !in b && At(b, s) != NUL
    ensures NextToken(b, s).next > s
  {
  }

  // ---- C strings

  /** Every word of a command. */
  function Words(c: Cmd): set<Word> {
    match c
    case Exec(argv) => set w | w in argv
    case Redir(d, file, _, _) => Words(d) + {file}
    case Piped(l, r) => Words(l) + Words(r)
    case List(l, r) => Words(l) + Words(r)
    case Back(d) => Words(d)
  }

  /** The places nulterminate writes to. */
  function EndsOf(c: Cmd): set<nat> {
    match c
    case Exec(argv) => set j | 0 <= j < |argv| :: argv[j].eq
    case Redir(d, file, _, _) => EndsOf(d) + {file.eq}
    case Piped(l, r) => EndsOf(l) + EndsOf(r)
    case List(l, r) => EndsOf(l) + EndsOf(r)
    case Back(d) => EndsOf(d)
  }

  /** Every word ends below n. */
  predicate EndsWithin(c: Cmd, n: nat) {
    match c
    case Exec(argv) => forall j :: 0 <= j < |argv| ==> argv[j].eq < n
    case Redir(d, file, _, _) => EndsWithin(d, n) && file.eq < n
    case Piped(l, r) => EndsWithin(l, n) && EndsWithin(r, n)
    case List(l, r) => EndsWithin(l, n) && EndsWithin(r, n)
    case Back(d) => EndsWithin(d, n)
  }

  lemma {:induction false} TokensWithin(b: string, c: Cmd, n: nat)
    requires TokensOk(b, c) && |b| < n
    ensures EndsWithin(c, n)
  {
    match c {
      case Exec(argv) =>
      case Redir(d, file, _, _) => TokensWithin(b, d, n);
      case Piped(l, r) => TokensWithin(b, l, n); TokensWithin(b, r, n);
      case List(l, r) => TokensWithin(b, l, n); TokensWithin(b, r, n);
      case Back(d) => TokensWithin(b, d, n);
    }
  }

  lemma {:induction false} WordEnds(b: string, c: Cmd)
    requires TokensOk(b, c)
    ensures forall w :: w in Words(c) ==> TokenOk(b, w) && w.eq in EndsOf(c)
    ensures forall e :: e in EndsOf(c) ==> exists w :: w in Words(c) && w.eq == e
    ensures forall e :: e in EndsOf(c) ==> e <= |b| && (e < |b| ==> !Plain(b[e]))
  {
    match c {
      case Exec(argv) =>
        forall e | e in EndsOf(c) ensures exists w :: w in Words(c) && w.eq == e {
          var j :| 0 <= j < |argv| && argv[j].eq == e;
          assert argv[j] in Words(c);
        }
      case Redir(d, file, _, _) => WordEnds(b, d);
      case Piped(l, r) => WordEnds(b, l); WordEnds(b, r);
      case List(l, r) => WordEnds(b, l); WordEnds(b, r);
      case Back(d) => WordEnds(b, d);
    }
  }

  /** What a C function reads from position s on. */
  function CString(a: string, s: nat): string
    decreases |a| - s
  {
    if s < |a| && a[s] != NUL then [a[s]] + CString(a, s + 1) else []
  }

  lemma {:induction false} CStringIs(a: string, s: nat, e: nat)
    requires s <= e < |a| && a[e] == NUL && forall k :: s <= k < e ==> a[k] != NUL
    ensures CString(a, s) == a[s..e]
    decreases e - s
  {
    if s < e { CStringIs(a, s + 1, e); }
  }

  /** No NUL lands inside a word: each reads as the C string it was in the line. */
  lemma Terminated(b: string, c: Cmd, a: string)
    requires NUL !in b && TokensOk(b, c) && |b| < |a|
    requires forall k :: 0 <= k <= |b| ==> a[k] == if k == |b| || k in EndsOf(c) then NUL else b[k]
    ensures forall w :: w in Words(c) ==> TokenOk(b, w) && CString(a, w.q) == b[w.q..w.eq]
  {
    hide TokensOk, Plain, Words, EndsOf, CString;
    WordEnds(b, c);
    forall w | w in Words(c) ensures CString(a, w.q) == b[w.q..w.eq] {
      WordTerminated(b, EndsOf(c), a, w);
    }
  }

  lemma WordTerminated(b: string, ends: set<nat>, a: string, w: Word)
    requires NUL !in b && |b| < |a| && TokenOk(b, w) && w.eq in ends
    requires forall e :: e in ends ==> e <= |b| && (e < |b| ==> !Plain(b[e]))
    requires forall k :: 0 <= k <= |b| ==> a[k] == if k == |b| || k in ends then NUL else b[k]
    ensures CString(a, w.q) == b[w.q..w.eq]
  {
    hide Plain, CString;
    forall k | w.q <= k < w.eq ensures a[k] == b[k] && a[k] != NUL {
      assert Plain(b[k]);
    }
    CStringIs(a, w.q, w.eq);
    assert a[w.q..w.eq] == b[w.q..w.eq];
  }
}
