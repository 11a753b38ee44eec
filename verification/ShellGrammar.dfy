/**
 The grammar of user/sh.c, twice: what the recursive-descent parser makes of a
 sequence of tokens, step by step, and which sequences of tokens stand for
 which tree.  The two agree.

   line ::= job | job ; line        job  ::= pipe | job &
   pipe ::= exec | exec '|' pipe    exec ::= ( line ) redirs | words and redirs
 */
module ShellGrammar {
  import opened ShellTokens

  const MAXARGS: nat := 10
  const O_RDONLY: nat := 0
  const O_WRONLY: nat := 1
  const O_CREATE: nat := 0x200
  const O_TRUNC: nat := 0x400

  datatype Cmd =
    | Exec(argv: seq<Word>)
    | Redir(cmd: Cmd, file: Word, mode: nat, fd: nat)
    | Pipe(left: Cmd, right: Cmd)
    | List(left: Cmd, right: Cmd)
    | Back(cmd: Cmd)

  datatype Redirection = Redirection(file: Word, mode: nat, fd: nat)

  // The panics
  datatype Error = Leftovers | MissingFile | NoBlock | MissingParen | BadToken | TooManyArgs

  function Wrap(cmd: Cmd, rs: seq<Redirection>): Cmd
    decreases |rs|
  {
    if rs == [] then cmd
    else var r := rs[|rs| - 1]; Redir(Wrap(cmd, rs[..|rs| - 1]), r.file, r.mode, r.fd)
  }

  predicate IsArrow(kind: char) {
    kind == '<' || kind == '>' || kind == '+'
  }

  // What parseredirs makes of a symbol and the word after it.
  function Redirected(kind: char, file: Word): Redirection {
    if kind == '<' then Redirection(file, O_RDONLY, 0)
    else Redirection(file, O_WRONLY + O_CREATE + (if kind == '>' then O_TRUNC else 0), 1)
  }

  // ---- which tokens stand for which tree

  // Words, and redirection symbols each followed by a word.
  ghost predicate IsSimple(ts: seq<Token>) {
    ts == [] ||
    if IsArrow(ts[0].kind) then |ts| > 1 && ts[1].kind == 'a' && IsSimple(ts[2..])
    else ts[0].kind == 'a' && IsSimple(ts[1..])
  }

  // The words that are not files, and the redirections, each in order.
  ghost function ArgsOf(ts: seq<Token>): seq<Word>
    requires IsSimple(ts)
  {
    if ts == [] then [] else if IsArrow(ts[0].kind) then ArgsOf(ts[2..]) else [ts[0].word] + ArgsOf(ts[1..])
  }

  ghost function RedirsOf(ts: seq<Token>): seq<Redirection>
    requires IsSimple(ts)
  {
    if ts == [] then []
    else if IsArrow(ts[0].kind) then [Redirected(ts[0].kind, ts[1].word)] + RedirsOf(ts[2..])
    else RedirsOf(ts[1..])
  }

  ghost predicate IsExec(ts: seq<Token>, cmd: Cmd)
    decreases |ts|, 1
  {
    || (IsSimple(ts) && |ArgsOf(ts)| < MAXARGS && cmd == Wrap(Exec(ArgsOf(ts)), RedirsOf(ts)))
    || exists k, c :: IsBlock(ts, k, c, cmd)
  }

  // A line in parentheses, the right one at place k, and redirections of the whole.
  ghost predicate IsBlock(ts: seq<Token>, k: nat, c: Cmd, cmd: Cmd)
    decreases |ts|, 0
  {
    && 0 < k < |ts| && ts[0].kind == '(' && ts[k].kind == ')' && IsLine(ts[1..k], c)
    && IsSimple(ts[k + 1..]) && ArgsOf(ts[k + 1..]) == [] && cmd == Wrap(c, RedirsOf(ts[k + 1..]))
  }

  ghost predicate IsPipe(ts: seq<Token>, cmd: Cmd)
    decreases |ts|, 3
  {
    IsExec(ts, cmd) || exists k :: IsPiped(ts, k, cmd)
  }

  ghost predicate IsPiped(ts: seq<Token>, k: nat, cmd: Cmd)
    decreases |ts|, 2
  {
    && k < |ts| && ts[k].kind == '|' && cmd.Pipe?
    && IsExec(ts[..k], cmd.left) && IsPipe(ts[k + 1..], cmd.right)
  }

  ghost predicate IsJob(ts: seq<Token>, cmd: Cmd)
    decreases |ts|, 4
  {
    || IsPipe(ts, cmd)
    || (ts != [] && ts[|ts| - 1].kind == '&' && cmd.Back? && IsJob(ts[..|ts| - 1], cmd.cmd))
  }

  ghost predicate IsLine(ts: seq<Token>, cmd: Cmd)
    decreases |ts|, 6
  {
    IsJob(ts, cmd) || exists k :: IsListed(ts, k, cmd)
  }

  ghost predicate IsListed(ts: seq<Token>, k: nat, cmd: Cmd)
    decreases |ts|, 5
  {
    && k < |ts| && ts[k].kind == ';' && cmd.List?
    && IsJob(ts[..k], cmd.left) && IsLine(ts[k + 1..], cmd.right)
  }

  // ---- what the parser makes of them

  datatype Parse = Good(cmd: Cmd, rest: seq<Token>) | Bad(error: Error)
  datatype Arrows = More(list: seq<Redirection>, rest: seq<Token>) | NoFile

  ghost function TakeArrows(ts: seq<Token>, list: seq<Redirection>): (r: Arrows)
    ensures r.More? ==> |r.rest| <= |ts|
    decreases |ts|
  {
    if ts == [] || !IsArrow(ts[0].kind) then More(list, ts)
    else if |ts| < 2 || ts[1].kind != 'a' then NoFile
    else TakeArrows(ts[2..], list + [Redirected(ts[0].kind, ts[1].word)])
  }

  predicate Stops(kind: char) {
    kind == '|' || kind == ')' || kind == '&' || kind == ';'
  }

  // The loop of parseexec.
  ghost function TakeArgs(ts: seq<Token>, argv: seq<Word>, rs: seq<Redirection>): (r: Parse)
    ensures r.Good? ==> |r.rest| <= |ts|
    decreases |ts|
  {
    if ts == [] || Stops(ts[0].kind) then Good(Wrap(Exec(argv), rs), ts)
    else if ts[0].kind != 'a' then Bad(BadToken)
    else if |argv| + 1 >= MAXARGS then Bad(TooManyArgs)
    else
      match TakeArrows(ts[1..], rs)
      case NoFile => Bad(MissingFile)
      case More(rs', rest) => TakeArgs(rest, argv + [ts[0].word], rs')
  }

  ghost function TakeExec(ts: seq<Token>): (r: Parse)
    ensures r.Good? ==> |r.rest| <= |ts|
    decreases |ts|, 1
  {
    if Kind(ts) == '(' then TakeBlock(ts)
    else
      match TakeArrows(ts, [])
      case NoFile => Bad(MissingFile)
      case More(rs, rest) => TakeArgs(rest, [], rs)
  }

  ghost function TakeBlock(ts: seq<Token>): (r: Parse)
    ensures r.Good? ==> |r.rest| <= |ts|
    decreases |ts|, 0
  {
    if ts == [] || Kind(ts) != '(' then Bad(NoBlock)
    else
      match TakeLine(ts[1..])
      case Bad(e) => Bad(e)
      case Good(c, rest) =>
        if rest == [] || Kind(rest) != ')' then Bad(MissingParen)
        else
          match TakeArrows(rest[1..], [])
          case NoFile => Bad(MissingFile)
          case More(rs, rest') => Good(Wrap(c, rs), rest')
  }

  ghost function TakePipe(ts: seq<Token>): (r: Parse)
    ensures r.Good? ==> |r.rest| <= |ts|
    decreases |ts|, 2
  {
    match TakeExec(ts)
    case Bad(e) => Bad(e)
    case Good(c, rest) =>
      if rest == [] || Kind(rest) != '|' then Good(c, rest)
      else
        match TakePipe(rest[1..])
        case Bad(e) => Bad(e)
        case Good(c', rest') => Good(Pipe(c, c'), rest')
  }

  ghost function TakeAmps(c: Cmd, ts: seq<Token>): (r: Parse)
    ensures r.Good? && |r.rest| <= |ts|
    decreases |ts|
  {
    if ts == [] || Kind(ts) != '&' then Good(c, ts) else TakeAmps(Back(c), ts[1..])
  }

  ghost function TakeJob(ts: seq<Token>): (r: Parse)
    ensures r.Good? ==> |r.rest| <= |ts|
    decreases |ts|, 3
  {
    match TakePipe(ts)
    case Bad(e) => Bad(e)
    case Good(c, rest) => TakeAmps(c, rest)
  }

  ghost function TakeLine(ts: seq<Token>): (r: Parse)
    ensures r.Good? ==> |r.rest| <= |ts|
    decreases |ts|, 4
  {
    match TakeJob(ts)
    case Bad(e) => Bad(e)
    case Good(c, rest) =>
      if rest == [] || Kind(rest) != ';' then Good(c, rest)
      else
        match TakeLine(rest[1..])
        case Bad(e) => Bad(e)
        case Good(c', rest') => Good(List(c, c'), rest')
  }

  // ---- what it accepts is in the grammar

  // The first tokens of ts, up to those in rest.
  ghost function Upto(ts: seq<Token>, rest: seq<Token>): seq<Token>
    requires |rest| <= |ts|
  {
    ts[..|ts| - |rest|]
  }

  ghost predicate Leaves(ts: seq<Token>, rest: seq<Token>) {
    |rest| <= |ts| && rest == ts[|ts| - |rest|..]
  }

  lemma LeavesMore(ts: seq<Token>, n: nat, rest: seq<Token>)
    requires n <= |ts| && Leaves(ts[n..], rest)
    ensures Leaves(ts, rest) && Upto(ts, rest) == ts[..n] + Upto(ts[n..], rest)
  {
  }

  lemma LeavesAll(ts: seq<Token>, rest: seq<Token>)
    requires Leaves(ts, rest)
    ensures ts == Upto(ts, rest) + rest
  {
  }

  lemma LeavesChain(ts: seq<Token>, mid: seq<Token>, rest: seq<Token>)
    requires Leaves(ts, mid) && Leaves(mid, rest)
    ensures Leaves(ts, rest) && Upto(ts, rest) == Upto(ts, mid) + Upto(mid, rest)
  {
    var n, k := |ts| - |mid|, |mid| - |rest|;
    assert mid == ts[n..] && mid[..k] == ts[n..n + k];
  }

  lemma {:induction false} SimpleBoth(a: seq<Token>, b: seq<Token>)
    requires IsSimple(a) && IsSimple(b)
    ensures IsSimple(a + b) && ArgsOf(a + b) == ArgsOf(a) + ArgsOf(b) && RedirsOf(a + b) == RedirsOf(a) + RedirsOf(b)
    decreases |a|
  {
    if a == [] {
      assert a + b == b;
    } else {
      var n := if IsArrow(a[0].kind) then 2 else 1;
      assert (a + b)[n..] == a[n..] + b;
      SimpleBoth(a[n..], b);
    }
  }

  lemma {:induction false} ArrowsSound(ts: seq<Token>, list: seq<Redirection>)
    requires TakeArrows(ts, list).More?
    ensures var r := TakeArrows(ts, list); var u := Upto(ts, r.rest);
      && Leaves(ts, r.rest) && IsSimple(u) && ArgsOf(u) == [] && r.list == list + RedirsOf(u)
    decreases |ts|
  {
    if ts != [] && IsArrow(ts[0].kind) {
      ArrowsSound(ts[2..], list + [Redirected(ts[0].kind, ts[1].word)]);
      var rest := TakeArrows(ts, list).rest;
      LeavesMore(ts, 2, rest);
      assert Upto(ts, rest)[2..] == Upto(ts[2..], rest);
    }
  }

  lemma {:induction false} ArgsSound(ts: seq<Token>, argv: seq<Word>, rs: seq<Redirection>)
    requires TakeArgs(ts, argv, rs).Good? && |argv| < MAXARGS
    ensures var r := TakeArgs(ts, argv, rs); var u := Upto(ts, r.rest);
      && Leaves(ts, r.rest) && IsSimple(u) && |argv + ArgsOf(u)| < MAXARGS
      && r.cmd == Wrap(Exec(argv + ArgsOf(u)), rs + RedirsOf(u))
    decreases |ts|
  {
    if ts == [] || Stops(ts[0].kind) {
      assert argv + [] == argv && rs + [] == rs;
    } else {
      var w, m := ts[0].word, TakeArrows(ts[1..], rs);
      ArrowsSound(ts[1..], rs);
      ArgsSound(m.rest, argv + [w], m.list);
      var rest := TakeArgs(ts, argv, rs).rest;
      ArgsStep(ts, m.rest, rest, argv, rs);
    }
  }

  // A word, redirections, then more of the same.
  lemma ArgsStep(ts: seq<Token>, mid: seq<Token>, rest: seq<Token>, argv: seq<Word>, rs: seq<Redirection>)
    requires ts != [] && ts[0].kind == 'a' && Leaves(ts[1..], mid) && Leaves(mid, rest)
    requires IsSimple(Upto(ts[1..], mid)) && ArgsOf(Upto(ts[1..], mid)) == [] && IsSimple(Upto(mid, rest))
    ensures Leaves(ts, rest) && IsSimple(Upto(ts, rest))
    ensures argv + ArgsOf(Upto(ts, rest)) == argv + [ts[0].word] + ArgsOf(Upto(mid, rest))
    ensures rs + RedirsOf(Upto(ts, rest)) == rs + RedirsOf(Upto(ts[1..], mid)) + RedirsOf(Upto(mid, rest))
  {
    hide IsSimple, ArgsOf, RedirsOf, Upto;
    var a, b := Upto(ts[1..], mid), Upto(mid, rest);
    SimpleBoth(a, b);
    OneWord(ts[0]);
    SimpleBoth([ts[0]], a + b);
    LeavesChain(ts[1..], mid, rest);
    LeavesMore(ts, 1, rest);
    assert ts[..1] == [ts[0]];
  }

  lemma OneWord(t: Token)
    requires t.kind == 'a'
    ensures IsSimple([t]) && ArgsOf([t]) == [t.word] && RedirsOf([t]) == []
  {
  }

  lemma {:induction false} ExecSound(ts: seq<Token>)
    requires TakeExec(ts).Good?
    ensures var r := TakeExec(ts); Leaves(ts, r.rest) && IsExec(Upto(ts, r.rest), r.cmd)
    decreases |ts|, 1
  {
    if Kind(ts) == '(' {
      BlockSound(ts);
    } else {
      var m := TakeArrows(ts, []);
      ArrowsSound(ts, []);
      ArgsSound(m.rest, [], m.list);
      SimpleIs(ts, m.rest, TakeExec(ts).rest, m.list);
    }
  }

  // Redirections, then words and redirections.
  lemma SimpleIs(ts: seq<Token>, mid: seq<Token>, rest: seq<Token>, rs: seq<Redirection>)
    requires Leaves(ts, mid) && Leaves(mid, rest) && IsSimple(Upto(ts, mid)) && IsSimple(Upto(mid, rest))
    requires ArgsOf(Upto(ts, mid)) == [] && rs == [] + RedirsOf(Upto(ts, mid))
      && |[] + ArgsOf(Upto(mid, rest))| < MAXARGS
    ensures Leaves(ts, rest)
    ensures IsExec(Upto(ts, rest), Wrap(Exec([] + ArgsOf(Upto(mid, rest))), rs + RedirsOf(Upto(mid, rest))))
  {
    hide IsSimple, ArgsOf, RedirsOf, Wrap;
    var a, b := Upto(ts, mid), Upto(mid, rest);
    SimpleBoth(a, b);
    assert Upto(ts, rest) == a + b;
    assert [] + ArgsOf(b) == ArgsOf(a + b) && [] + RedirsOf(a) == RedirsOf(a);
  }

  lemma {:induction false} BlockSound(ts: seq<Token>)
    requires TakeBlock(ts).Good?
    ensures var r := TakeBlock(ts); Leaves(ts, r.rest) && exists k, c :: IsBlock(Upto(ts, r.rest), k, c, r.cmd)
    decreases |ts|, 0
  {
    var inner, r := TakeLine(ts[1..]), TakeBlock(ts);
    LineSound(ts[1..]);
    ArrowsSound(inner.rest[1..], []);
    BlockIs(ts, inner.cmd, inner.rest, r.rest);
    assert [] + RedirsOf(Upto(inner.rest[1..], r.rest)) == RedirsOf(Upto(inner.rest[1..], r.rest));
  }

  lemma BlockIs(ts: seq<Token>, c: Cmd, mid: seq<Token>, rest: seq<Token>)
    requires ts != [] && ts[0].kind == '(' && Leaves(ts[1..], mid) && IsLine(Upto(ts[1..], mid), c)
    requires mid != [] && mid[0].kind == ')' && Leaves(mid[1..], rest)
    requires IsSimple(Upto(mid[1..], rest)) && ArgsOf(Upto(mid[1..], rest)) == []
    ensures Leaves(ts, rest) && exists k :: IsBlock(Upto(ts, rest), k, c, Wrap(c, RedirsOf(Upto(mid[1..], rest))))
  {
    hide IsSimple, ArgsOf, RedirsOf, Wrap, IsLine, Upto;
    var a, b := Upto(ts[1..], mid), Upto(mid[1..], rest);
    LeavesMore(mid, 1, rest);
    LeavesChain(ts[1..], mid, rest);
    LeavesMore(ts, 1, rest);
    BlockAt(ts[0], a, mid[0], b, c);
    assert ts[..1] == [ts[0]] && mid[..1] == [mid[0]];
  }

  lemma BlockAt(open: Token, a: seq<Token>, close: Token, b: seq<Token>, c: Cmd)
    requires open.kind == '(' && close.kind == ')' && IsLine(a, c) && IsSimple(b) && ArgsOf(b) == []
    ensures IsBlock([open] + (a + ([close] + b)), |a| + 1, c, Wrap(c, RedirsOf(b)))
  {
    hide IsSimple, ArgsOf, RedirsOf, Wrap, IsLine;
    var u, k := [open] + (a + ([close] + b)), |a| + 1;
    assert u[1..k] == a && u[k] == close && u[k + 1..] == b;
  }

  lemma {:induction false} PipeSound(ts: seq<Token>)
    requires TakePipe(ts).Good?
    ensures var r := TakePipe(ts); Leaves(ts, r.rest) && IsPipe(Upto(ts, r.rest), r.cmd)
    decreases |ts|, 2
  {
    ExecSound(ts);
    var l, r := TakeExec(ts), TakePipe(ts);
    if l.rest != [] && Kind(l.rest) == '|' {
      PipeSound(l.rest[1..]);
      var k := Between(ts, l.rest, r.rest);
      assert IsPiped(Upto(ts, r.rest), k, r.cmd);
    }
  }

  // The symbol between two operands.
  lemma Between(ts: seq<Token>, mid: seq<Token>, rest: seq<Token>) returns (k: nat)
    requires Leaves(ts, mid) && mid != [] && Leaves(mid[1..], rest)
    ensures Leaves(ts, rest) && k < |Upto(ts, rest)| && Upto(ts, rest)[k] == mid[0]
    ensures Upto(ts, rest)[..k] == Upto(ts, mid) && Upto(ts, rest)[k + 1..] == Upto(mid[1..], rest)
  {
    k := |Upto(ts, mid)|;
    assert ts == Upto(ts, mid) + [mid[0]] + Upto(mid[1..], rest) + rest;
    assert Upto(ts, rest) == Upto(ts, mid) + [mid[0]] + Upto(mid[1..], rest);
  }

  // u is a job, and ampersands follow.
  lemma {:induction false} AmpsSound(u: seq<Token>, c: Cmd, ts: seq<Token>)
    requires IsJob(u, c)
    ensures var r := TakeAmps(c, ts); Leaves(u + ts, r.rest) && IsJob(Upto(u + ts, r.rest), r.cmd)
    decreases |ts|
  {
    if ts != [] && Kind(ts) == '&' {
      var u' := u + [ts[0]];
      assert u'[..|u'| - 1] == u && u' + ts[1..] == u + ts;
      AmpsSound(u', Back(c), ts[1..]);
    } else {
      assert Upto(u + ts, ts) == u;
    }
  }

  lemma {:induction false} JobSound(ts: seq<Token>)
    requires TakeJob(ts).Good?
    ensures var r := TakeJob(ts); Leaves(ts, r.rest) && IsJob(Upto(ts, r.rest), r.cmd)
    decreases |ts|, 3
  {
    hide Upto, IsPipe, TakePipe, TakeAmps;
    PipeSound(ts);
    var p := TakePipe(ts);
    AmpsSound(Upto(ts, p.rest), p.cmd, p.rest);
    LeavesAll(ts, p.rest);
  }

  lemma {:induction false} LineSound(ts: seq<Token>)
    requires TakeLine(ts).Good?
    ensures var r := TakeLine(ts); Leaves(ts, r.rest) && IsLine(Upto(ts, r.rest), r.cmd)
    decreases |ts|, 4
  {
    JobSound(ts);
    var l, r := TakeJob(ts), TakeLine(ts);
    if l.rest != [] && Kind(l.rest) == ';' {
      LineSound(l.rest[1..]);
      var k := Between(ts, l.rest, r.rest);
      assert IsListed(Upto(ts, r.rest), k, r.cmd);
    }
  }

  // ---- and all of the grammar is accepted

  // u is words and redirections; a symbol that ends a command, or nothing, comes next.
  lemma {:induction false} SimpleComplete(u: seq<Token>, v: seq<Token>, argv: seq<Word>, rs: seq<Redirection>)
    requires IsSimple(u) && (v == [] || Stops(v[0].kind)) && |argv + ArgsOf(u)| < MAXARGS
    ensures var m := TakeArrows(u + v, rs);
      m.More? && TakeArgs(m.rest, argv, m.list) == Good(Wrap(Exec(argv + ArgsOf(u)), rs + RedirsOf(u)), v)
    decreases |u|
  {
    hide Wrap, Redirected;
    if u == [] {
      assert u + v == v && argv + [] == argv && rs + [] == rs;
    } else if IsArrow(u[0].kind) {
      var r := Redirected(u[0].kind, u[1].word);
      assert (u + v)[2..] == u[2..] + v && (u + v)[1] == u[1];
      SimpleComplete(u[2..], v, argv, rs + [r]);
      assert rs + [r] + RedirsOf(u[2..]) == rs + RedirsOf(u);
    } else {
      var w := u[0].word;
      assert (u + v)[1..] == u[1..] + v;
      assert argv + [w] + ArgsOf(u[1..]) == argv + ArgsOf(u);
      SimpleComplete(u[1..], v, argv + [w], rs);
    }
  }

  lemma {:induction false} ArrowsComplete(u: seq<Token>, v: seq<Token>, rs: seq<Redirection>)
    requires IsSimple(u) && ArgsOf(u) == [] && (v == [] || Stops(v[0].kind))
    ensures TakeArrows(u + v, rs) == More(rs + RedirsOf(u), v)
    decreases |u|
  {
    if u == [] {
      assert u + v == v && rs + [] == rs;
    } else {
      var r := Redirected(u[0].kind, u[1].word);
      assert (u + v)[2..] == u[2..] + v && (u + v)[1] == u[1];
      ArrowsComplete(u[2..], v, rs + [r]);
      assert rs + [r] + RedirsOf(u[2..]) == rs + RedirsOf(u);
    }
  }

  lemma {:induction false} ExecComplete(u: seq<Token>, v: seq<Token>, cmd: Cmd)
    requires IsExec(u, cmd) && (v == [] || Stops(v[0].kind))
    ensures TakeExec(u + v) == Good(cmd, v)
    decreases |u|, 1
  {
    if k: nat, c :| IsBlock(u, k, c, cmd) {
      BlockComplete(u, v, k, c, cmd);
    } else {
      NoParen(u, v);
      assert [] + ArgsOf(u) == ArgsOf(u) && [] + RedirsOf(u) == RedirsOf(u);
      SimpleComplete(u, v, [], []);
    }
  }

  lemma NoParen(u: seq<Token>, v: seq<Token>)
    requires IsSimple(u) && (v == [] || Stops(v[0].kind))
    ensures Kind(u + v) != '('
  {
    if u == [] {
      assert u + v == v;
    }
  }

  lemma {:induction false} BlockComplete(u: seq<Token>, v: seq<Token>, k: nat, c: Cmd, cmd: Cmd)
    requires IsBlock(u, k, c, cmd) && (v == [] || Stops(v[0].kind))
    ensures TakeExec(u + v) == Good(cmd, v)
    decreases |u|, 0
  {
    var a, b := u[1..k], u[k + 1..];
    var mid := [u[k]] + (b + v);
    assert (u + v)[1..] == a + mid;
    LineComplete(a, mid, c);
    assert mid[1..] == b + v;
    ArrowsComplete(b, v, []);
    assert [] + RedirsOf(b) == RedirsOf(b);
  }

  lemma {:induction false} PipeComplete(u: seq<Token>, v: seq<Token>, cmd: Cmd)
    requires IsPipe(u, cmd) && (v == [] || (Stops(v[0].kind) && v[0].kind != '|'))
    ensures TakePipe(u + v) == Good(cmd, v)
    decreases |u|, 2
  {
    if k: nat :| IsPiped(u, k, cmd) {
      var mid := [u[k]] + (u[k + 1..] + v);
      assert u + v == u[..k] + mid;
      ExecComplete(u[..k], mid, cmd.left);
      assert mid[1..] == u[k + 1..] + v;
      PipeComplete(u[k + 1..], v, cmd.right);
    } else {
      ExecComplete(u, v, cmd);
    }
  }

  lemma {:induction false} JobComplete(u: seq<Token>, v: seq<Token>, cmd: Cmd)
    requires IsJob(u, cmd) && (v == [] || (Stops(v[0].kind) && v[0].kind != '|'))
    ensures TakeJob(u + v) == TakeAmps(cmd, v)
    decreases |u|, 3
  {
    if IsPipe(u, cmd) {
      PipeComplete(u, v, cmd);
    } else {
      var n := |u| - 1;
      assert u + v == u[..n] + ([u[n]] + v);
      JobComplete(u[..n], [u[n]] + v, cmd.cmd);
      assert ([u[n]] + v)[1..] == v;
    }
  }

  lemma {:induction false} LineComplete(u: seq<Token>, v: seq<Token>, cmd: Cmd)
    requires IsLine(u, cmd) && (v == [] || v[0].kind == ')')
    ensures TakeLine(u + v) == Good(cmd, v)
    decreases |u|, 4
  {
    if k: nat :| IsListed(u, k, cmd) {
      var mid := [u[k]] + (u[k + 1..] + v);
      assert u + v == u[..k] + mid;
      JobComplete(u[..k], mid, cmd.left);
      assert mid[1..] == u[k + 1..] + v;
      LineComplete(u[k + 1..], v, cmd.right);
    } else {
      JobComplete(u, v, cmd);
    }
  }

  /** The parser takes all the tokens exactly when they are a line of the grammar, and then gives its tree. */
  lemma ParsesGrammar(ts: seq<Token>, cmd: Cmd)
    ensures TakeLine(ts) == Good(cmd, []) <==> IsLine(ts, cmd)
  {
    if TakeLine(ts) == Good(cmd, []) {
      LineSound(ts);
      assert Upto(ts, []) == ts;
    }
    if IsLine(ts, cmd) {
      LineComplete(ts, [], cmd);
      assert ts + [] == ts;
    }
  }

  /** No line has two trees. */
  lemma Unambiguous(ts: seq<Token>, a: Cmd, b: Cmd)
    requires IsLine(ts, a) && IsLine(ts, b)
    ensures a == b
  {
    ParsesGrammar(ts, a);
    ParsesGrammar(ts, b);
  }

  // ---- the words of a tree

  ghost function Words(cmd: Cmd): multiset<Word> {
    match cmd
    case Exec(argv) => multiset(argv)
    case Redir(c, file, _, _) => Words(c) + multiset{file}
    case Pipe(l, r) => Words(l) + Words(r)
    case List(l, r) => Words(l) + Words(r)
    case Back(c) => Words(c)
  }

  ghost function Files(rs: seq<Redirection>): multiset<Word> {
    if rs == [] then multiset{} else Files(rs[..|rs| - 1]) + multiset{rs[|rs| - 1].file}
  }

  lemma {:induction false} FilesBoth(a: seq<Redirection>, b: seq<Redirection>)
    ensures Files(a + b) == Files(a) + Files(b)
    decreases |b|
  {
    if b == [] {
      assert a + b == a;
    } else {
      var m := |b| - 1;
      assert (a + b)[..|a + b| - 1] == a + b[..m];
      FilesBoth(a, b[..m]);
    }
  }

  lemma {:induction false} WrapWords(cmd: Cmd, rs: seq<Redirection>)
    ensures Words(Wrap(cmd, rs)) == Words(cmd) + Files(rs)
    decreases |rs|
  {
    if rs != [] {
      WrapWords(cmd, rs[..|rs| - 1]);
    }
  }

  lemma OneFile(arrow: Token, file: Token, ts: seq<Token>, rs: seq<Redirection>)
    requires IsArrow(arrow.kind) && file.kind == 'a'
    ensures WordsIn([arrow, file] + ts) == multiset{file.word} + WordsIn(ts)
    ensures Files([Redirected(arrow.kind, file.word)] + rs) == multiset{file.word} + Files(rs)
  {
    var r := Redirected(arrow.kind, file.word);
    FilesBoth([r], rs);
    assert [r][..0] == [];
    var all := [arrow, file] + ts;
    assert all[1..] == [file] + ts && ([file] + ts)[1..] == ts;
    assert WordsIn(all) == WordsIn([file] + ts);
  }

  lemma OneArg(t: Token, ts: seq<Token>, args: seq<Word>)
    requires t.kind == 'a'
    ensures WordsIn([t] + ts) == multiset{t.word} + WordsIn(ts)
    ensures multiset([t.word] + args) == multiset{t.word} + multiset(args)
  {
    assert ([t] + ts)[1..] == ts;
  }

  lemma {:induction false} SimpleWords(ts: seq<Token>)
    requires IsSimple(ts)
    ensures WordsIn(ts) == multiset(ArgsOf(ts)) + Files(RedirsOf(ts))
    decreases |ts|
  {
    hide Files, WordsIn, Redirected;
    if ts == [] {
      NoWords();
    } else if IsArrow(ts[0].kind) {
      SimpleWords(ts[2..]);
      OneFile(ts[0], ts[1], ts[2..], RedirsOf(ts[2..]));
      assert ts == [ts[0], ts[1]] + ts[2..];
    } else {
      SimpleWords(ts[1..]);
      OneArg(ts[0], ts[1..], ArgsOf(ts[1..]));
      assert ts == [ts[0]] + ts[1..];
    }
  }

  lemma NoWords()
    ensures WordsIn([]) == multiset{} && Files([]) == multiset{}
  {
  }

  /** Every word of a line is in its tree, as often as it is in the line. */
  lemma {:induction false} LineHasWords(ts: seq<Token>, cmd: Cmd)
    requires IsLine(ts, cmd)
    ensures Words(cmd) == WordsIn(ts)
    decreases |ts|, 4
  {
    if k: nat :| IsListed(ts, k, cmd) {
      JobHasWords(ts[..k], cmd.left);
      LineHasWords(ts[k + 1..], cmd.right);
      SplitWords(ts, k);
    } else {
      JobHasWords(ts, cmd);
    }
  }

  // An operator is no word.
  lemma SplitWords(ts: seq<Token>, k: nat)
    requires k < |ts| && ts[k].kind != 'a'
    ensures WordsIn(ts) == WordsIn(ts[..k]) + WordsIn(ts[k + 1..])
  {
    WordsOfBoth(ts[..k], ts[k..]);
    assert ts == ts[..k] + ts[k..] && ts[k..][1..] == ts[k + 1..];
  }

  lemma {:induction false} JobHasWords(ts: seq<Token>, cmd: Cmd)
    requires IsJob(ts, cmd)
    ensures Words(cmd) == WordsIn(ts)
    decreases |ts|, 3
  {
    if IsPipe(ts, cmd) {
      PipeHasWords(ts, cmd);
    } else {
      var n := |ts| - 1;
      JobHasWords(ts[..n], cmd.cmd);
      SplitWords(ts, n);
    }
  }

  lemma {:induction false} PipeHasWords(ts: seq<Token>, cmd: Cmd)
    requires IsPipe(ts, cmd)
    ensures Words(cmd) == WordsIn(ts)
    decreases |ts|, 2
  {
    if k: nat :| IsPiped(ts, k, cmd) {
      ExecHasWords(ts[..k], cmd.left);
      PipeHasWords(ts[k + 1..], cmd.right);
      SplitWords(ts, k);
    } else {
      ExecHasWords(ts, cmd);
    }
  }

  lemma {:induction false} ExecHasWords(ts: seq<Token>, cmd: Cmd)
    requires IsExec(ts, cmd)
    ensures Words(cmd) == WordsIn(ts)
    decreases |ts|, 1
  {
    if k: nat, c :| IsBlock(ts, k, c, cmd) {
      BlockHasWords(ts, k, c, cmd);
    } else {
      SimpleWords(ts);
      WrapWords(Exec(ArgsOf(ts)), RedirsOf(ts));
    }
  }

  lemma {:induction false} BlockHasWords(ts: seq<Token>, k: nat, c: Cmd, cmd: Cmd)
    requires IsBlock(ts, k, c, cmd)
    ensures Words(cmd) == WordsIn(ts)
    decreases |ts|, 0
  {
    LineHasWords(ts[1..k], c);
    SimpleWords(ts[k + 1..]);
    WrapWords(c, RedirsOf(ts[k + 1..]));
    SplitWords(ts, k);
    assert ts[..k][1..] == ts[1..k];
  }
}
