/**
 The recursive-descent parser of user/sh.c and nulterminate.  In the source an
 execcmd is filled in after redircmds have been put around it; here its
 arguments and its redirections are collected and put together at the end.
 */
module ShellParser {
  import opened ShellTokens
  import opened ShellGrammar

  datatype Result = Ok(cmd: Cmd) | Syntax(error: Error)
  datatype Redirs = Found(list: seq<Redirection>) | Missing

  // The parser is at s' with the result that p says, and with the tokens ahead that p leaves.
  ghost predicate Gives(line: string, p: Parse, r: Result, s': nat) {
    && s' <= |line|
    && match p
       case Bad(e) => r == Syntax(e)
       case Good(c, rest) => r == Ok(c) && Tokens(line, s') == rest
  }

  ghost predicate GivesArrows(line: string, p: Arrows, rs: Redirs, s': nat) {
    && s' <= |line|
    && match p
       case NoFile => rs == Missing
       case More(list, rest) => rs == Found(list) && Tokens(line, s') == rest
  }

  /** parseredirs: the redirections from s on, in order, after those of rs0. */
  method ParseRedirs(line: string, s: nat, rs0: seq<Redirection>) returns (rs: Redirs, s': nat)
    requires Plain(line) && s <= |line|
    ensures s <= s' && GivesArrows(line, TakeArrows(Tokens(line, s), rs0), rs, s')
  {
    hide Tok, Tokens, Skip, Redirected;
    var list := rs0;
    var more;
    Ahead(line, s);
    more, s' := Peek(line, s, "<>");
    while more
      invariant s <= s' <= |line| && (more <==> IsArrow(Kind(Tokens(line, s'))))
      invariant TakeArrows(Tokens(line, s), rs0) == TakeArrows(Tokens(line, s'), list)
      decreases |line| - s', if more then 1 else 0
    {
      Ahead(line, s');
      var tok := GetToken(line, s');
      Ahead(line, tok.next);
      var file := GetToken(line, tok.next);
      Progress(line, s');
      ghost var ts := Tokens(line, s');
      assert ts[1..] == Tokens(line, tok.next);
      if file.kind != 'a' {
        return Missing, s';
      }
      assert ts[1] == file && ts[2..] == ts[1..][1..];
      list := list + [Redirected(tok.kind, file.word)];
      Ahead(line, file.next);
      more, s' := Peek(line, file.next, "<>");
    }
    return Found(list), s';
  }

  // A token is consumed.
  lemma Progress(line: string, s: nat)
    requires s <= |line| && Tokens(line, s) != []
    ensures s < Tok(line, s).next <= |line|
  {
  }

  /** parseexec: a block, or a command with its arguments and redirections. */
  method ParseExec(line: string, s: nat) returns (r: Result, s': nat)
    requires Plain(line) && s <= |line|
    ensures s <= s' && Gives(line, TakeExec(Tokens(line, s)), r, s')
    decreases |line| - s, 1
  {
    hide Tok, Tokens, Skip, TakeArrows, TakeBlock, Wrap;
    var found;
    Ahead(line, s);
    found, s' := Peek(line, s, "(");
    if found {
      r, s' := ParseBlock(line, s');
      return;
    }
    var rs;
    rs, s' := ParseRedirs(line, s', []);
    if rs.Missing? {
      return Syntax(MissingFile), s';
    }
    r, s' := ParseArgs(line, s', rs.list);
  }

  /** The loop of parseexec. */
  method ParseArgs(line: string, s: nat, rs0: seq<Redirection>) returns (r: Result, s': nat)
    requires Plain(line) && s <= |line|
    ensures s <= s' && Gives(line, TakeArgs(Tokens(line, s), [], rs0), r, s')
  {
    hide Tok, Tokens, Skip, TakeArrows, Wrap;
    var argv: seq<Word>, rs := [], Found(rs0);
    var found;
    Ahead(line, s);
    found, s' := Peek(line, s, "|)&;");
    while !found
      invariant rs.Found? && s <= s' <= |line| && (found <==> Stops(Kind(Tokens(line, s'))))
      invariant TakeArgs(Tokens(line, s), [], rs0) == TakeArgs(Tokens(line, s'), argv, rs.list)
      decreases |line| - s', if found then 0 else 1
    {
      Ahead(line, s');
      var tok := GetToken(line, s');
      if tok.kind == NUL {
        break;
      }
      Progress(line, s');
      if tok.kind != 'a' {
        return Syntax(BadToken), tok.next;
      }
      if |argv| + 1 >= MAXARGS {
        return Syntax(TooManyArgs), tok.next;
      }
      argv := argv + [tok.word];
      rs, s' := ParseRedirs(line, tok.next, rs.list);
      if rs.Missing? {
        return Syntax(MissingFile), s';
      }
      Ahead(line, s');
      found, s' := Peek(line, s', "|)&;");
    }
    return Ok(Wrap(Exec(argv), rs.list)), s';
  }

  /** parseblock: a line in parentheses, and redirections of the whole. */
  method ParseBlock(line: string, s: nat) returns (r: Result, s': nat)
    requires Plain(line) && s <= |line|
    ensures s <= s' && Gives(line, TakeBlock(Tokens(line, s)), r, s')
    decreases |line| - s, 0
  {
    hide Tok, Tokens, Skip, TakeArrows, TakeLine, Wrap;
    var found;
    Ahead(line, s);
    found, s' := Peek(line, s, "(");
    if !found {
      return Syntax(NoBlock), s';
    }
    Ahead(line, s');
    Progress(line, s');
    var tok := GetToken(line, s');
    r, s' := ParseLine(line, tok.next);
    if r.Syntax? {
      return;
    }
    Ahead(line, s');
    found, s' := Peek(line, s', ")");
    if !found {
      return Syntax(MissingParen), s';
    }
    Ahead(line, s');
    Progress(line, s');
    tok := GetToken(line, s');
    var rs;
    rs, s' := ParseRedirs(line, tok.next, []);
    if rs.Missing? {
      return Syntax(MissingFile), s';
    }
    return Ok(Wrap(r.cmd, rs.list)), s';
  }

  /** parsepipe. */
  method ParsePipe(line: string, s: nat) returns (r: Result, s': nat)
    requires Plain(line) && s <= |line|
    ensures s <= s' && Gives(line, TakePipe(Tokens(line, s)), r, s')
    decreases |line| - s, 2
  {
    hide Tok, Tokens, Skip, TakeExec;
    r, s' := ParseExec(line, s);
    if r.Syntax? {
      return;
    }
    var found;
    Ahead(line, s');
    found, s' := Peek(line, s', "|");
    if found {
      Ahead(line, s');
      Progress(line, s');
      var tok := GetToken(line, s');
      var right;
      right, s' := ParsePipe(line, tok.next);
      if right.Syntax? {
        return right, s';
      }
      return Ok(Pipe(r.cmd, right.cmd)), s';
    }
  }

  /** parseline. */
  method ParseLine(line: string, s: nat) returns (r: Result, s': nat)
    requires Plain(line) && s <= |line|
    ensures s <= s' && Gives(line, TakeLine(Tokens(line, s)), r, s')
    decreases |line| - s, 3
  {
    hide Tok, Tokens, Skip, TakePipe;
    r, s' := ParsePipe(line, s);
    if r.Syntax? {
      return;
    }
    var found;
    Ahead(line, s');
    found, s' := Peek(line, s', "&");
    while found
      invariant s <= s' <= |line| && r.Ok? && (found <==> Kind(Tokens(line, s')) == '&')
      invariant TakeJob(Tokens(line, s)) == TakeAmps(r.cmd, Tokens(line, s'))
      decreases |line| - s', if found then 1 else 0
    {
      Ahead(line, s');
      Progress(line, s');
      var tok := GetToken(line, s');
      r := Ok(Back(r.cmd));
      Ahead(line, tok.next);
      found, s' := Peek(line, tok.next, "&");
    }
    Ahead(line, s');
    found, s' := Peek(line, s', ";");
    if found {
      Ahead(line, s');
      Progress(line, s');
      var tok := GetToken(line, s');
      var right;
      right, s' := ParseLine(line, tok.next);
      if right.Syntax? {
        return right, s';
      }
      return Ok(List(r.cmd, right.cmd)), s';
    }
  }

  // ---- nulterminate

  // Position i is the end of a word of the tree.
  ghost predicate IsEnd(cmd: Cmd, i: nat) {
    exists w :: w in Words(cmd) && w.eq == i
  }

  lemma EndsOfTwo(l: Cmd, r: Cmd, i: nat)
    ensures IsEnd(Pipe(l, r), i) <==> IsEnd(l, i) || IsEnd(r, i)
    ensures IsEnd(List(l, r), i) <==> IsEnd(l, i) || IsEnd(r, i)
  {
    if IsEnd(l, i) || IsEnd(r, i) {
      var w :| (w in Words(l) || w in Words(r)) && w.eq == i;
      assert w in Words(Pipe(l, r)) && w in Words(List(l, r));
    }
    if IsEnd(Pipe(l, r), i) || IsEnd(List(l, r), i) {
      var w :| w in Words(l) + Words(r) && w.eq == i;
      assert w in Words(l) || w in Words(r);
    }
  }

  lemma EndsOfRedir(c: Cmd, file: Word, mode: nat, fd: nat, i: nat)
    ensures IsEnd(Redir(c, file, mode, fd), i) <==> IsEnd(c, i) || i == file.eq
  {
    if IsEnd(c, i) {
      var w :| w in Words(c) && w.eq == i;
      assert w in Words(Redir(c, file, mode, fd));
    }
    assert file in Words(Redir(c, file, mode, fd));
  }

  /** nulterminate: a NUL at the end of each word of the tree, and no other change. */
  method Nulterminate(cmd: Cmd, buf: array<char>)
    requires forall w :: w in Words(cmd) ==> w.eq < buf.Length
    modifies buf
    ensures forall i :: 0 <= i < buf.Length ==> buf[i] == if IsEnd(cmd, i) then NUL else old(buf[i])
    decreases cmd
  {
    match cmd
    case Exec(argv) =>
      for i := 0 to |argv|
        invariant forall k :: 0 <= k < buf.Length ==>
          buf[k] == if exists j :: 0 <= j < i && argv[j].eq == k then NUL else old(buf[k])
      {
        assert argv[i] in Words(cmd);
        buf[argv[i].eq] := NUL;
      }
      forall k: nat ensures IsEnd(cmd, k) <==> exists j :: 0 <= j < |argv| && argv[j].eq == k {
        ExecEnds(argv, k);
      }
    case Redir(c, file, mode, fd) =>
      assert forall w :: w in Words(c) ==> w in Words(cmd);
      assert file in Words(cmd);
      Nulterminate(c, buf);
      buf[file.eq] := NUL;
      forall k: nat ensures IsEnd(cmd, k) <==> IsEnd(c, k) || k == file.eq {
        EndsOfRedir(c, file, mode, fd, k);
      }
    case Pipe(l, r) =>
      assert forall w :: w in Words(l) || w in Words(r) ==> w in Words(cmd);
      Nulterminate(l, buf);
      Nulterminate(r, buf);
      forall k: nat ensures IsEnd(cmd, k) <==> IsEnd(l, k) || IsEnd(r, k) {
        EndsOfTwo(l, r, k);
      }
    case List(l, r) =>
      assert forall w :: w in Words(l) || w in Words(r) ==> w in Words(cmd);
      Nulterminate(l, buf);
      Nulterminate(r, buf);
      forall k: nat ensures IsEnd(cmd, k) <==> IsEnd(l, k) || IsEnd(r, k) {
        EndsOfTwo(l, r, k);
      }
    case Back(c) =>
      Nulterminate(c, buf);
      assert forall k: nat :: IsEnd(cmd, k) <==> IsEnd(c, k);
  }

  lemma ExecEnds(argv: seq<Word>, k: nat)
    ensures IsEnd(Exec(argv), k) <==> exists j :: 0 <= j < |argv| && argv[j].eq == k
  {
    if j :| 0 <= j < |argv| && argv[j].eq == k {
      assert argv[j] in Words(Exec(argv));
    }
  }

  // ---- reading the words back

  // The string at address q: up to the first NUL.
  ghost function CString(buf: string, q: nat): string
    decreases |buf| - q
  {
    if q >= |buf| || buf[q] == NUL then [] else [buf[q]] + CString(buf, q + 1)
  }

  lemma {:induction false} CStringIs(buf: string, q: nat, eq: nat)
    requires q <= eq < |buf| && buf[eq] == NUL && forall i :: q <= i < eq ==> buf[i] != NUL
    ensures CString(buf, q) == buf[q..eq]
    decreases eq - q
  {
    if q < eq {
      CStringIs(buf, q + 1, eq);
    }
  }

  // The end of one word is inside no other, so ending them all leaves each as it was.
  lemma WordsSurvive(line: string, cmd: Cmd, buf: string, w: Word)
    requires Plain(line) && |buf| == |line| + 1 && w in Words(cmd)
    requires forall v :: v in Words(cmd) ==> IsWord(line, v)
    requires forall i :: 0 <= i < |line| ==> buf[i] == if IsEnd(cmd, i) then NUL else line[i]
    requires buf[|line|] == NUL
    ensures w.q <= w.eq <= |line| && CString(buf, w.q) == line[w.q..w.eq]
  {
    forall i | w.q <= i < w.eq ensures buf[i] == line[i] {
      assert InWord(line[i]);
      assert forall v :: v in Words(cmd) ==> IsWord(line, v) && v.eq != i;
    }
    assert IsEnd(cmd, w.eq);
    CStringIs(buf, w.q, w.eq);
  }

  /**
   parsecmd on a buffer that holds a line and its NUL.  It gives a tree exactly
   when the tokens of the line are a line of the grammar, and then that line's
   tree; every word of the line is in it once and reads back from the buffer as
   it was.
   */
  method ParseCmd(buf: array<char>) returns (r: Result)
    requires buf.Length > 0 && buf[buf.Length - 1] == NUL && Plain(buf[..buf.Length - 1])
    modifies buf
    ensures var line := old(buf[..buf.Length - 1]);
      && (forall cmd :: r == Ok(cmd) <==> IsLine(Tokens(line, 0), cmd))
      && (r.Ok? ==> Words(r.cmd) == WordsIn(Tokens(line, 0)) && ReadsBack(line, r.cmd, buf[..]))
    ensures r.Syntax? ==> buf[..] == old(buf[..])
  {
    hide Tokens, WordsIn, CString, IsEnd, Words, IsLine, TakeLine, ReadsBack;
    var line := buf[..buf.Length - 1];
    var s;
    ghost var ts := Tokens(line, 0);
    forall cmd ensures TakeLine(ts) == Good(cmd, []) <==> IsLine(ts, cmd) {
      ParsesGrammar(ts, cmd);
    }
    r, s := ParseLine(line, 0);
    if r.Syntax? {
      return;
    }
    Ahead(line, s);
    var found;
    found, s := Peek(line, s, "");
    if s != |line| {
      return Syntax(Leftovers);
    }
    LineHasWords(ts, r.cmd);
    Whole(line, r.cmd);
    Nulterminate(r.cmd, buf);
    AllSurvive(line, r.cmd, buf[..]);
  }

  // Each word of the tree is found once, and is the string at its address.
  ghost predicate ReadsBack(line: string, cmd: Cmd, buf: string) {
    forall w :: w in Words(cmd) ==> w.q <= w.eq <= |line| && Words(cmd)[w] == 1 && CString(buf, w.q) == line[w.q..w.eq]
  }

  lemma AllSurvive(line: string, cmd: Cmd, buf: string)
    requires Plain(line) && |buf| == |line| + 1 && Words(cmd) == WordsIn(Tokens(line, 0))
    requires forall v :: v in Words(cmd) ==> IsWord(line, v)
    requires forall i :: 0 <= i < |line| ==> buf[i] == if IsEnd(cmd, i) then NUL else line[i]
    requires buf[|line|] == NUL
    ensures ReadsBack(line, cmd, buf)
  {
    hide WordsIn, Tokens, CString, IsEnd, Words;
    forall w | w in Words(cmd)
      ensures w.q <= w.eq <= |line| && Words(cmd)[w] == 1 && CString(buf, w.q) == line[w.q..w.eq]
    {
      WordsSurvive(line, cmd, buf, w);
      WordsOnce(line, 0, w);
    }
  }

  lemma Whole(line: string, cmd: Cmd)
    requires Words(cmd) == WordsIn(Tokens(line, 0))
    ensures forall w :: w in Words(cmd) ==> IsWord(line, w) && w.eq < |line| + 1
  {
    forall w | w in Words(cmd) ensures IsWord(line, w) {
      WordsAreWords(line, 0, w);
    }
  }
}
