/**
 gettoken and peek of user/sh.c, and the words of a line.  A line is the input
 without its final NUL; reading just past its end gives that NUL.
 */
module ShellTokens {
  const NUL: char := '\0'

  predicate IsSpace(c: char) {
    c == ' ' || c == '\t' || c == '\r' || c == '\n' || c == '\U{0b}'
  }

  predicate IsSymbol(c: char) {
    c == '<' || c == '|' || c == '>' || c == '&' || c == ';' || c == '(' || c == ')'
  }

  predicate InWord(c: char) {
    !IsSpace(c) && !IsSymbol(c)
  }

  function At(line: string, s: nat): char {
    if s < |line| then line[s] else NUL
  }

  // Characters q .. eq of the line.
  datatype Word = Word(q: nat, eq: nat)
  // kind is the symbol, '+' for >>, 'a' for a word, NUL at the end; next is where the next token is looked for.
  datatype Token = Token(kind: char, word: Word, next: nat)

  ghost function Skip(line: string, s: nat): (r: nat)
    requires s <= |line|
    ensures s <= r <= |line| && (r < |line| ==> !IsSpace(line[r]))
    ensures forall i :: s <= i < r ==> IsSpace(line[i])
    decreases |line| - s
  {
    if s < |line| && IsSpace(line[s]) then Skip(line, s + 1) else s
  }

  ghost function WordEnd(line: string, s: nat): (r: nat)
    requires s <= |line|
    ensures s <= r <= |line| && (r < |line| ==> !InWord(line[r]))
    ensures forall i :: s <= i < r ==> InWord(line[i])
    ensures s < |line| && InWord(line[s]) ==> s < r
    decreases |line| - s
  {
    if s < |line| && InWord(line[s]) then WordEnd(line, s + 1) else s
  }

  // The token at or after s.
  ghost function Tok(line: string, s: nat): (t: Token)
    requires s <= |line|
    ensures t.word.q == Skip(line, s) && t.word.q <= t.word.eq <= t.next <= |line|
    ensures t.word.q < |line| ==> s < t.next
    ensures t.word.q < |line| && InWord(line[t.word.q]) ==> t.kind == 'a' && t.word.eq == WordEnd(line, t.word.q)
    ensures t.kind == 'a' ==> t.word.q < |line| && InWord(line[t.word.q])
    ensures t.kind != NUL ==> t.word.q < |line|
    ensures t.word.q < |line| && t.kind != 'a' && t.kind != '+' ==> t.kind == line[t.word.q]
  {
    var q := Skip(line, s);
    if q == |line| then Token(NUL, Word(q, q), q)
    else if line[q] == '>' && At(line, q + 1) == '>' then Token('+', Word(q, q + 2), Skip(line, q + 2))
    else if IsSymbol(line[q]) then Token(line[q], Word(q, q + 1), Skip(line, q + 1))
    else Token('a', Word(q, WordEnd(line, q)), Skip(line, WordEnd(line, q)))
  }

  // A C string: no NUL before its end.
  ghost predicate Plain(line: string) {
    forall i :: 0 <= i < |line| ==> line[i] != NUL
  }

  /** The whitespace loops. */
  method SkipSpace(line: string, s: nat) returns (r: nat)
    requires s <= |line|
    ensures r == Skip(line, s)
  {
    r := s;
    while r < |line| && IsSpace(line[r])
      invariant s <= r <= |line| && Skip(line, s) == Skip(line, r)
    {
      r := r + 1;
    }
  }

  /** gettoken. */
  method GetToken(line: string, s: nat) returns (t: Token)
    requires s <= |line| && Plain(line)
    ensures t == Tok(line, s)
  {
    var q := SkipSpace(line, s);
    var eq, kind := q, At(line, q);
    if kind == NUL {
      // the end
    } else if kind == '>' {
      eq := q + 1;
      if At(line, eq) == '>' {
        kind := '+';
        eq := eq + 1;
      }
    } else if IsSymbol(kind) {
      eq := q + 1;
    } else {
      kind := 'a';
      while eq < |line| && !IsSpace(line[eq]) && !IsSymbol(line[eq])
        invariant q <= eq <= |line| && WordEnd(line, q) == WordEnd(line, eq)
      {
        eq := eq + 1;
      }
    }
    var next := SkipSpace(line, eq);
    return Token(kind, Word(q, eq), next);
  }

  /** peek: skips whitespace, and tells whether one of toks comes next. */
  method Peek(line: string, s: nat, toks: string) returns (found: bool, s': nat)
    requires s <= |line|
    ensures s' == Skip(line, s) && (found <==> s' < |line| && line[s'] != NUL && line[s'] in toks)
  {
    s' := SkipSpace(line, s);
    found := At(line, s') != NUL && At(line, s') in toks;
  }

  lemma SkipTwice(line: string, s: nat)
    requires s <= |line|
    ensures Skip(line, Skip(line, s)) == Skip(line, s) && Tok(line, Skip(line, s)) == Tok(line, s)
  {
  }

  // ---- the tokens of a line

  ghost function Tokens(line: string, s: nat): seq<Token>
    requires s <= |line|
    decreases |line| - s
  {
    var t := Tok(line, s);
    if t.word.q == |line| then [] else [t] + Tokens(line, t.next)
  }

  ghost function Kind(ts: seq<Token>): char {
    if ts == [] then NUL else ts[0].kind
  }

  // What gettoken and peek see of the tokens ahead.
  lemma Ahead(line: string, s: nat)
    requires s <= |line| && Plain(line)
    ensures var ts, c := Tokens(line, s), At(line, Skip(line, s));
      && Tokens(line, Skip(line, s)) == ts && Tok(line, Skip(line, s)) == Tok(line, s)
      && (ts == [] <==> Skip(line, s) == |line|)
      && (ts != [] ==> ts[0] == Tok(line, s) && ts[1..] == Tokens(line, Tok(line, s).next))
      && Kind(ts) == Tok(line, s).kind && (Kind(ts) == NUL <==> ts == [])
      && (c == '>' <==> Kind(ts) == '>' || Kind(ts) == '+')
      && (c == '<' <==> Kind(ts) == '<') && (c == '(' <==> Kind(ts) == '(') && (c == ')' <==> Kind(ts) == ')')
      && (c == '|' <==> Kind(ts) == '|') && (c == '&' <==> Kind(ts) == '&') && (c == ';' <==> Kind(ts) == ';')
  {
    SkipTwice(line, s);
  }

  // ---- the words of a line

  ghost function WordsIn(ts: seq<Token>): multiset<Word> {
    if ts == [] then multiset{} else (if ts[0].kind == 'a' then multiset{ts[0].word} else multiset{}) + WordsIn(ts[1..])
  }

  lemma {:induction false} WordsOfBoth(a: seq<Token>, b: seq<Token>)
    ensures WordsIn(a + b) == WordsIn(a) + WordsIn(b)
  {
    if a == [] {
      assert a + b == b;
    } else {
      assert (a + b)[1..] == a[1..] + b;
      WordsOfBoth(a[1..], b);
    }
  }

  // A word is a run of word characters that ends where no word character follows.
  ghost predicate IsWord(line: string, w: Word) {
    && w.q < w.eq <= |line| && (forall i :: w.q <= i < w.eq ==> InWord(line[i]))
    && (w.eq < |line| ==> !InWord(line[w.eq]))
  }

  lemma {:induction false} WordsAreWords(line: string, s: nat, w: Word)
    requires s <= |line| && w in WordsIn(Tokens(line, s))
    ensures IsWord(line, w) && s <= w.q
    decreases |line| - s
  {
    var t := Tok(line, s);
    if t.kind != 'a' || w != t.word {
      WordsAreWords(line, t.next, w);
    }
  }

  // No word is found twice.
  lemma {:induction false} WordsOnce(line: string, s: nat, w: Word)
    requires s <= |line|
    ensures WordsIn(Tokens(line, s))[w] <= 1
    decreases |line| - s
  {
    var t := Tok(line, s);
    if t.word.q < |line| {
      WordsOnce(line, t.next, w);
      if t.kind == 'a' && w == t.word && w in WordsIn(Tokens(line, t.next)) {
        WordsAreWords(line, t.next, w);
      }
    }
  }
}
