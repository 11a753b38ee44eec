/**
 The regular expression matcher of user/grep.c, which knows ^ . * and $,
 against the language its patterns denote.  A C string is the sequence of its
 characters without the terminator, so `*text == 0` is `text == []`.
 */
module Regex {
  /** One element of a pattern: a character, or a starred character. */
  datatype Item = One(c: char) | Star(c: char)

  /** A pattern after its optional leading ^: its items, and whether it ends in $. */
  datatype Pattern = Pattern(items: seq<Item>, anchored: bool)

  function Parse(re: string): Pattern {
    if re == [] then Pattern([], false)
    else if |re| > 1 && re[1] == '*' then
      var p := Parse(re[2..]);
      Pattern([Star(re[0])] + p.items, p.anchored)
    else if re == "$" then Pattern([], true)
    else
      var p := Parse(re[1..]);
      Pattern([One(re[0])] + p.items, p.anchored)
  }

  predicate Accepts(c: char, x: char) {
    c == '.' || c == x
  }

  // The language of one item.
  ghost predicate Denotes(item: Item, v: string) {
    match item
    case One(c) => |v| == 1 && Accepts(c, v[0])
    case Star(c) => forall i :: 0 <= i < |v| ==> Accepts(c, v[i])
  }

  ghost function Concat(pieces: seq<string>): string {
    if pieces == [] then [] else pieces[0] + Concat(pieces[1..])
  }

  ghost predicate Spells(items: seq<Item>, pieces: seq<string>) {
    |pieces| == |items| && forall i :: 0 <= i < |items| ==> Denotes(items[i], pieces[i])
  }

  // v is a concatenation of words, one from each item's language in turn.
  ghost predicate InLanguage(items: seq<Item>, v: string) {
    exists pieces :: Spells(items, pieces) && Concat(pieces) == v
  }

  // Some prefix of the text, all of it under a trailing $, is in the pattern's language.
  ghost predicate MatchesHere(p: Pattern, text: string) {
    exists k :: 0 <= k <= |text| && InLanguage(p.items, text[..k]) && (p.anchored ==> k == |text|)
  }

  // Some split u + v + w of the text has v in the pattern's language, with u and w as the anchors say.
  ghost predicate Matches(re: string, text: string) {
    var start := re != [] && re[0] == '^';
    var p := Parse(if start then re[1..] else re);
    exists u, v, w :: Splits(p, start, text, u, v, w)
  }

  ghost predicate Splits(p: Pattern, start: bool, text: string, u: string, v: string, w: string) {
    text == u + v + w && InLanguage(p.items, v) && (start ==> u == []) && (p.anchored ==> w == [])
  }

  lemma EmptyLanguage(v: string)
    ensures InLanguage([], v) <==> v == []
  {
    assert Spells([], []) && Concat([]) == [];
  }

  lemma ConsLanguage(item: Item, rest: seq<Item>, v: string)
    ensures InLanguage([item] + rest, v) <==>
      exists j :: 0 <= j <= |v| && Denotes(item, v[..j]) && InLanguage(rest, v[j..])
  {
    if pieces :| Spells([item] + rest, pieces) && Concat(pieces) == v {
      var j := |pieces[0]|;
      assert v[..j] == pieces[0] && v[j..] == Concat(pieces[1..]);
      assert Denotes(([item] + rest)[0], pieces[0]);
      assert Spells(rest, pieces[1..]) by {
        forall i | 0 <= i < |rest| ensures Denotes(rest[i], pieces[1..][i]) {
          assert Denotes(([item] + rest)[i + 1], pieces[i + 1]);
        }
      }
    }
    if j :| 0 <= j <= |v| && Denotes(item, v[..j]) && InLanguage(rest, v[j..]) {
      var pieces :| Spells(rest, pieces) && Concat(pieces) == v[j..];
      var all := [v[..j]] + pieces;
      assert all[1..] == pieces;
      assert Spells([item] + rest, all) && Concat(all) == v;
    }
  }

  // How a match at the front of the text goes through the first item.
  lemma OneHere(c: char, rest: seq<Item>, anchored: bool, text: string)
    ensures MatchesHere(Pattern([One(c)] + rest, anchored), text) <==>
      text != [] && Accepts(c, text[0]) && MatchesHere(Pattern(rest, anchored), text[1..])
  {
    var items := [One(c)] + rest;
    if k :| 0 <= k <= |text| && InLanguage(items, text[..k]) && (anchored ==> k == |text|) {
      ConsLanguage(One(c), rest, text[..k]);
      var j :| 0 <= j <= k && Denotes(One(c), text[..k][..j]) && InLanguage(rest, text[..k][j..]);
      assert text[..k][1..] == text[1..][..k - 1];
    }
    if text != [] && Accepts(c, text[0]) && MatchesHere(Pattern(rest, anchored), text[1..]) {
      var k :| 0 <= k <= |text[1..]| && InLanguage(rest, text[1..][..k]) && (anchored ==> k == |text[1..]|);
      var v := text[..k + 1];
      assert v[..1] == [text[0]] && v[1..] == text[1..][..k];
      assert Denotes(One(c), v[..1]);
      ConsLanguage(One(c), rest, v);
    }
  }

  lemma StarHere(c: char, rest: seq<Item>, anchored: bool, text: string)
    ensures MatchesHere(Pattern([Star(c)] + rest, anchored), text) <==>
      exists j :: 0 <= j <= |text| && Denotes(Star(c), text[..j]) && MatchesHere(Pattern(rest, anchored), text[j..])
  {
    var items := [Star(c)] + rest;
    if k :| 0 <= k <= |text| && InLanguage(items, text[..k]) && (anchored ==> k == |text|) {
      ConsLanguage(Star(c), rest, text[..k]);
      var j :| 0 <= j <= k && Denotes(Star(c), text[..k][..j]) && InLanguage(rest, text[..k][j..]);
      assert text[..k][..j] == text[..j] && text[..k][j..] == text[j..][..k - j];
      assert MatchesHere(Pattern(rest, anchored), text[j..]);
    }
    if j :| 0 <= j <= |text| && Denotes(Star(c), text[..j]) && MatchesHere(Pattern(rest, anchored), text[j..]) {
      var k :| 0 <= k <= |text[j..]| && InLanguage(rest, text[j..][..k]) && (anchored ==> k == |text[j..]|);
      var v := text[..j + k];
      assert v[..j] == text[..j] && v[j..] == text[j..][..k];
      ConsLanguage(Star(c), rest, v);
    }
  }

  // A split of the text is a place from which its rest matches.
  lemma SplitMatches(p: Pattern, start: bool, text: string, u: string, v: string, w: string)
    requires Splits(p, start, text, u, v, w)
    ensures |u| <= |text| && MatchesHere(p, text[|u|..])
  {
    assert text[|u|..] == v + w && text[|u|..][..|v|] == v;
  }

  lemma HasSplit(p: Pattern, start: bool, text: string, i: nat)
    requires i <= |text| && (start ==> i == 0) && MatchesHere(p, text[i..])
    ensures exists u, v, w :: Splits(p, start, text, u, v, w)
  {
    var k :| 0 <= k <= |text[i..]| && InLanguage(p.items, text[i..][..k]) && (p.anchored ==> k == |text[i..]|);
    assert text == text[..i] + text[i..][..k] + text[i..][k..];
    assert Splits(p, start, text, text[..i], text[i..][..k], text[i..][k..]);
  }

  lemma HasNoSplit(p: Pattern, start: bool, text: string)
    requires forall i :: 0 <= i <= |text| && (start ==> i == 0) ==> !MatchesHere(p, text[i..])
    ensures !exists u, v, w :: Splits(p, start, text, u, v, w)
  {
    forall u, v, w ensures !Splits(p, start, text, u, v, w) {
      if Splits(p, start, text, u, v, w) {
        SplitMatches(p, start, text, u, v, w);
      }
    }
  }

  /** matchhere: search for re at the beginning of text. */
  method MatchHere(re: string, text: string) returns (found: bool)
    ensures found <==> MatchesHere(Parse(re), text)
    decreases |re|, 0
  {
    if re == [] {
      EmptyLanguage([]);
      assert text[..0] == [];
      return true;
    }
    if |re| > 1 && re[1] == '*' {
      found := MatchStar(re[0], re[2..], text);
      StarHere(re[0], Parse(re[2..]).items, Parse(re).anchored, text);
      return;
    }
    if re == "$" {
      EmptyLanguage(text);
      assert text[..|text|] == text;
      return text == [];
    }
    OneHere(re[0], Parse(re[1..]).items, Parse(re).anchored, text);
    if text != [] && (re[0] == '.' || re[0] == text[0]) {
      found := MatchHere(re[1..], text[1..]);
      return;
    }
    return false;
  }

  /** matchstar: search for c*re at the beginning of text. */
  method MatchStar(c: char, re: string, text: string) returns (found: bool)
    ensures found <==>
      exists j :: 0 <= j <= |text| && Denotes(Star(c), text[..j]) && MatchesHere(Parse(re), text[j..])
    decreases |re|, 1
  {
    var i := 0;
    while true
      invariant 0 <= i <= |text| && Denotes(Star(c), text[..i])
      invariant forall j :: 0 <= j < i ==> !MatchesHere(Parse(re), text[j..])
      decreases |text| - i
    {
      found := MatchHere(re, text[i..]);
      if found {
        return;
      }
      if i == |text| || !(text[i] == c || c == '.') {
        assert i < |text| ==> forall j :: i < j <= |text| ==> text[..j][i] == text[i];
        return false;
      }
      i := i + 1;
    }
  }

  /** match: search for re anywhere in text; an empty text is looked at too. */
  method Match(re: string, text: string) returns (found: bool)
    ensures found <==> Matches(re, text)
  {
    hide MatchesHere, Splits, Parse;
    if re != [] && re[0] == '^' {
      found := MatchHere(re[1..], text);
      assert text[0..] == text;
      if found {
        HasSplit(Parse(re[1..]), true, text, 0);
      } else {
        HasNoSplit(Parse(re[1..]), true, text);
      }
      return;
    }
    var i := 0;
    while true
      invariant 0 <= i <= |text|
      invariant forall j :: 0 <= j < i ==> !MatchesHere(Parse(re), text[j..])
      decreases |text| - i
    {
      found := MatchHere(re, text[i..]);
      if found {
        HasSplit(Parse(re), false, text, i);
        return;
      }
      if i == |text| {
        HasNoSplit(Parse(re), false, text);
        return;
      }
      i := i + 1;
    }
  }
}
