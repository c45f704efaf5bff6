/** The regular-expression matcher of xv6/grep.c (Kernighan & Pike, The Practice of Programming,
    chapter 9) against the language that a pattern denotes. */
module Grep {

  // ---------- what a pattern means ----------

  /** One character, or any number of them; '.' stands for every character. */
  datatype Item = One(c: char) | Star(c: char)

  predicate Fits(c: char, t: char) { c == '.' || c == t }

  /** The items of a pattern without its leading '^' and trailing '$'. */
  function Items(re: string): seq<Item> {
    if re == "" || re == "$" then []
    else if |re| >= 2 && re[1] == '*' then [Star(re[0])] + Items(re[2..])
    else [One(re[0])] + Items(re[1..])
  }

  /** Whether the pattern ends in an anchoring '$'. */
  predicate AtEnd(re: string) {
    if re == "" then false
    else if re == "$" then true
    else if |re| >= 2 && re[1] == '*' then AtEnd(re[2..])
    else AtEnd(re[1..])
  }

  predicate InItem(it: Item, u: string) {
    match it
    case One(c) => |u| == 1 && Fits(c, u[0])
    case Star(c) => forall k :: 0 <= k < |u| ==> Fits(c, u[k])
  }

  /** The language of a sequence of items: concatenations of words of the items. */
  ghost predicate InLanguage(items: seq<Item>, u: string)
    decreases |items|
  {
    if items == [] then u == ""
    else exists k :: 0 <= k <= |u| && InItem(items[0], u[..k]) && InLanguage(items[1..], u[k..])
  }

  /** text starts with a word of the pattern, reaching its end if the pattern is anchored there. */
  ghost predicate StartsHere(re: string, text: string) {
    exists j :: 0 <= j <= |text| && InLanguage(Items(re), text[..j]) && (AtEnd(re) ==> j == |text|)
  }

  /** THE MEANING OF A MATCH: some substring text[i..j] is a word of the pattern; a leading '^'
      demands i == 0, a trailing '$' demands j == |text|. */
  ghost predicate Matches(re: string, text: string) {
    var body := if re != "" && re[0] == '^' then re[1..] else re;
    exists i, j :: 0 <= i <= j <= |text| && InLanguage(Items(body), text[i..j])
                   && (body != re ==> i == 0) && (AtEnd(body) ==> j == |text|)
  }

  // ---------- how the language unfolds ----------

  lemma EmptyPattern(text: string)
    ensures StartsHere("", text)
  {
    assert InLanguage([], text[..0]);
  }

  lemma EndPattern(text: string)
    ensures StartsHere("$", text) <==> text == ""
  {
    assert text[..0] == "";
    assert InLanguage([], text[..0]);
  }

  lemma OnePattern(re: string, text: string)
    requires re != "" && re != "$" && !(|re| >= 2 && re[1] == '*')
    ensures StartsHere(re, text) <==> text != "" && Fits(re[0], text[0]) && StartsHere(re[1..], text[1..])
  {
    var items := Items(re);
    assert items[1..] == Items(re[1..]);
    if StartsHere(re, text) {
      var j :| 0 <= j <= |text| && InLanguage(items, text[..j]) && (AtEnd(re) ==> j == |text|);
      var k :| 0 <= k <= j && InItem(items[0], text[..j][..k]) && InLanguage(items[1..], text[..j][k..]);
      assert text[..j][1..] == text[1..][..j - 1];
    }
    if text != "" && Fits(re[0], text[0]) && StartsHere(re[1..], text[1..]) {
      var j :| 0 <= j <= |text[1..]| && InLanguage(items[1..], text[1..][..j]) && (AtEnd(re[1..]) ==> j == |text[1..]|);
      var u := text[..j + 1];
      assert u[1..] == text[1..][..j];
      assert InItem(items[0], u[..1]);
      assert InLanguage(items, u);
    }
  }

  /** The pattern c*rest: after some characters that all fit c, text goes on with the rest. */
  ghost predicate StarHere(c: char, rest: string, text: string) {
    exists k :: 0 <= k <= |text| && InItem(Star(c), text[..k]) && StartsHere(rest, text[k..])
  }

  lemma StarPattern(re: string, text: string)
    requires |re| >= 2 && re[1] == '*'
    ensures StartsHere(re, text) <==> StarHere(re[0], re[2..], text)
  {
    var items, c, rest := Items(re), re[0], re[2..];
    assert items[0] == Star(c) && items[1..] == Items(rest);
    if StartsHere(re, text) {
      var j :| 0 <= j <= |text| && InLanguage(items, text[..j]) && (AtEnd(re) ==> j == |text|);
      var k :| 0 <= k <= j && InItem(items[0], text[..j][..k]) && InLanguage(items[1..], text[..j][k..]);
      var n := j - k;
      assert text[..j][..k] == text[..k] && text[..j][k..] == text[k..][..n];
      assert StartsHere(rest, text[k..]);
    }
    if StarHere(c, rest, text) {
      var k :| 0 <= k <= |text| && InItem(Star(c), text[..k]) && StartsHere(rest, text[k..]);
      var n :| 0 <= n <= |text[k..]| && InLanguage(Items(rest), text[k..][..n]) && (AtEnd(rest) ==> n == |text[k..]|);
      var u := text[..k + n];
      assert u[..k] == text[..k] && u[k..] == text[k..][..n];
      assert InLanguage(items, u);
    }
  }

  /** No word of c* reaches beyond a character that does not fit. */
  lemma StopsHere(c: char, text: string, i: nat)
    requires i <= |text| && (i < |text| ==> !Fits(c, text[i]))
    ensures forall k :: 0 <= k <= |text| && InItem(Star(c), text[..k]) ==> k <= i
  {
    forall k | i < k <= |text| ensures !InItem(Star(c), text[..k]) {
      assert text[..k][i] == text[i];
    }
  }

  // ---------- the matcher ----------

  /** matchhere: does text start with a word of re? */
  method MatchHere(re: string, text: string) returns (b: bool)
    ensures b <==> StartsHere(re, text)
    decreases |re|, 0
  {
    if re == "" {
      EmptyPattern(text);
      return true;
    }
    if |re| >= 2 && re[1] == '*' {
      StarPattern(re, text);
      b := MatchStar(re[0], re[2..], text);
      return;
    }
    if re == "$" {
      EndPattern(text);
      return text == "";
    }
    OnePattern(re, text);
    if text != "" && (re[0] == '.' || re[0] == text[0]) {
      b := MatchHere(re[1..], text[1..]);
      return;
    }
    return false;
  }

  /** matchstar: does text start with c*re? */
  method MatchStar(c: char, re: string, text: string) returns (b: bool)
    ensures b <==> StarHere(c, re, text)
    decreases |re|, 1
  {
    var i := 0;
    while true
      invariant 0 <= i <= |text| && InItem(Star(c), text[..i])
      invariant forall k :: 0 <= k < i ==> !StartsHere(re, text[k..])
      decreases |text| - i
    {
      b := MatchHere(re, text[i..]);
      if b {
        return;
      }
      if i < |text| && (text[i] == c || c == '.') {
        i := i + 1;
      } else {
        StopsHere(c, text, i);
        return false;
      }
    }
  }

  /** match: does re occur in text? */
  method Match(re: string, text: string) returns (b: bool)
    ensures b <==> Matches(re, text)
  {
    if re != "" && re[0] == '^' {
      b := MatchHere(re[1..], text);
      Anchored(re, text);
      return;
    }
    var i := 0;
    while true
      invariant 0 <= i <= |text|
      invariant forall k :: 0 <= k < i ==> !StartsHere(re, text[k..])
      decreases |text| - i
    {
      b := MatchHere(re, text[i..]);
      if b {
        Unanchored(re, text);
        return;
      }
      if i == |text| {
        Unanchored(re, text);
        return false;
      }
      i := i + 1;
    }
  }

  lemma Anchored(re: string, text: string)
    requires re != "" && re[0] == '^'
    ensures Matches(re, text) <==> StartsHere(re[1..], text)
  {
    if StartsHere(re[1..], text) {
      var j :| 0 <= j <= |text| && InLanguage(Items(re[1..]), text[..j]) && (AtEnd(re[1..]) ==> j == |text|);
      assert text[0..j] == text[..j];
    }
  }

  lemma Unanchored(re: string, text: string)
    requires re == "" || re[0] != '^'
    ensures Matches(re, text) <==> exists k :: 0 <= k <= |text| && StartsHere(re, text[k..])
  {
    if Matches(re, text) {
      var i, j :| 0 <= i <= j <= |text| && InLanguage(Items(re), text[i..j]) && (AtEnd(re) ==> j == |text|);
      var n := j - i;
      assert text[i..j] == text[i..][..n];
      assert StartsHere(re, text[i..]);
    }
    if exists k :: 0 <= k <= |text| && StartsHere(re, text[k..]) {
      var k :| 0 <= k <= |text| && StartsHere(re, text[k..]);
      var n :| 0 <= n <= |text[k..]| && InLanguage(Items(re), text[k..][..n]) && (AtEnd(re) ==> n == |text[k..]|);
      var j := k + n;
      assert text[k..j] == text[k..][..n];
    }
  }
}
