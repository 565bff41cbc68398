/** The regular expression matcher of grep.c. Patterns and texts are C strings without their
    final NUL. */
module Grep {
  type CString = s: string | '\0' !in s

  // ---------------------------------------------------------------- what a pattern means

  /** One character, or any number of them; '.' stands for any character. */
  datatype Item = One(c: char) | Star(c: char)

  predicate Fits(c: char, x: char) { c == '.' || c == x }

  /** A pattern as a sequence of items: a star applies to the character before it. */
  function Items(re: string): (r: seq<Item>) {
    if re == "" then []
    else if |re| > 1 && re[1] == '*' then [Star(re[0])] + Items(re[2..])
    else if re == "$" then []
    else [One(re[0])] + Items(re[1..])
  }

  /** The pattern ends in a '$' that no star follows, so it must match up to the end. */
  predicate AtEnd(re: string) {
    if re == "" then false
    else if |re| > 1 && re[1] == '*' then AtEnd(re[2..])
    else if re == "$" then true
    else AtEnd(re[1..])
  }

  /** The words of one item. */
  predicate ItemWord(item: Item, w: string) {
    match item
    case One(c) => |w| == 1 && Fits(c, w[0])
    case Star(c) => forall i :: 0 <= i < |w| ==> Fits(c, w[i])
  }

  /** The words of a sequence of items: concatenations of one word of each. */
  ghost predicate Word(items: seq<Item>, w: string) {
    if items == [] then w == ""
    else exists k :: 0 <= k <= |w| && ItemWord(items[0], w[..k]) && Word(items[1..], w[k..])
  }

  /** Some prefix of the text is a word of the pattern (the whole text if it is anchored). */
  ghost predicate Begins(re: string, text: string) {
    exists k :: PrefixFits(re, text, k)
  }

  ghost predicate PrefixFits(re: string, text: string, k: int) {
    0 <= k <= |text| && Word(Items(re), text[..k]) && (AtEnd(re) ==> k == |text|)
  }

  /** Some substring text[i..k] is a word of the pattern, from the start of the text for a
      leading '^' and to its end for a final '$'. */
  ghost predicate Occurs(re: string, text: string) {
    if re != "" && re[0] == '^' then Begins(re[1..], text)
    else exists i, k :: SubstringFits(re, text, i, k)
  }

  ghost predicate SubstringFits(re: string, text: string, i: int, k: int) {
    0 <= i <= k <= |text| && Word(Items(re), text[i..k]) && (AtEnd(re) ==> k == |text|)
  }

  // ---------------------------------------------------------------- one item at a time

  lemma BeginsOne(re: string, text: string)
    requires re != "" && !(|re| > 1 && re[1] == '*') && re != "$"
    ensures Begins(re, text) <==> text != "" && Fits(re[0], text[0]) && Begins(re[1..], text[1..])
  {
    assert Items(re)[0] == One(re[0]) && Items(re)[1..] == Items(re[1..]);
    if k :| PrefixFits(re, text, k) {
      var j :| 0 <= j <= k && ItemWord(One(re[0]), text[..k][..j]) && Word(Items(re[1..]), text[..k][j..]);
      assert text[..k][1..] == text[1..][..k - 1];
      assert PrefixFits(re[1..], text[1..], k - 1);
    }
    if text != "" && Fits(re[0], text[0]) && Begins(re[1..], text[1..]) {
      var k :| PrefixFits(re[1..], text[1..], k);
      assert text[..k + 1][1..] == text[1..][..k];
      assert ItemWord(One(re[0]), text[..k + 1][..1]);
      assert PrefixFits(re, text, k + 1);
    }
  }

  /** The first m characters go to the star, and the rest matches the rest. */
  ghost predicate StarFits(c: char, re: string, text: string, m: int) {
    0 <= m <= |text| && (forall i :: 0 <= i < m ==> Fits(c, text[i])) && Begins(re, text[m..])
  }

  lemma BeginsStar(re: string, text: string)
    requires |re| > 1 && re[1] == '*'
    ensures Begins(re, text) <==> exists m :: StarFits(re[0], re[2..], text, m)
  {
    assert Items(re)[0] == Star(re[0]) && Items(re)[1..] == Items(re[2..]);
    if k :| PrefixFits(re, text, k) {
      var m :| 0 <= m <= k && ItemWord(Star(re[0]), text[..k][..m]) && Word(Items(re[2..]), text[..k][m..]);
      assert text[..k][m..] == text[m..][..k - m];
      assert PrefixFits(re[2..], text[m..], k - m);
      assert forall i :: 0 <= i < m ==> text[..k][..m][i] == text[i];
      assert StarFits(re[0], re[2..], text, m);
    }
    if m :| StarFits(re[0], re[2..], text, m) {
      var k :| PrefixFits(re[2..], text[m..], k);
      assert text[..m + k][m..] == text[m..][..k];
      assert text[..m + k][..m] == text[..m];
      assert ItemWord(Star(re[0]), text[..m + k][..m]);
      assert PrefixFits(re, text, m + k);
    }
  }

  lemma BeginsLast(re: string, text: string)
    requires re == "" || re == "$"
    ensures Begins(re, text) <==> re == "" || text == ""
  {
    assert text[..0] == "";
    assert re == "" || text == "" ==> PrefixFits(re, text, 0);
  }

  /** An occurrence is a match that begins somewhere. */
  lemma OccursSomewhere(re: string, text: string)
    requires !(re != "" && re[0] == '^')
    ensures Occurs(re, text) <==> exists i :: 0 <= i <= |text| && Begins(re, text[i..])
  {
    if i, k :| SubstringFits(re, text, i, k) {
      assert text[i..k] == text[i..][..k - i];
      assert PrefixFits(re, text[i..], k - i);
      assert Begins(re, text[i..]);
    }
    if i :| 0 <= i <= |text| && Begins(re, text[i..]) {
      var k :| PrefixFits(re, text[i..], k);
      assert text[i..][..k] == text[i..i + k];
      assert SubstringFits(re, text, i, i + k);
    }
  }

  // ---------------------------------------------------------------- the matcher

  method Match(re: CString, text: CString) returns (found: bool)
    ensures found <==> Occurs(re, text)
  {
    if re != "" && re[0] == '^' {
      found := MatchHere(re[1..], text);
      return;
    }
    OccursSomewhere(re, text);
    var i := 0;
    while true
      invariant 0 <= i <= |text|
      invariant forall j :: 0 <= j < i ==> !Begins(re, text[j..])
      decreases |text| - i
    {
      found := MatchHere(re, text[i..]);
      if found || i == |text| {
        return;
      }
      i := i + 1;
    }
  }

  method MatchHere(re: CString, text: CString) returns (found: bool)
    ensures found <==> Begins(re, text)
    decreases |re|, 1
  {
    if re == "" {
      BeginsLast(re, text);
      return true;
    }
    if |re| > 1 && re[1] == '*' {
      BeginsStar(re, text);
      found := MatchStar(re[0], re[2..], text);
      return;
    }
    if re == "$" {
      BeginsLast(re, text);
      return text == "";
    }
    BeginsOne(re, text);
    if text != "" && (re[0] == '.' || re[0] == text[0]) {
      found := MatchHere(re[1..], text[1..]);
      return;
    }
    return false;
  }

  method MatchStar(c: char, re: CString, text: CString) returns (found: bool)
    ensures found <==> exists m :: StarFits(c, re, text, m)
    decreases |re|, 2
  {
    var i := 0;
    while true
      invariant 0 <= i <= |text|
      invariant forall j :: 0 <= j < i ==> Fits(c, text[j])
      invariant forall m :: StarFits(c, re, text, m) ==> m >= i
      decreases |text| - i
    {
      found := MatchHere(re, text[i..]);
      if found {
        assert StarFits(c, re, text, i);
        return;
      }
      if i == |text| || !(text[i] == c || c == '.') {
        return;
      }
      i := i + 1;
    }
  }
}
