/** The regular-expression matcher of grep.c (Kernighan and Pike's matcher).

    A C string is its characters before the NUL, so `*text == '\0'` is `text == ""`.
    The matcher is proved equivalent to the language a pattern denotes.  */
module Grep {

  /** One pattern element; the character '.' stands for any character. */
  datatype Item = One(c: char) | Star(c: char)

  /** A pattern after its optional leading '^': elements, then possibly an end anchor. */
  datatype Pattern = Pattern(items: seq<Item>, atEnd: bool)

  /** How the characters of a pattern are read.  '$' anchors only as the last character and
      not before a '*'; a '*' that follows nothing is an ordinary character. */
  function Compile(re: string): Pattern {
    if re == "" then Pattern([], false)
    else if |re| >= 2 && re[1] == '*' then
      var rest := Compile(re[2..]);
      Pattern([Star(re[0])] + rest.items, rest.atEnd)
    else if re == "$" then Pattern([], true)
    else
      var rest := Compile(re[1..]);
      Pattern([One(re[0])] + rest.items, rest.atEnd)
  }

  predicate Fits(c: char, x: char) {
    c == '.' || c == x
  }

  /** The language of one element. */
  ghost predicate ItemDenotes(item: Item, w: string) {
    match item
    case One(c) => |w| == 1 && Fits(c, w[0])
    case Star(c) => forall i :: 0 <= i < |w| ==> Fits(c, w[i])
  }

  /** The language of a sequence of elements: concatenation of the elements' languages. */
  ghost predicate Denotes(items: seq<Item>, w: string) {
    if items == [] then w == ""
    else exists k :: 0 <= k <= |w| && ItemDenotes(items[0], w[..k]) && Denotes(items[1..], w[k..])
  }

  /** Some prefix of `text` is in the language, and it is all of `text` under an end anchor. */
  ghost predicate PrefixMatches(p: Pattern, text: string) {
    exists j :: 0 <= j <= |text| && Denotes(p.items, text[..j]) && (p.atEnd ==> j == |text|)
  }

  /** What a search means: some substring, at the start under '^' and up to the end under '$'. */
  ghost predicate SubstringMatches(p: Pattern, anchored: bool, text: string) {
    exists i, j ::
      0 <= i <= j <= |text| && Denotes(p.items, text[i..j]) &&
      (anchored ==> i == 0) && (p.atEnd ==> j == |text|)
  }

  ghost predicate Anchored(re: string) {
    re != "" && re[0] == '^'
  }

  ghost function Body(re: string): string {
    if Anchored(re) then re[1..] else re
  }

  lemma {:induction false} StarPrefix(c: char, rest: Pattern, text: string, k: nat)
    requires k <= |text| && (forall i :: 0 <= i < k ==> Fits(c, text[i]))
    requires PrefixMatches(rest, text[k..])
    ensures PrefixMatches(Pattern([Star(c)] + rest.items, rest.atEnd), text)
  {
    var j :| 0 <= j <= |text[k..]| && Denotes(rest.items, text[k..][..j]) && (rest.atEnd ==> j == |text[k..]|);
    var items := [Star(c)] + rest.items;
    assert items[1..] == rest.items;
    var w := text[..k + j];
    assert w[k..] == text[k..][..j] && ItemDenotes(items[0], w[..k]);
  }

  lemma StarPrefixInverse(c: char, rest: Pattern, text: string) returns (k: nat)
    requires PrefixMatches(Pattern([Star(c)] + rest.items, rest.atEnd), text)
    ensures k <= |text| && (forall i :: 0 <= i < k ==> Fits(c, text[i]))
    ensures PrefixMatches(rest, text[k..])
  {
    var items := [Star(c)] + rest.items;
    assert items[1..] == rest.items;
    var j :| 0 <= j <= |text| && Denotes(items, text[..j]) && (rest.atEnd ==> j == |text|);
    var w := text[..j];
    k :| 0 <= k <= |w| && ItemDenotes(items[0], w[..k]) && Denotes(items[1..], w[k..]);
    assert forall i :: 0 <= i < k ==> w[..k][i] == text[i];
    assert w[k..] == text[k..][..j - k];
  }

  lemma OnePrefix(c: char, rest: Pattern, text: string)
    ensures PrefixMatches(Pattern([One(c)] + rest.items, rest.atEnd), text)
       <==> text != "" && Fits(c, text[0]) && PrefixMatches(rest, text[1..])
  {
    var items := [One(c)] + rest.items;
    var p := Pattern(items, rest.atEnd);
    assert items[1..] == rest.items;
    if PrefixMatches(p, text) {
      var j :| 0 <= j <= |text| && Denotes(items, text[..j]) && (rest.atEnd ==> j == |text|);
      var w := text[..j];
      var k :| 0 <= k <= |w| && ItemDenotes(items[0], w[..k]) && Denotes(items[1..], w[k..]);
      assert w[k..] == text[1..][..j - 1];
    }
    if text != "" && Fits(c, text[0]) && PrefixMatches(rest, text[1..]) {
      var j :| 0 <= j <= |text[1..]| && Denotes(rest.items, text[1..][..j]) && (rest.atEnd ==> j == |text[1..]|);
      var w := text[..j + 1];
      assert w[1..] == text[1..][..j] && ItemDenotes(items[0], w[..1]);
    }
  }

  /** `matchhere`: search for `re` at the beginning of `text`. */
  method MatchHere(re: string, text: string) returns (matched: bool)
    ensures matched <==> PrefixMatches(Compile(re), text)
    decreases |re|, |text|, 0
  {
    if re == "" {
      assert Denotes([], text[..0]);
      return true;
    }
    if |re| >= 2 && re[1] == '*' {
      matched := MatchStar(re[0], re[2..], text);
      return;
    }
    if re == "$" {
      if text == "" { assert Denotes([], text[..0]); }
      return text == "";
    }
    OnePrefix(re[0], Compile(re[1..]), text);
    if text != "" && (re[0] == '.' || re[0] == text[0]) {
      matched := MatchHere(re[1..], text[1..]);
      return;
    }
    return false;
  }

  /** `matchstar`: search for c*re at the beginning of `text`. */
  method MatchStar(c: char, re: string, text: string) returns (matched: bool)
    ensures matched <==> PrefixMatches(Pattern([Star(c)] + Compile(re).items, Compile(re).atEnd), text)
    decreases |re|, |text|, 1
  {
    var t := 0;
    while true
      invariant 0 <= t <= |text|
      invariant forall i :: 0 <= i < t ==> Fits(c, text[i])
      invariant forall k :: 0 <= k < t ==> !PrefixMatches(Compile(re), text[k..])
      decreases |text| - t
    {
      var here := MatchHere(re, text[t..]);
      if here {
        StarPrefix(c, Compile(re), text, t);
        return true;
      }
      if t == |text| || !(text[t] == c || c == '.') {
        break;
      }
      t := t + 1;
    }
    if PrefixMatches(Pattern([Star(c)] + Compile(re).items, Compile(re).atEnd), text) {
      var k := StarPrefixInverse(c, Compile(re), text);
      assert false;
    }
    return false;
  }

  /** `match`: a match of `re` anywhere in `text`. */
  method Match(re: string, text: string) returns (matched: bool)
    ensures matched <==> SubstringMatches(Compile(Body(re)), Anchored(re), text)
  {
    ghost var p := Compile(Body(re));
    if re != "" && re[0] == '^' {
      matched := MatchHere(re[1..], text);
      assert text[0..] == text;
      SubstringAt(p, true, text);
      return;
    }
    SubstringAt(p, false, text);
    var t := 0;
    while true
      invariant 0 <= t <= |text|
      invariant forall k :: 0 <= k < t ==> !PrefixMatches(p, text[k..])
      decreases |text| - t
    {
      var here := MatchHere(re, text[t..]);
      if here {
        return true;
      }
      if t == |text| {
        break;
      }
      t := t + 1;
    }
    return false;
  }

  /** A substring match is a prefix match of some suffix. */
  lemma SubstringAt(p: Pattern, anchored: bool, text: string)
    ensures SubstringMatches(p, anchored, text)
       <==> exists i :: 0 <= i <= |text| && (anchored ==> i == 0) && PrefixMatches(p, text[i..])
  {
    if SubstringMatches(p, anchored, text) {
      var i, j :| 0 <= i <= j <= |text| && Denotes(p.items, text[i..j]) &&
                  (anchored ==> i == 0) && (p.atEnd ==> j == |text|);
      assert text[i..j] == text[i..][..j - i];
    }
    forall i | 0 <= i <= |text| && (anchored ==> i == 0) && PrefixMatches(p, text[i..])
      ensures SubstringMatches(p, anchored, text)
    {
      var j :| 0 <= j <= |text[i..]| && Denotes(p.items, text[i..][..j]) && (p.atEnd ==> j == |text[i..]|);
      assert text[i..][..j] == text[i..i + j];
    }
  }
}
