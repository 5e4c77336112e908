/** grep's pattern matcher, against what patterns mean. */
module Grep {
  /** What a pattern is made of: a character, any number of a character, or the end of the text. */
  datatype Item = One(c: char) | Star(c: char) | End

  function Items(re: string): seq<Item> {
    if re == "" then []
    else if |re| > 1 && re[1] == '*' then [Star(re[0])] + Items(re[2..])
    else if re == "$" then [End]
    else [One(re[0])] + Items(re[1..])
  }

  /** Character x is one that c stands for. */
  predicate Fits(c: char, x: char) { c == '.' || c == x }

  /** The texts an item stands for. */
  predicate Stands(it: Item, w: string) {
    match it
    case One(c) => |w| == 1 && Fits(c, w[0])
    case Star(c) => forall i | 0 <= i < |w| :: Fits(c, w[i])
    case End => w == ""
  }

  function Flatten(ps: seq<string>): string {
    if ps == [] then "" else ps[0] + Flatten(ps[1..])
  }

  /** w cut into pieces, one for each item. */
  predicate Cut(its: seq<Item>, ps: seq<string>, w: string) {
    |ps| == |its| && Flatten(ps) == w && forall i | 0 <= i < |its| :: Stands(its[i], ps[i])
  }

  /** w is in the language of the items. */
  ghost predicate Word(its: seq<Item>, w: string) {
    exists ps :: Cut(its, ps, w)
  }

  /** The text has a prefix in the language of re, which is all of it if re ends with a final $. */
  ghost predicate Prefix(re: string, text: string) {
    exists j :: 0 <= j <= |text| && WordAt(re, text, j)
  }

  ghost predicate WordAt(re: string, text: string, j: int)
    requires 0 <= j <= |text|
  {
    Word(Items(re), text[..j]) && (End in Items(re) ==> j == |text|)
  }

  /** The text has a matching substring, at its start if re begins with ^. */
  ghost predicate Matches(re: string, text: string) {
    if re != "" && re[0] == '^' then Prefix(re[1..], text)
    else exists i :: 0 <= i <= |text| && Prefix(re, text[i..])
  }

  lemma CutMore(it: Item, its: seq<Item>, p: string, ps: seq<string>, w: string)
    requires Stands(it, p) && Cut(its, ps, w)
    ensures Cut([it] + its, [p] + ps, p + w)
  {
    assert ([p] + ps)[1..] == ps;
  }

  lemma CutLess(it: Item, its: seq<Item>, ps: seq<string>, w: string)
    requires Cut([it] + its, ps, w)
    ensures ps != [] && Stands(it, ps[0]) && Cut(its, ps[1..], Flatten(ps[1..])) && w == ps[0] + Flatten(ps[1..])
  {
    assert ([it] + its)[0] == it && ([it] + its)[1..] == its;
    forall i | 0 <= i < |its| ensures Stands(its[i], ps[1..][i]) {
      assert ([it] + its)[i + 1] == its[i];
    }
  }

  /** The empty pattern matches anywhere. */
  lemma PrefixEmpty(text: string)
    ensures Prefix("", text)
  {
    assert Cut([], [], text[..0]);
    assert WordAt("", text, 0);
  }

  lemma ItemFirst(re: string, it: Item, rest: string, text: string)
    requires Items(re) == [it] + Items(rest) && it != End && Prefix(re, text)
    ensures exists k :: 0 <= k <= |text| && Stands(it, text[..k]) && Prefix(rest, text[k..])
  {
    hide Cut, Stands;
    var j :| 0 <= j <= |text| && WordAt(re, text, j);
    var ps :| Cut(Items(re), ps, text[..j]);
    CutLess(it, Items(rest), ps, text[..j]);
    var k := |ps[0]|;
    assert text[..k] == text[..j][..k] == ps[0];
    assert text[k..][..j - k] == text[..j][k..] == Flatten(ps[1..]);
    assert WordAt(rest, text[k..], j - k);
  }

  lemma ItemThen(re: string, it: Item, rest: string, text: string, k: int)
    requires Items(re) == [it] + Items(rest) && it != End && 0 <= k <= |text| && Stands(it, text[..k])
    requires Prefix(rest, text[k..])
    ensures Prefix(re, text)
  {
    hide Cut, Stands;
    var j :| 0 <= j <= |text[k..]| && WordAt(rest, text[k..], j);
    var ps :| Cut(Items(rest), ps, text[k..][..j]);
    CutMore(it, Items(rest), text[..k], ps, text[k..][..j]);
    assert text[..k] + text[k..][..j] == text[..k + j];
    assert WordAt(re, text, k + j);
  }

  /** An item first: a piece for it, then the rest of the pattern on the rest of the text. */
  lemma PrefixItem(re: string, it: Item, rest: string, text: string)
    requires Items(re) == [it] + Items(rest) && it != End
    ensures Prefix(re, text) <==> exists k :: 0 <= k <= |text| && Stands(it, text[..k]) && Prefix(rest, text[k..])
  {
    hide Prefix, Stands, Items;
    if Prefix(re, text) {
      ItemFirst(re, it, rest, text);
    }
    if k :| 0 <= k <= |text| && Stands(it, text[..k]) && Prefix(rest, text[k..]) {
      ItemThen(re, it, rest, text, k);
    }
  }

  /** A final $ matches at the end only. */
  lemma PrefixEnd(text: string)
    ensures Prefix("$", text) <==> text == ""
  {
    assert Items("$") == [End];
    if Prefix("$", text) {
      var j :| 0 <= j <= |text| && WordAt("$", text, j);
      var ps :| Cut([End], ps, text[..j]);
      assert [End] == [End] + [];
      CutLess(End, [], ps, text[..j]);
    } else if text == "" {
      assert Flatten([""]) == "" by {
        assert [""][1..] == [];
      }
      assert Cut([End], [""], text[..0]);
      assert WordAt("$", text, 0);
    }
  }

  method MatchHere(re: string, text: string) returns (r: bool)
    ensures r == Prefix(re, text)
    decreases |re|
  {
    if re == "" {
      PrefixEmpty(text);
      return true;
    }
    if |re| > 1 && re[1] == '*' {
      PrefixItem(re, Star(re[0]), re[2..], text);
      r := MatchStar(re[0], re[2..], text);
      return;
    }
    if re[0] == '$' && |re| == 1 {
      PrefixEnd(text);
      return text == "";
    }
    PrefixItem(re, One(re[0]), re[1..], text);
    if text != "" && (re[0] == '.' || re[0] == text[0]) {
      assert Stands(One(re[0]), text[..1]);
      r := MatchHere(re[1..], text[1..]);
      return;
    }
    return false;
  }

  /** c* and then re: the do-while tries ever longer runs of c. */
  method MatchStar(c: char, re: string, text: string) returns (r: bool)
    ensures r <==> exists k :: 0 <= k <= |text| && Stands(Star(c), text[..k]) && Prefix(re, text[k..])
    decreases |re| + 1
  {
    var t := text;
    ghost var n := 0;
    while true
      invariant 0 <= n <= |text| && t == text[n..] && Stands(Star(c), text[..n])
      invariant forall k | 0 <= k < n :: !Prefix(re, text[k..])
      decreases |t|
    {
      r := MatchHere(re, t);
      if r {
        return true;
      }
      if t == "" {
        return false;
      }
      var x := t[0];
      t := t[1..];
      if !(x == c || c == '.') {
        assert forall k | n < k <= |text| :: !Stands(Star(c), text[..k]) by {
          assert text[n] == x;
        }
        return false;
      }
      n := n + 1;
    }
  }

  /** match */
  method Match(re: string, text: string) returns (r: bool)
    ensures r == Matches(re, text)
  {
    if re != "" && re[0] == '^' {
      r := MatchHere(re[1..], text);
      return;
    }
    var t := text;
    ghost var n := 0;
    while true
      invariant 0 <= n <= |text| && t == text[n..]
      invariant forall k | 0 <= k < n :: !Prefix(re, text[k..])
      decreases |t|
    {
      r := MatchHere(re, t);
      if r {
        return true;
      }
      if t == "" {
        return false;
      }
      t := t[1..];
      n := n + 1;
    }
  }
}
