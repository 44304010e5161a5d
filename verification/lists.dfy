/** Facts about sequences that the line-splitting proofs rearrange. They are
    stated for any element type so that the verifier reasons about positions
    and never about the characters inside a line. */
module Lists {

  lemma ConsAppend<T>(h: T, xs: seq<T>, ys: seq<T>)
    ensures [h] + (xs + ys) == ([h] + xs) + ys
  {
  }

  lemma ReplaceHead<T>(h: T, xs: seq<T>, ys: seq<T>)
    requires xs != []
    ensures [h] + (xs + ys)[1..] == ([h] + xs[1..]) + ys
  {
  }

  lemma ReplaceLast<T>(xs: seq<T>, z: T, h: T)
    requires |xs| >= 2
    ensures var k := |xs| - 1;
      [h] + (xs[..k] + [z])[1..] == ([h] + xs[1..])[..k] + [z]
  {
    var k := |xs| - 1;
    assert (xs[..k] + [z])[1..] == xs[1..k] + [z];
    assert ([h] + xs[1..])[..k] == [h] + xs[1..k];
  }

  lemma AppendEmpty<T>(xs: seq<T>)
    ensures xs + [] == xs
  {
  }

  lemma AppendEmptyMiddle<T>(xs: seq<T>, e: seq<T>, ys: seq<T>)
    requires e == []
    ensures xs + (e + ys) == xs + ys
  {
  }

  lemma Regroup<T>(p: seq<T>, q: seq<T>, r: seq<T>, u: seq<T>)
    ensures p + q + r + q + u == p + q + (r + q + u)
  {
  }

  lemma SplitFirst<T>(s: seq<T>)
    requires s != []
    ensures s == [s[0]] + s[1..]
  {
  }

  lemma SplitLast<T>(s: seq<T>)
    requires s != []
    ensures s == s[..|s| - 1] + [s[|s| - 1]]
  {
  }
}
