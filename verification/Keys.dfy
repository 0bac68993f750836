/** Keys that join parts with a separator: what two equal keys say about their parts. */
module Keys {

  /** A common beginning can be taken off, and so can a common end. */
  lemma Cancel(left: string, a: string, b: string, right: string)
    ensures left + a + right == left + b + right <==> a == b
  {
    if left + a + right == left + b + right {
      assert |a| == |b|;
      assert a == (left + a + right)[|left|..|left| + |a|];
      assert b == (left + b + right)[|left|..|left| + |b|];
    }
  }

  lemma CancelLeft(left: string, a: string, b: string)
    ensures left + a == left + b <==> a == b
  {
    if left + a == left + b {
      assert a == (left + a)[|left|..] && b == (left + b)[|left|..];
    }
  }

  /** Parts that do not hold the separator's first character are the same when the keys are. */
  lemma FirstPart(a: string, b: string, mark: char, aRest: string, bRest: string)
    requires mark !in a && mark !in b
    ensures a + [mark] + aRest == b + [mark] + bRest <==> a == b && aRest == bRest
  {
    var x, y := a + [mark] + aRest, b + [mark] + bRest;
    if x == y {
      assert x[|a|] == mark && y[|b|] == mark;
      assert a == x[..|a|] && b == y[..|b|];
      assert aRest == x[|a| + 1..] && bRest == y[|b| + 1..];
    }
  }
}
