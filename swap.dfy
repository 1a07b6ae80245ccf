/**
 * The -xf option of main: after the file is parsed, the x and y of every
 * point are exchanged in place, so that x is regressed on y.
 */
module SwapColumns {
  import opened Points
  import opened Sums

  /** A point with its coordinates exchanged. */
  function Swapped(p: DataPoint): DataPoint
  {
    DataPoint(p.y, p.x)
  }

  /** Every point of s with its coordinates exchanged. */
  function SwapAll(s: seq<DataPoint>): seq<DataPoint>
  {
    seq(|s|, i requires 0 <= i < |s| => Swapped(s[i]))
  }

  /**
   * The swap loop: for each of the first `dataSize` points, y is saved in
   * a temporary, y takes the value of x, then x takes the saved value. The
   * points from `dataSize` on are not touched; a negative `dataSize` leaves
   * the array as it was.
   */
  method SwapXY(data: array<DataPoint>, dataSize: int)
    requires dataSize <= data.Length
    modifies data
    ensures forall i :: 0 <= i < data.Length && i < dataSize ==> data[i] == Swapped(old(data[i]))
    ensures forall i :: 0 <= i < data.Length && dataSize <= i ==> data[i] == old(data[i])
    ensures 0 <= dataSize ==> data[..dataSize] == SwapAll(old(data[..dataSize]))
  {
    var i := 0;
    while i < dataSize
      invariant 0 <= i <= data.Length
      invariant i <= if dataSize < 0 then 0 else dataSize
      invariant forall k :: 0 <= k < i ==> data[k] == Swapped(old(data[k]))
      invariant forall k :: i <= k < data.Length ==> data[k] == old(data[k])
    {
      var swap := data[i].y;
      data[i] := data[i].(y := data[i].x);
      data[i] := data[i].(x := swap);
      i := i + 1;
    }
  }

  /** Swapping twice gives back the original points. */
  lemma SwapInvolution(s: seq<DataPoint>)
    ensures SwapAll(SwapAll(s)) == s
  {
    assert forall i :: 0 <= i < |s| ==> SwapAll(SwapAll(s))[i] == s[i];
  }

  /**
   * After the swap, Σx and Σy are exchanged and Σxy is unchanged; so the
   * mean that main prints after -xf is the mean of the original y values.
   */
  lemma {:induction false} SwapSummary(s: seq<DataPoint>)
    ensures SumX(SwapAll(s)) == SumY(s)
    ensures SumY(SwapAll(s)) == SumX(s)
    ensures SumXY(SwapAll(s)) == SumXY(s)
  {
    if s != [] {
      var init := s[..|s| - 1];
      SwapSummary(init);
      assert SwapAll(s)[..|s| - 1] == SwapAll(init);
      assert Times(s[|s| - 1].y, s[|s| - 1].x) == Times(s[|s| - 1].x, s[|s| - 1].y);
    }
  }
}
