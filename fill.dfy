/** Forward filling of a column: every NaN takes the nearest earlier value
    that is not NaN; NaNs before the first value stay NaN. */
module Fill {

  import opened Frames

  /** The last cell of `c` that is not NaN, or NaN when there is none
      (the last entry of the column once its NaNs are dropped). */
  function LastPresent(c: seq<Cell>): (r: Cell)
    ensures r.Absent? <==> forall k :: 0 <= k < |c| ==> c[k].Absent?
  {
    if c == [] then Absent
    else if !c[|c| - 1].Absent? then c[|c| - 1]
    else
      var n := |c| - 1;
      assert forall k :: 0 <= k < n ==> c[..n][k] == c[k];
      LastPresent(c[..n])
  }

  /** Entry `i` is the last value among entries `0..i`. */
  function ForwardFill(c: seq<Cell>): (r: seq<Cell>)
    ensures |r| == |c|
  {
    if c == [] then [] else ForwardFill(c[..|c| - 1]) + [LastPresent(c)]
  }

  /** The fill as one pass that remembers the last value seen. */
  method FillForward(c: seq<Cell>) returns (r: seq<Cell>)
    ensures r == ForwardFill(c)
  {
    r := [];
    var last := Absent;
    var i := 0;
    while i < |c|
      invariant 0 <= i <= |c|
      invariant last == LastPresent(c[..i])
      invariant r == ForwardFill(c[..i])
    {
      assert c[..i + 1][..i] == c[..i];
      if !c[i].Absent? {
        last := c[i];
      }
      r := r + [last];
      i := i + 1;
    }
    assert c[..i] == c;
  }
}

/** What the fill keeps, what it fills and what it leaves. */
module FillFacts {

  import opened Frames
  import opened Fill

  /** When some cell is not NaN, the last such cell is the one found. */
  lemma {:induction false} LastPresentPosition(c: seq<Cell>) returns (j: nat)
    requires !LastPresent(c).Absent?
    ensures j < |c| && c[j] == LastPresent(c) && forall k :: j < k < |c| ==> c[k].Absent?
    decreases |c|
  {
    var n := |c| - 1;
    if !c[n].Absent? {
      j := n;
    } else {
      j := LastPresentPosition(c[..n]);
      assert c[..n][j] == c[j];
      assert forall k :: j < k < n ==> c[..n][k] == c[k];
    }
  }

  /** Entry `i` of the fill is the last value among entries `0..i`. */
  lemma {:induction false} ForwardFillAt(c: seq<Cell>, i: nat)
    requires i < |c|
    ensures ForwardFill(c)[i] == LastPresent(c[..i + 1])
    decreases |c|
  {
    var n := |c| - 1;
    if i < n {
      ForwardFillAt(c[..n], i);
      assert c[..n][..i + 1] == c[..i + 1];
    } else {
      assert c[..i + 1] == c;
    }
  }

  /** A cell that is not NaN is left as it is. */
  lemma FillKeeps(c: seq<Cell>, i: nat)
    requires i < |c| && !c[i].Absent?
    ensures ForwardFill(c)[i] == c[i]
  {
    ForwardFillAt(c, i);
    assert c[..i + 1][i] == c[i];
  }

  /** A filled cell stays NaN exactly when every cell up to it is NaN. */
  lemma FillLeading(c: seq<Cell>, i: nat)
    requires i < |c|
    ensures ForwardFill(c)[i].Absent? <==> forall k :: 0 <= k <= i ==> c[k].Absent?
  {
    ForwardFillAt(c, i);
    assert forall k :: 0 <= k <= i ==> c[..i + 1][k] == c[k];
  }

  /** A NaN after some value takes the nearest earlier value: the one at the
      last position `j < i` whose cell is not NaN. */
  lemma FillNearest(c: seq<Cell>, i: nat)
    requires i < |c| && c[i].Absent? && exists k :: 0 <= k < i && !c[k].Absent?
    ensures exists j :: (0 <= j < i && !c[j].Absent? && ForwardFill(c)[i] == c[j]
      && forall k :: j < k <= i ==> c[k].Absent?)
  {
    ForwardFillAt(c, i);
    var p := c[..i + 1];
    assert forall k :: 0 <= k <= i ==> p[k] == c[k];
    var k0 :| 0 <= k0 < i && !c[k0].Absent?;
    assert !p[k0].Absent?;
    var j := LastPresentPosition(p);
    assert j != i;
  }
}
