/** The left merge of the flow table with the index history on the day: each flow row, in order, is
    paired with every index row of the same day, or kept once with a NaN close
    when there is none. */
module Join {

  import opened Results
  import opened Frames

  /** One row of the downloaded index history: its day and its close. */
  datatype IbovRow = IbovRow(date: Date, close: Cell)

  /** The closes of the index rows whose day is the cell `d`, in their order. */
  function Matches(d: Cell, ibov: seq<IbovRow>): (r: seq<Cell>)
    ensures |r| <= |ibov|
    ensures forall m :: m in r ==> exists j :: 0 <= j < |ibov| && Day(ibov[j].date) == d && ibov[j].close == m
    ensures r == [] <==> forall j :: 0 <= j < |ibov| ==> Day(ibov[j].date) != d
  {
    if ibov == [] then []
    else
      var n := |ibov| - 1;
      assert forall j :: 0 <= j < n ==> ibov[..n][j] == ibov[j];
      Matches(d, ibov[..n]) + (if Day(ibov[n].date) == d then [ibov[n].close] else [])
  }

  /** The closes a left row receives: its matches, or one NaN. */
  function RowCloses(d: Cell, ibov: seq<IbovRow>): (r: seq<Cell>)
    ensures r != []
  {
    var m := Matches(d, ibov);
    if m == [] then [Absent] else m
  }

  /** For each output row, the left row it comes from. */
  function JoinRows(dates: seq<Cell>, ibov: seq<IbovRow>): (r: seq<nat>)
    ensures InRange(r, |dates|)
  {
    if dates == [] then []
    else
      var n := |dates| - 1;
      JoinRows(dates[..n], ibov) + seq(|RowCloses(dates[n], ibov)|, _ => n)
  }

  /** For each output row, its `ibovespa` cell. */
  function JoinCloses(dates: seq<Cell>, ibov: seq<IbovRow>): seq<Cell> {
    if dates == [] then []
    else
      var n := |dates| - 1;
      JoinCloses(dates[..n], ibov) + RowCloses(dates[n], ibov)
  }

  /** One close per output row. */
  lemma {:induction false} JoinLength(dates: seq<Cell>, ibov: seq<IbovRow>)
    ensures |JoinCloses(dates, ibov)| == |JoinRows(dates, ibov)|
    decreases |dates|
  {
    if dates != [] {
      JoinLength(dates[..|dates| - 1], ibov);
    }
  }

  /** The merged frame: the left rows repeated as the join pairs them, with the
      index close appended as column `ibovespa`. A left column already called
      `ibovespa` would leave the merge with `ibovespa_x` and `ibovespa_y`, and
      the next read of the `ibovespa` column raises KeyError. */
  function LeftJoin(f: Frame, ibov: seq<IbovRow>): (r: Result<Frame>)
    requires Valid(f) && "data" in f.names
    ensures r.Err? <==> "ibovespa" in f.names
    ensures r.Err? ==> r.error == MissingColumn("ibovespa")
    ensures r.Ok? ==> Valid(r.value) && r.value.names == f.names + ["ibovespa"]
    ensures r.Ok? ==> r.value.height == |JoinRows(Column(f, "data"), ibov)|
  {
    if "ibovespa" in f.names then Err(MissingColumn("ibovespa"))
    else
      var dates := Column(f, "data");
      JoinLength(dates, ibov);
      Ok(Assign(Select(f, JoinRows(dates, ibov)), "ibovespa", JoinCloses(dates, ibov)))
  }
}

/** The merge keeps the flow rows in order, and with one index row per day it
    is a lookup. */
module JoinFacts {

  import opened Results
  import opened Frames
  import opened FrameFacts
  import opened Join

  predicate NonDecreasing(r: seq<nat>) {
    forall a, b :: 0 <= a < b < |r| ==> r[a] <= r[b]
  }

  /** Output rows come from the left rows in their order, and every left row
      is there at least once. */
  lemma {:induction false} JoinRowsOrder(dates: seq<Cell>, ibov: seq<IbovRow>)
    ensures NonDecreasing(JoinRows(dates, ibov))
    ensures forall i :: 0 <= i < |dates| ==> i in JoinRows(dates, ibov)
    decreases |dates|
  {
    if dates != [] {
      var n := |dates| - 1;
      var p := JoinRows(dates[..n], ibov);
      var q := seq(|RowCloses(dates[n], ibov)|, _ => n);
      JoinRowsOrder(dates[..n], ibov);
      assert JoinRows(dates, ibov) == p + q;
      assert q[0] == n;
      forall i | 0 <= i < |dates|
        ensures i in p + q
      {
        if i < n {
          assert i in p;
        } else {
          assert (p + q)[|p|] == n;
        }
      }
    }
  }

  /** The index history has one row per day. */
  predicate UniqueDays(ibov: seq<IbovRow>) {
    forall a, b :: 0 <= a < b < |ibov| ==> ibov[a].date != ibov[b].date
  }

  /** The close for one left day: the close of the index row of that day, or NaN. */
  lemma {:induction false} OneMatch(d: Cell, ibov: seq<IbovRow>)
    requires UniqueDays(ibov)
    ensures |Matches(d, ibov)| <= 1
    ensures forall j :: 0 <= j < |ibov| && Day(ibov[j].date) == d ==> Matches(d, ibov) == [ibov[j].close]
    decreases |ibov|
  {
    if ibov != [] {
      var n := |ibov| - 1;
      var pre := ibov[..n];
      assert UniqueDays(pre) by {
        assert forall j :: 0 <= j < n ==> pre[j] == ibov[j];
      }
      OneMatch(d, pre);
      if Day(ibov[n].date) == d {
        assert forall j :: 0 <= j < n ==> pre[j] == ibov[j];
        assert Matches(d, pre) == [];
      }
      forall j | 0 <= j < n && Day(ibov[j].date) == d
        ensures Matches(d, ibov) == [ibov[j].close]
      {
        assert pre[j] == ibov[j];
      }
    }
  }

  lemma OneClose(d: Cell, ibov: seq<IbovRow>)
    requires UniqueDays(ibov)
    ensures |RowCloses(d, ibov)| == 1
  {
    OneMatch(d, ibov);
  }

  /** With one index row per day, the merge keeps exactly the left rows, in
      order, and row `i` receives the close of its day, or NaN when the index
      has no row for that day. */
  lemma JoinIsLookup(dates: seq<Cell>, ibov: seq<IbovRow>)
    requires UniqueDays(ibov)
    ensures |JoinRows(dates, ibov)| == |dates|
    ensures forall i :: 0 <= i < |dates| ==> JoinRows(dates, ibov)[i] == i
    ensures |JoinCloses(dates, ibov)| == |dates|
    ensures forall i :: 0 <= i < |dates| ==> JoinCloses(dates, ibov)[i] == RowCloses(dates[i], ibov)[0]
  {
    JoinRowsIdentity(dates, ibov);
    JoinClosesLookup(dates, ibov);
  }

  lemma {:induction false} JoinRowsIdentity(dates: seq<Cell>, ibov: seq<IbovRow>)
    requires UniqueDays(ibov)
    ensures |JoinRows(dates, ibov)| == |dates|
    ensures forall i :: 0 <= i < |dates| ==> JoinRows(dates, ibov)[i] == i
    decreases |dates|
  {
    if dates != [] {
      var n := |dates| - 1;
      JoinRowsIdentity(dates[..n], ibov);
      OneClose(dates[n], ibov);
      var q := seq(|RowCloses(dates[n], ibov)|, _ => n);
      assert q == [n];
      assert JoinRows(dates, ibov) == JoinRows(dates[..n], ibov) + [n];
    }
  }

  lemma {:induction false} JoinClosesLookup(dates: seq<Cell>, ibov: seq<IbovRow>)
    requires UniqueDays(ibov)
    ensures |JoinCloses(dates, ibov)| == |dates|
    ensures forall i :: 0 <= i < |dates| ==> JoinCloses(dates, ibov)[i] == RowCloses(dates[i], ibov)[0]
    decreases |dates|
  {
    if dates != [] {
      var n := |dates| - 1;
      var p := JoinCloses(dates[..n], ibov);
      JoinClosesLookup(dates[..n], ibov);
      OneClose(dates[n], ibov);
      var last := RowCloses(dates[n], ibov);
      assert JoinCloses(dates, ibov) == p + last;
      forall i | 0 <= i < |dates|
        ensures (p + last)[i] == RowCloses(dates[i], ibov)[0]
      {
        if i < n {
          assert dates[..n][i] == dates[i];
          assert (p + last)[i] == p[i];
        } else {
          assert (p + last)[i] == last[0];
        }
      }
    }
  }

  /** A row's close is the close of the index row of its day, and NaN when
      no index row has its day. */
  lemma LookupClose(d: Cell, ibov: seq<IbovRow>, j: nat)
    requires UniqueDays(ibov)
    ensures (forall k :: 0 <= k < |ibov| ==> Day(ibov[k].date) != d) ==> RowCloses(d, ibov)[0] == Absent
    ensures j < |ibov| && Day(ibov[j].date) == d ==> RowCloses(d, ibov)[0] == ibov[j].close
  {
    OneMatch(d, ibov);
  }

  /** Every left column, row by row, as the merge repeats the rows. */
  lemma LeftJoinColumn(f: Frame, ibov: seq<IbovRow>, m: string)
    requires Valid(f) && "data" in f.names && LeftJoin(f, ibov).Ok? && m in f.names
    ensures Column(LeftJoin(f, ibov).value, m) == Take(Column(f, m), JoinRows(Column(f, "data"), ibov))
    ensures Column(LeftJoin(f, ibov).value, "ibovespa") == JoinCloses(Column(f, "data"), ibov)
  {
    var rows := JoinRows(Column(f, "data"), ibov);
    var s := Select(f, rows);
    JoinLength(Column(f, "data"), ibov);
    SelectColumn(f, rows, m);
    AssignOther(s, "ibovespa", JoinCloses(Column(f, "data"), ibov), m);
    AssignRead(s, "ibovespa", JoinCloses(Column(f, "data"), ibov));
  }
}
