/** The date column and the date window of the flow table: `pd.to_datetime`
    turns the `data` column into days (NaT where the text is no date), the mask
    keeps the rows whose day lies between the start and the end, and the
    sort puts them in date order. */
module Window {

  import opened Results
  import opened Frames

  /** The date conversion with errors coerced: each cell becomes
      the day `toDate` reads from it, or NaT where it reads none. */
  function ToDates(toDate: Cell -> Option<Date>, col: seq<Cell>): (r: seq<Cell>)
    ensures |r| == |col|
    ensures forall i :: 0 <= i < |r| ==> (r[i].Day? || r[i].Absent?)
    ensures forall i :: 0 <= i < |r| ==> (r[i].Day? <==> toDate(col[i]).Some?)
    ensures forall i :: 0 <= i < |r| && r[i].Day? ==> r[i].date == toDate(col[i]).value
  {
    seq(|col|, i requires 0 <= i < |col| =>
      match toDate(col[i])
      case Some(d) => Day(d)
      case None => Absent)
  }

  /** The window mask, both ends included: a NaT cell compares false
      to every bound, so only a day inside the closed window passes. */
  predicate InWindow(c: Cell, start: Date, end: Date) {
    c.Day? && DateLe(start, c.date) && DateLe(c.date, end)
  }

  predicate Increasing(idx: seq<nat>) {
    forall a, b :: 0 <= a < b < |idx| ==> idx[a] < idx[b]
  }

  /** The positions the mask keeps, in row order. */
  function Kept(dates: seq<Cell>, start: Date, end: Date): (r: seq<nat>)
    ensures Increasing(r)
    ensures forall k :: 0 <= k < |r| ==> r[k] < |dates| && InWindow(dates[r[k]], start, end)
  {
    if dates == [] then []
    else
      var n := |dates| - 1;
      Kept(dates[..n], start, end) + (if InWindow(dates[n], start, end) then [n] else [])
  }

  /** The mask applied row by row. */
  method FilterWindow(dates: seq<Cell>, start: Date, end: Date) returns (idx: seq<nat>)
    ensures idx == Kept(dates, start, end)
  {
    idx := [];
    var i := 0;
    while i < |dates|
      invariant 0 <= i <= |dates|
      invariant idx == Kept(dates[..i], start, end)
    {
      assert dates[..i + 1][..i] == dates[..i];
      if InWindow(dates[i], start, end) {
        idx := idx + [i];
      }
      i := i + 1;
    }
    assert dates[..i] == dates;
  }

  /** Every kept position points at a day. */
  predicate Dated(dates: seq<Cell>, idx: seq<nat>) {
    forall k :: 0 <= k < |idx| ==> idx[k] < |dates| && dates[idx[k]].Day?
  }

  predicate SortedBy(dates: seq<Cell>, idx: seq<nat>)
    requires Dated(dates, idx)
  {
    forall a, b :: 0 <= a < b < |idx| ==> DateLe(dates[idx[a]].date, dates[idx[b]].date)
  }

  /** Puts position `i` before the first position with a later or equal day. */
  function Insert(dates: seq<Cell>, i: nat, xs: seq<nat>): (r: seq<nat>)
    requires Dated(dates, xs) && i < |dates| && dates[i].Day?
    ensures Dated(dates, r)
    ensures multiset(r) == multiset(xs) + multiset{i}
    ensures SortedBy(dates, xs) ==> SortedBy(dates, r)
  {
    if xs == [] then [i]
    else if DateLe(dates[i].date, dates[xs[0]].date) then
      InsertFront(dates, i, xs);
      [i] + xs
    else
      var t := Insert(dates, i, xs[1..]);
      InsertBehind(dates, i, xs, t);
      [xs[0]] + t
  }

  /** A day no later than the head of a sorted list may go in front of it. */
  lemma InsertFront(dates: seq<Cell>, i: nat, xs: seq<nat>)
    requires Dated(dates, xs) && xs != [] && i < |dates| && dates[i].Day?
    requires DateLe(dates[i].date, dates[xs[0]].date)
    ensures Dated(dates, [i] + xs)
    ensures SortedBy(dates, xs) ==> SortedBy(dates, [i] + xs)
  {
    if SortedBy(dates, xs) {
      FirstIsLeast(dates, xs);
      forall b | 0 < b < |[i] + xs|
        ensures DateLe(dates[i].date, dates[([i] + xs)[b]].date)
      {
        DateLeTrans(dates[i].date, dates[xs[0]].date, dates[xs[b - 1]].date);
      }
    }
  }

  /** A day later than the head of a sorted list goes into its tail `t`. */
  lemma InsertBehind(dates: seq<Cell>, i: nat, xs: seq<nat>, t: seq<nat>)
    requires Dated(dates, xs) && xs != [] && i < |dates| && dates[i].Day?
    requires !DateLe(dates[i].date, dates[xs[0]].date)
    requires Dated(dates, t) && multiset(t) == multiset(xs[1..]) + multiset{i}
    requires SortedBy(dates, xs[1..]) ==> SortedBy(dates, t)
    ensures Dated(dates, [xs[0]] + t)
    ensures multiset([xs[0]] + t) == multiset(xs) + multiset{i}
    ensures SortedBy(dates, xs) ==> SortedBy(dates, [xs[0]] + t)
  {
    assert xs == [xs[0]] + xs[1..];
    if SortedBy(dates, xs) {
      forall b | 0 <= b < |t|
        ensures DateLe(dates[xs[0]].date, dates[t[b]].date)
      {
        assert t[b] in multiset(xs[1..]) + multiset{i};
        if t[b] == i {
          DateLeTotal(dates[i].date, dates[xs[0]].date);
        } else {
          assert t[b] in xs[1..];
          FirstIsLeast(dates, xs);
        }
      }
    }
  }

  /** The kept positions sorted by day (ties in any order). */
  function SortByDate(dates: seq<Cell>, xs: seq<nat>): (r: seq<nat>)
    requires Dated(dates, xs)
    ensures Dated(dates, r) && SortedBy(dates, r)
    ensures multiset(r) == multiset(xs)
  {
    if xs == [] then []
    else
      assert xs == [xs[0]] + xs[1..];
      Insert(dates, xs[0], SortByDate(dates, xs[1..]))
  }

  /** The rows the window keeps, sorted by day, as positions of `dates`. */
  function WindowRows(dates: seq<Cell>, start: Date, end: Date): (r: seq<nat>)
    ensures Dated(dates, r) && SortedBy(dates, r)
  {
    SortByDate(dates, Kept(dates, start, end))
  }

  lemma DateLeTrans(a: Date, b: Date, c: Date)
    requires DateLe(a, b) && DateLe(b, c)
    ensures DateLe(a, c)
  {
  }

  lemma DateLeTotal(a: Date, b: Date)
    ensures DateLe(a, b) || DateLe(b, a)
  {
  }

  /** The head of a sorted list is no later than anything in its tail. */
  lemma FirstIsLeast(dates: seq<Cell>, xs: seq<nat>)
    requires Dated(dates, xs) && SortedBy(dates, xs) && xs != []
    ensures forall x :: x in xs[1..] ==> x < |dates| && dates[x].Day? && DateLe(dates[xs[0]].date, dates[x].date)
  {
    forall x | x in xs[1..]
      ensures x < |dates| && dates[x].Day? && DateLe(dates[xs[0]].date, dates[x].date)
    {
      var b :| 0 <= b < |xs[1..]| && xs[1..][b] == x;
      assert xs[b + 1] == x;
    }
  }
}

/** What the filter and the sort keep. */
module WindowFacts {

  import opened Frames
  import opened Window

  /** No row inside the window is lost and none outside it is kept. */
  lemma {:induction false} KeptExactly(dates: seq<Cell>, start: Date, end: Date, i: nat)
    ensures i in Kept(dates, start, end) <==> i < |dates| && InWindow(dates[i], start, end)
    decreases |dates|
  {
    if dates != [] {
      var n := |dates| - 1;
      KeptExactly(dates[..n], start, end, i);
      if i < n {
        assert dates[..n][i] == dates[i];
      }
    }
  }

  /** Each in-window row is kept exactly once, each other row not at all. */
  lemma KeptOnce(dates: seq<Cell>, start: Date, end: Date, i: nat)
    ensures multiset(Kept(dates, start, end))[i] == if i < |dates| && InWindow(dates[i], start, end) then 1 else 0
  {
    var r := Kept(dates, start, end);
    KeptExactly(dates, start, end, i);
    if i in r {
      var a :| 0 <= a < |r| && r[a] == i;
      IncreasingOnce(r, a);
    }
  }

  /** A value at position `a` of an increasing list occurs once. */
  lemma {:induction false} IncreasingOnce(r: seq<nat>, a: nat)
    requires Increasing(r) && a < |r|
    ensures multiset(r)[r[a]] == 1
    decreases |r|
  {
    assert r == [r[0]] + r[1..];
    if a == 0 {
      assert r[0] !in r[1..];
    } else {
      IncreasingOnce(r[1..], a - 1);
      assert r[a] != r[0];
    }
  }

  /** After the filter and the sort: every row is an in-window day,
      the rows are in date order, and each in-window row appears exactly once. */
  lemma WindowRowsExactly(dates: seq<Cell>, start: Date, end: Date, i: nat)
    ensures forall k :: 0 <= k < |WindowRows(dates, start, end)| ==>
      InWindow(dates[WindowRows(dates, start, end)[k]], start, end)
    ensures multiset(WindowRows(dates, start, end))[i] == if i < |dates| && InWindow(dates[i], start, end) then 1 else 0
  {
    var r := WindowRows(dates, start, end);
    forall k | 0 <= k < |r|
      ensures InWindow(dates[r[k]], start, end)
    {
      assert r[k] in multiset(Kept(dates, start, end));
      KeptExactly(dates, start, end, r[k]);
    }
    KeptOnce(dates, start, end, i);
  }
}
