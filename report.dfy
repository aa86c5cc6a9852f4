/** What the chart and the page read off the final frame: the index axis
    bounds, rounded out to multiples of 2500, and the summary of the last
    running total of each category. */
module Report {

  import opened Results
  import opened Frames
  import opened Fill

  /** The tick spacing of the index axis. */
  const Step: int := 2500

  /** `Series.min()`, skipping NaN: the least number in the column, if any. */
  function Lowest(c: seq<Cell>): (r: Option<real>)
    ensures r.None? <==> forall k :: 0 <= k < |c| ==> !c[k].Num?
    ensures r.Some? ==> forall k :: 0 <= k < |c| && c[k].Num? ==> r.value <= c[k].num
    ensures r.Some? ==> exists k :: 0 <= k < |c| && c[k] == Num(r.value)
  {
    if c == [] then None
    else
      var n := |c| - 1;
      assert forall k :: 0 <= k < n ==> c[..n][k] == c[k];
      var rest := Lowest(c[..n]);
      if !c[n].Num? then rest
      else if rest.Some? && rest.value <= c[n].num then rest
      else Some(c[n].num)
  }

  /** `Series.max()`, skipping NaN: the greatest number in the column, if any. */
  function Highest(c: seq<Cell>): (r: Option<real>)
    ensures r.None? <==> forall k :: 0 <= k < |c| ==> !c[k].Num?
    ensures r.Some? ==> forall k :: 0 <= k < |c| && c[k].Num? ==> c[k].num <= r.value
    ensures r.Some? ==> exists k :: 0 <= k < |c| && c[k] == Num(r.value)
  {
    if c == [] then None
    else
      var n := |c| - 1;
      assert forall k :: 0 <= k < n ==> c[..n][k] == c[k];
      var rest := Highest(c[..n]);
      if !c[n].Num? then rest
      else if rest.Some? && c[n].num <= rest.value then rest
      else Some(c[n].num)
  }

  /** `x` rounded down to a multiple of 2500 by floor division, as an integer. */
  function RoundDown(x: real): int {
    (x / Step as real).Floor * Step
  }

  /** The axis runs from the least close rounded down to a multiple of 2500
      to the greatest close rounded down and raised by one step. A
      column with no number has NaN for both, and `int(NaN)` raises. */
  function AxisBounds(c: seq<Cell>): (r: Result<(int, int)>)
    ensures r.Err? <==> forall k :: 0 <= k < |c| ==> !c[k].Num?
    ensures r.Err? ==> r.error == NoIndexData
  {
    match Lowest(c)
    case None => Err(NoIndexData)
    case Some(lo) => Ok((RoundDown(lo), RoundDown(Highest(c).value) + Step))
  }

  /** The summary keys, in legend order (the keys of `labels_dict`). */
  const Legend: seq<string> := ["estrangeiro_acum", "institucional_acum", "pessoafisica_acum", "instfinanceira_acum", "outros_acum"]

  /** One entry of the summary: the last value of the column, IndexError when
      it has none, 0 when the column is missing. */
  function SummaryValue(f: Frame, key: string): (r: Result<Cell>)
    requires Valid(f)
    ensures key !in f.names ==> r == Ok(Num(0.0))
    ensures key in f.names ==> (r.Err? <==> forall k :: 0 <= k < f.height ==> Column(f, key)[k].Absent?)
    ensures r.Err? ==> r.error == NoValues(key)
    ensures key in f.names && r.Ok? ==> r.value == LastPresent(Column(f, key)) && !r.value.Absent?
  {
    if key in f.names then
      var v := LastPresent(Column(f, key));
      if v.Absent? then Err(NoValues(key)) else Ok(v)
    else Ok(Num(0.0))
  }

  /** The loop of lines 98-100 over `keys`, stopping at the first error. */
  function Summary(f: Frame, keys: seq<string>): (r: Result<seq<(string, Cell)>>)
    requires Valid(f)
    ensures r.Err? ==> exists i :: 0 <= i < |keys| && r.error == NoValues(keys[i])
  {
    if keys == [] then Ok([])
    else
      match SummaryValue(f, keys[0])
      case Err(e) => Err(e)
      case Ok(v) =>
        match Summary(f, keys[1..])
        case Err(e) => Err(e)
        case Ok(rest) => Ok([(keys[0], v)] + rest)
  }

  /** The summary built one legend key at a time. */
  method BuildSummary(f: Frame) returns (r: Result<seq<(string, Cell)>>)
    requires Valid(f)
    ensures r == Summary(f, Legend)
  {
    var resumo: seq<(string, Cell)> := [];
    var i := 0;
    assert Legend[0..] == Legend;
    if Summary(f, Legend).Ok? {
      assert [] + Summary(f, Legend).value == Summary(f, Legend).value;
    }
    while i < |Legend|
      invariant 0 <= i <= |Legend|
      invariant Summary(f, Legend) == match Summary(f, Legend[i..])
        case Err(e) => Err(e)
        case Ok(rest) => Ok(resumo + rest)
    {
      var key := Legend[i];
      var v := SummaryValue(f, key);
      if v.Err? {
        return Err(v.error);
      }
      assert Legend[i..][1..] == Legend[i + 1..];
      ghost var tail := Summary(f, Legend[i + 1..]);
      if tail.Ok? {
        assert resumo + ([(key, v.value)] + tail.value) == (resumo + [(key, v.value)]) + tail.value;
      }
      resumo := resumo + [(key, v.value)];
      i := i + 1;
    }
    assert resumo + [] == resumo;
    return Ok(resumo);
  }
}

/** The axis bounds enclose the index, and the summary has the legend keys. */
module ReportFacts {

  import opened Results
  import opened Frames
  import opened Fill
  import opened FillFacts
  import opened Report

  /** Rounding down to a multiple of 2500 loses less than 2500. */
  lemma RoundDownBounds(x: real)
    ensures RoundDown(x) % Step == 0
    ensures RoundDown(x) as real <= x < RoundDown(x) as real + Step as real
  {
    var q := (x / Step as real).Floor;
    assert q as real <= x / 2500.0 < q as real + 1.0;
    assert RoundDown(x) == q * 2500;
  }

  /** Every index value lies in `[low, high)`, both ends are multiples of 2500,
      and neither end is more than one step away from the data. */
  lemma AxisBoundsEnclose(c: seq<Cell>)
    requires AxisBounds(c).Ok?
    ensures var (low, high) := AxisBounds(c).value;
      low % Step == 0 && high % Step == 0
      && (forall k :: 0 <= k < |c| && c[k].Num? ==> low as real <= c[k].num < high as real)
      && (exists k :: 0 <= k < |c| && c[k].Num? && c[k].num < low as real + Step as real)
      && (exists k :: 0 <= k < |c| && c[k].Num? && high as real <= c[k].num + Step as real)
  {
    var lo, hi := Lowest(c).value, Highest(c).value;
    RoundDownBounds(lo);
    RoundDownBounds(hi);
  }

  /** The summary has exactly the keys asked for, in order, each with its
      value; it fails exactly when one of the keys names a column with no
      value. */
  lemma {:induction false} SummaryKeys(f: Frame, keys: seq<string>)
    requires Valid(f)
    ensures Summary(f, keys).Ok? ==> |Summary(f, keys).value| == |keys|
    ensures Summary(f, keys).Ok? ==> forall i :: 0 <= i < |keys| ==>
      (Summary(f, keys).value[i].0 == keys[i] && Ok(Summary(f, keys).value[i].1) == SummaryValue(f, keys[i]))
    ensures Summary(f, keys).Err? <==> exists i :: 0 <= i < |keys| && SummaryValue(f, keys[i]).Err?
    decreases |keys|
  {
    if keys != [] {
      SummaryKeys(f, keys[1..]);
      var r := Summary(f, keys);
      if r.Ok? {
        var rest := Summary(f, keys[1..]).value;
        assert r.value == [(keys[0], SummaryValue(f, keys[0]).value)] + rest;
        forall i | 0 < i < |keys|
          ensures r.value[i].0 == keys[i] && Ok(r.value[i].1) == SummaryValue(f, keys[i])
        {
          assert r.value[i] == rest[i - 1];
          assert keys[1..][i - 1] == keys[i];
        }
      }
      if exists i :: 0 <= i < |keys| && SummaryValue(f, keys[i]).Err? {
        var i :| 0 <= i < |keys| && SummaryValue(f, keys[i]).Err?;
        if i > 0 {
          assert keys[1..][i - 1] == keys[i];
        }
      }
    }
  }

  /** The value of a key whose column exists is the column's last value: the
      cell at a position after which there are only NaNs. */
  lemma SummaryIsLastValue(f: Frame, key: string)
    requires Valid(f) && key in f.names && SummaryValue(f, key).Ok?
    ensures exists j :: (0 <= j < f.height && Column(f, key)[j] == SummaryValue(f, key).value
      && forall k :: j < k < f.height ==> Column(f, key)[k].Absent?)
  {
    var j := LastPresentPosition(Column(f, key));
  }
}
