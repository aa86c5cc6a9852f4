/** The flow columns of the table and the two columns added for each of them:
    `<col>_bi`, every cell read by `parse_valor`, and `<col>_acum`, the running
    total of `<col>_bi` down the date-sorted rows. */
module Flows {

  import opened Results
  import opened Strings
  import opened Frames

  /** The investor categories, in legend order. */
  const Categories: seq<string> := ["estrangeiro", "institucional", "pessoafisica", "instfinanceira", "outros"]

  /** A flow column is one whose key contains one of the categories. */
  predicate IsFlowName(c: string) {
    exists k :: 0 <= k < |Categories| && Contains(c, Categories[k])
  }

  /** The columns whose name contains some category key, in table order. */
  function FlowColumns(names: seq<string>): (r: seq<string>)
    ensures forall c :: c in r <==> c in names && IsFlowName(c)
    ensures |r| <= |names|
  {
    if names == [] then []
    else (if IsFlowName(names[0]) then [names[0]] else []) + FlowColumns(names[1..])
  }

  /** Applying `parse_valor` to every cell of a column, with `read` standing for `parse_valor` of
      the cell's text: every cell read, or the error of the first cell that
      cannot be read. */
  function ParseColumn(read: Cell -> Result<real>, col: seq<Cell>): (r: Result<seq<real>>)
    ensures r.Ok? <==> forall i :: 0 <= i < |col| ==> read(col[i]).Ok?
    ensures r.Ok? ==> |r.value| == |col|
    ensures r.Ok? ==> forall i :: 0 <= i < |col| ==> r.value[i] == read(col[i]).value
    ensures r.Err? ==> exists i :: (0 <= i < |col| && read(col[i]) == Err(r.error)
      && forall k :: 0 <= k < i ==> read(col[k]).Ok?)
  {
    if col == [] then Ok([])
    else
      match read(col[0])
      case Err(e) => Err(e)
      case Ok(v) =>
        match ParseColumn(read, col[1..])
        case Err(e) =>
          assert forall k :: 1 <= k < |col| ==> col[1..][k - 1] == col[k];
          Err(e)
        case Ok(vs) => Ok([v] + vs)
  }

  /** The numbers as cells. */
  function Nums(xs: seq<real>): (r: seq<Cell>)
    ensures |r| == |xs| && forall i :: 0 <= i < |xs| ==> r[i] == Num(xs[i])
  {
    seq(|xs|, i requires 0 <= i < |xs| => Num(xs[i]))
  }

  function Sum(xs: seq<real>): real {
    if xs == [] then 0.0 else Sum(xs[..|xs| - 1]) + xs[|xs| - 1]
  }

  /** The cumulative sum of a column: the running totals, one per entry. */
  function PrefixSum(xs: seq<real>): (r: seq<real>)
    ensures |r| == |xs|
  {
    if xs == [] then [] else PrefixSum(xs[..|xs| - 1]) + [Sum(xs)]
  }

  /** The cumulative sum as a running total. */
  method CumSum(xs: seq<real>) returns (r: seq<real>)
    ensures r == PrefixSum(xs)
  {
    r := [];
    var acc := 0.0;
    var i := 0;
    while i < |xs|
      invariant 0 <= i <= |xs|
      invariant acc == Sum(xs[..i])
      invariant r == PrefixSum(xs[..i])
    {
      assert xs[..i + 1][..i] == xs[..i];
      acc := acc + xs[i];
      r := r + [acc];
      i := i + 1;
    }
    assert xs[..i] == xs;
  }

  /** One pass of the loop body: column `c` read cell by cell into `c_bi`,
      then the running totals of `c_bi` stored as `c_acum`. */
  function AddCategory(read: Cell -> Result<real>, f: Frame, c: string): (r: Result<Frame>)
    requires Valid(f) && c in f.names
    ensures r.Ok? <==> ParseColumn(read, Column(f, c)).Ok?
    ensures r.Err? ==> r == Err(ParseColumn(read, Column(f, c)).error)
    ensures r.Ok? ==> Valid(r.value) && r.value.height == f.height
    ensures r.Ok? ==> forall m :: m in r.value.names <==> m in f.names || m == c + "_bi" || m == c + "_acum"
  {
    match ParseColumn(read, Column(f, c))
    case Err(e) => Err(e)
    case Ok(vs) =>
      var g := Assign(f, c + "_bi", Nums(vs));
      Ok(Assign(g, c + "_acum", Nums(PrefixSum(vs))))
  }

  /** The loop over the flow columns, one pass each, stopping at the first error. */
  function Enrich(read: Cell -> Result<real>, f: Frame, cols: seq<string>): (r: Result<Frame>)
    requires Valid(f) && forall c :: c in cols ==> c in f.names
    ensures r.Ok? ==> Valid(r.value) && r.value.height == f.height
    ensures r.Ok? ==> forall m :: m in f.names ==> m in r.value.names
    decreases |cols|
  {
    if cols == [] then Ok(f)
    else
      match AddCategory(read, f, cols[0])
      case Err(e) => Err(e)
      case Ok(g) => Enrich(read, g, cols[1..])
  }

  /** Lines 45-48: the flow columns are listed once, before the loop adds any
      column, and each gets its `_bi` and `_acum` columns in turn. */
  method EnrichFlows(read: Cell -> Result<real>, f: Frame) returns (r: Result<Frame>)
    requires Valid(f)
    ensures r == Enrich(read, f, FlowColumns(f.names))
  {
    var cols := FlowColumns(f.names);
    var df := f;
    var i := 0;
    while i < |cols|
      invariant 0 <= i <= |cols|
      invariant Valid(df) && forall c :: c in cols ==> c in df.names
      invariant Enrich(read, f, cols) == Enrich(read, df, cols[i..])
    {
      var col := cols[i];
      var parsed := ParseColumn(read, Column(df, col));
      if parsed.Err? {
        return Err(parsed.error);
      }
      var acum := CumSum(parsed.value);
      df := Assign(df, col + "_bi", Nums(parsed.value));
      df := Assign(df, col + "_acum", Nums(acum));
      assert cols[i..][1..] == cols[i + 1..];
      i := i + 1;
    }
    return Ok(df);
  }
}

/** The prefix sums, and what adding the columns changes. */
module FlowsFacts {

  import opened Results
  import opened Frames
  import opened FrameFacts
  import opened Flows

  /** `_acum[i]` is the total of `_bi[0..i]`. */
  lemma {:induction false} PrefixSumIsTotal(xs: seq<real>, i: nat)
    requires i < |xs|
    ensures PrefixSum(xs)[i] == Sum(xs[..i + 1])
    decreases |xs|
  {
    var n := |xs| - 1;
    if i < n {
      PrefixSumIsTotal(xs[..n], i);
      assert xs[..n][..i + 1] == xs[..i + 1];
    } else {
      assert xs[..i + 1] == xs;
    }
  }

  /** `_acum[0] = _bi[0]` and `_acum[i] = _acum[i-1] + _bi[i]`. */
  lemma PrefixSumStep(xs: seq<real>, i: nat)
    requires 0 < i < |xs|
    ensures PrefixSum(xs)[0] == xs[0]
    ensures PrefixSum(xs)[i] == PrefixSum(xs)[i - 1] + xs[i]
  {
    PrefixSumHead(xs);
    PrefixSumIsTotal(xs, i);
    PrefixSumIsTotal(xs, i - 1);
    SumSnoc(xs, i);
  }

  lemma PrefixSumHead(xs: seq<real>)
    requires xs != []
    ensures PrefixSum(xs)[0] == xs[0]
  {
    PrefixSumIsTotal(xs, 0);
    SumSnoc(xs, 0);
    assert xs[..0] == [];
  }

  lemma SumSnoc(xs: seq<real>, i: nat)
    requires i < |xs|
    ensures Sum(xs[..i + 1]) == Sum(xs[..i]) + xs[i]
  {
    assert xs[..i + 1][..i] == xs[..i];
  }

  /** The flow columns keep the order of the table's columns. */
  lemma {:induction false} FlowColumnsConcat(a: seq<string>, b: seq<string>)
    ensures FlowColumns(a + b) == FlowColumns(a) + FlowColumns(b)
    decreases |a|
  {
    if a == [] {
      assert a + b == b;
    } else {
      assert (a + b)[1..] == a[1..] + b;
      FlowColumnsConcat(a[1..], b);
    }
  }

  /** After one pass: `<c>_bi` holds the values read from `c`, `<c>_acum`
      their running totals, and every other column is as it was. */
  lemma AddCategoryColumns(read: Cell -> Result<real>, f: Frame, c: string, m: string)
    requires Valid(f) && c in f.names && AddCategory(read, f, c).Ok?
    ensures var g := AddCategory(read, f, c).value;
      var vs := ParseColumn(read, Column(f, c)).value;
      c + "_bi" in g.names && c + "_acum" in g.names
      && Column(g, c + "_acum") == Nums(PrefixSum(vs))
      && Column(g, c + "_bi") == Nums(vs)
      && (m in f.names && m != c + "_bi" && m != c + "_acum" ==> Column(g, m) == Column(f, m))
  {
    var vs := ParseColumn(read, Column(f, c)).value;
    var g1 := Assign(f, c + "_bi", Nums(vs));
    AssignRead(f, c + "_bi", Nums(vs));
    AssignRead(g1, c + "_acum", Nums(PrefixSum(vs)));
    SuffixesDiffer(c, c);
    AssignOther(g1, c + "_acum", Nums(PrefixSum(vs)), c + "_bi");
    if m in f.names && m != c + "_bi" && m != c + "_acum" {
      AssignOther(f, c + "_bi", Nums(vs), m);
      AssignOther(g1, c + "_acum", Nums(PrefixSum(vs)), m);
    }
  }

  /** No flow column is the `_bi` or `_acum` column of another. */
  predicate Independent(cols: seq<string>) {
    forall x, y :: x in cols && y in cols ==> x + "_bi" != y && x + "_acum" != y
  }

  /** The two suffixes tell their columns apart. */
  lemma SuffixesDiffer(x: string, y: string)
    ensures x + "_bi" != y + "_acum"
    ensures x + "_bi" == y + "_bi" ==> x == y
    ensures x + "_acum" == y + "_acum" ==> x == y
  {
    var a, b := x + "_bi", y + "_acum";
    assert a[|a| - 1] == 'i' && b[|b| - 1] == 'm';
    assert (x + "_bi")[..|x|] == x && (y + "_bi")[..|y|] == y;
    assert (x + "_acum")[..|x|] == x && (y + "_acum")[..|y|] == y;
  }

  /** A column that no pass writes is left as it was. */
  lemma {:induction false} EnrichKeeps(read: Cell -> Result<real>, f: Frame, cols: seq<string>, m: string)
    requires Valid(f) && (forall c :: c in cols ==> c in f.names) && Enrich(read, f, cols).Ok?
    requires m in f.names && forall x :: x in cols ==> m != x + "_bi" && m != x + "_acum"
    ensures Column(Enrich(read, f, cols).value, m) == Column(f, m)
    decreases |cols|
  {
    if cols != [] {
      var g := AddCategory(read, f, cols[0]).value;
      AddCategoryColumns(read, f, cols[0], m);
      assert forall c :: c in cols[1..] ==> c in cols;
      EnrichKeeps(read, g, cols[1..], m);
    }
  }

  /** Categories are independent: when no flow column is another's `_bi` or
      `_acum` column, each flow column's two new columns hold its own values
      read by `parse_valor` and their running totals, whatever the other
      categories hold. */
  lemma {:induction false} EnrichColumns(read: Cell -> Result<real>, f: Frame, cols: seq<string>, c: string)
    requires Valid(f) && (forall x :: x in cols ==> x in f.names) && Enrich(read, f, cols).Ok?
    requires Independent(cols) && c in cols
    ensures ParseColumn(read, Column(f, c)).Ok?
    ensures var g := Enrich(read, f, cols).value;
      var vs := ParseColumn(read, Column(f, c)).value;
      c + "_bi" in g.names && c + "_acum" in g.names
      && Column(g, c + "_bi") == Nums(vs) && Column(g, c + "_acum") == Nums(PrefixSum(vs))
    decreases |cols|
  {
    var g := AddCategory(read, f, cols[0]).value;
    var rest := cols[1..];
    IndependentTail(cols);
    if c in rest {
      assert c != cols[0] + "_bi" && c != cols[0] + "_acum";
      AddCategoryColumns(read, f, cols[0], c);
      EnrichColumns(read, g, rest, c);
    } else {
      EnrichColumnsFirst(read, f, cols);
    }
  }

  lemma IndependentTail(cols: seq<string>)
    requires Independent(cols) && cols != []
    ensures Independent(cols[1..]) && forall x :: x in cols[1..] ==> x in cols
  {
    assert forall x :: x in cols[1..] ==> x in cols;
  }

  /** The first flow column's new columns survive the later passes. */
  lemma EnrichColumnsFirst(read: Cell -> Result<real>, f: Frame, cols: seq<string>)
    requires Valid(f) && (forall x :: x in cols ==> x in f.names) && Enrich(read, f, cols).Ok?
    requires cols != [] && cols[0] !in cols[1..]
    requires forall x :: x in cols[1..] ==> x in cols
    ensures ParseColumn(read, Column(f, cols[0])).Ok?
    ensures var g := Enrich(read, f, cols).value;
      var c := cols[0];
      var vs := ParseColumn(read, Column(f, c)).value;
      c + "_bi" in g.names && c + "_acum" in g.names
      && Column(g, c + "_bi") == Nums(vs) && Column(g, c + "_acum") == Nums(PrefixSum(vs))
  {
    var c := cols[0];
    var g := AddCategory(read, f, c).value;
    var rest := cols[1..];
    AddCategoryColumns(read, f, c, c);
    forall x | x in rest
      ensures c + "_bi" != x + "_bi" && c + "_bi" != x + "_acum"
      ensures c + "_acum" != x + "_bi" && c + "_acum" != x + "_acum"
    {
      SuffixesDiffer(c, x);
      SuffixesDiffer(x, c);
    }
    EnrichKeeps(read, g, rest, c + "_bi");
    EnrichKeeps(read, g, rest, c + "_acum");
  }

  /** The loop stops with the first error: it fails exactly when some flow
      column holds a cell `parse_valor` cannot read. */
  lemma {:induction false} EnrichFails(read: Cell -> Result<real>, f: Frame, cols: seq<string>)
    requires Valid(f) && (forall x :: x in cols ==> x in f.names) && Independent(cols)
    ensures Enrich(read, f, cols).Err? <==> exists c :: c in cols && ParseColumn(read, Column(f, c)).Err?
    decreases |cols|
  {
    if cols != [] {
      var c := cols[0];
      var rest := cols[1..];
      assert forall x :: x in rest ==> x in cols;
      assert Independent(rest);
      if AddCategory(read, f, c).Ok? {
        var g := AddCategory(read, f, c).value;
        forall x | x in rest
          ensures Column(g, x) == Column(f, x)
        {
          AddCategoryColumns(read, f, c, x);
        }
        EnrichFails(read, g, rest);
      }
    }
  }
}
