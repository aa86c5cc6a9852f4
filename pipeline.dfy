/** The table transform of `gerar_grafico` from the scraped flow table and the
    downloaded index history to the final frame, the index axis bounds and
    the summary. The tables are inputs; the end of the window is a parameter
    (the day the page is requested). */
module Pipeline {

  import opened Results
  import opened Frames
  import opened Header
  import opened Valor
  import opened Window
  import opened Flows
  import opened Join
  import opened Fill
  import opened Report
  import FrameFacts

  /** The first day of the window, `'2025-01-01'`. */
  const Start: Date := Date(2025, 1, 1)

  /** What the request yields: the final frame, the bounds of the index axis
      and the summary `resumo`. */
  datatype Outcome = Outcome(frame: Frame, low: int, high: int, summary: seq<(string, Cell)>)

  /** `parse_valor(cell)`, which reads the cell's `str()`. */
  function Reader(lib: Library): Cell -> Result<real> {
    c => ParseValor(Str(lib, c))
  }

  /** Line 42: every header replaced by its canonical key. */
  function RenameColumns(f: Frame): (g: Frame)
    ensures g.cols == f.cols && g.height == f.height && |g.names| == |f.names|
    ensures forall j :: 0 <= j < |f.names| ==> g.names[j] == NormalizeColname(f.names[j])
  {
    Frame(seq(|f.names|, j requires 0 <= j < |f.names| => NormalizeColname(f.names[j])), f.cols, f.height)
  }

  /** Lines 43-44: the `data` column as days, then the rows inside the window
      in date order. */
  function Windowed(lib: Library, f: Frame, end: Date): (g: Frame)
    requires Valid(f) && "data" in f.names
    ensures Valid(g) && "data" in g.names
  {
    var dates := ToDates(lib.toDate, Column(f, "data"));
    var withDays := Assign(f, "data", dates);
    FrameFacts.AssignRead(f, "data", dates);
    Select(withDays, WindowRows(dates, Start, end))
  }

  /** Line 50: the merged `ibovespa` column forward-filled. */
  function Filled(f: Frame): (g: Frame)
    requires Valid(f) && "ibovespa" in f.names
    ensures Valid(g) && g.names == f.names
  {
    Assign(f, "ibovespa", ForwardFill(Column(f, "ibovespa")))
  }

  /** Lines 42-50: from the scraped table to `df_final`, failing where the
      code raises. */
  function Prepare(lib: Library, table: Frame, ibov: seq<IbovRow>, end: Date): (r: Result<Frame>)
    requires Valid(table)
    ensures r.Ok? ==> Valid(r.value) && "ibovespa" in r.value.names && "data" in r.value.names
  {
    var named := RenameColumns(table);
    if "data" !in named.names then Err(MissingColumn("data"))
    else
      var windowed := Windowed(lib, named, end);
      match Enrich(Reader(lib), windowed, FlowColumns(windowed.names))
      case Err(e) => Err(e)
      case Ok(enriched) =>
        match LeftJoin(enriched, ibov)
        case Err(e) => Err(e)
        case Ok(merged) => Ok(Filled(merged))
  }

  /** The whole transform: `df_final`, then the axis bounds (lines 72-73),
      then the summary (lines 98-100). */
  function Run(lib: Library, table: Frame, ibov: seq<IbovRow>, end: Date): (r: Result<Outcome>)
    requires Valid(table)
    ensures r.Ok? ==> Prepare(lib, table, ibov, end) == Ok(r.value.frame)
  {
    match Prepare(lib, table, ibov, end)
    case Err(e) => Err(e)
    case Ok(final) =>
      match AxisBounds(Column(final, "ibovespa"))
      case Err(e) => Err(e)
      case Ok(bounds) =>
        match Summary(final, Legend)
        case Err(e) => Err(e)
        case Ok(resumo) => Ok(Outcome(final, bounds.0, bounds.1, resumo))
  }

  /** The steps as the code takes them, rebinding `df` and `df_final`. */
  method Generate(lib: Library, table: Frame, ibov: seq<IbovRow>, end: Date) returns (r: Result<Outcome>)
    requires Valid(table)
    ensures r == Run(lib, table, ibov, end)
  {
    var df := RenameColumns(table);
    if "data" !in df.names {
      return Err(MissingColumn("data"));
    }
    var named := df;
    var dates := ToDates(lib.toDate, Column(df, "data"));
    df := Assign(df, "data", dates);
    FrameFacts.AssignRead(named, "data", dates);
    var kept := FilterWindow(dates, Start, end);
    df := Select(df, SortByDate(dates, kept));
    var enriched := EnrichFlows(Reader(lib), df);
    if enriched.Err? {
      return Err(enriched.error);
    }
    var merged := LeftJoin(enriched.value, ibov);
    if merged.Err? {
      return Err(merged.error);
    }
    var dfFinal := merged.value;
    var filled := FillForward(Column(dfFinal, "ibovespa"));
    dfFinal := Assign(dfFinal, "ibovespa", filled);
    var bounds := AxisBounds(Column(dfFinal, "ibovespa"));
    if bounds.Err? {
      return Err(bounds.error);
    }
    var resumo := BuildSummary(dfFinal);
    if resumo.Err? {
      return Err(resumo.error);
    }
    return Ok(Outcome(dfFinal, bounds.value.0, bounds.value.1, resumo.value));
  }
}

/** What the transform delivers. */
module PipelineFacts {

  import opened Results
  import opened Frames
  import opened FrameFacts
  import opened Window
  import opened Flows
  import opened FlowsFacts
  import opened Join
  import opened JoinFacts
  import opened Fill
  import opened Report
  import opened ReportFacts
  import opened Pipeline

  /** The legend keys are the categories with `_acum` appended. */
  lemma LegendFollowsCategories()
    ensures |Legend| == |Categories|
    ensures forall k :: 0 <= k < |Legend| ==> Legend[k] == Categories[k] + "_acum"
  {
  }

  /** The summary has the five legend keys, in legend order, each with the
      last value of its column, or 0 when the column is missing. */
  lemma RunSummary(lib: Library, table: Frame, ibov: seq<IbovRow>, end: Date)
    requires Valid(table) && Run(lib, table, ibov, end).Ok?
    ensures var o := Run(lib, table, ibov, end).value;
      Valid(o.frame) && |o.summary| == |Legend|
      && forall i :: 0 <= i < |Legend| ==>
        (o.summary[i].0 == Legend[i] && Ok(o.summary[i].1) == SummaryValue(o.frame, Legend[i]))
  {
    var o := Run(lib, table, ibov, end).value;
    SummaryKeys(o.frame, Legend);
  }

  /** `data` is never the `_bi` or `_acum` column of a flow column. */
  lemma DataIsNoFlowOutput(x: string)
    ensures "data" != x + "_bi" && "data" != x + "_acum"
  {
    var a, b := x + "_bi", x + "_acum";
    assert a[|a| - 1] == 'i' && b[|b| - 1] == 'm';
    assert "data"[3] == 'a';
  }

  /** The days of the windowed, sorted flow table, as positions of the
      converted `data` column. */
  function WindowOf(lib: Library, table: Frame, end: Date): (r: seq<nat>)
    requires Valid(table) && "data" in RenameColumns(table).names
  {
    WindowRows(ToDates(lib.toDate, Column(RenameColumns(table), "data")), Start, end)
  }

  /** With one index row per day, `df_final` has exactly the flow rows
      inside the window, in date order: its `data` column is the converted
      `data` column taken at the positions `WindowRows` keeps, which are the
      in-window rows, each once, sorted. */
  lemma PrepareRows(lib: Library, table: Frame, ibov: seq<IbovRow>, end: Date)
    requires Valid(table) && UniqueDays(ibov) && Prepare(lib, table, ibov, end).Ok?
    ensures "data" in RenameColumns(table).names
    ensures var final := Prepare(lib, table, ibov, end).value;
      var dates := ToDates(lib.toDate, Column(RenameColumns(table), "data"));
      InRange(WindowOf(lib, table, end), |dates|)
      && Column(final, "data") == Take(dates, WindowOf(lib, table, end))
  {
    var named := RenameColumns(table);
    var windowed := Windowed(lib, named, end);
    WindowedData(lib, named, end);
    var cols := FlowColumns(windowed.names);
    EnrichedData(Reader(lib), windowed, cols);
    var enriched := Enrich(Reader(lib), windowed, cols).value;
    MergedData(enriched, ibov);
    FilledData(LeftJoin(enriched, ibov).value);
  }

  /** After line 44 the `data` column holds the converted days at the kept,
      sorted positions. */
  lemma WindowedData(lib: Library, f: Frame, end: Date)
    requires Valid(f) && "data" in f.names
    ensures var dates := ToDates(lib.toDate, Column(f, "data"));
      InRange(WindowRows(dates, Start, end), |dates|)
      && Column(Windowed(lib, f, end), "data") == Take(dates, WindowRows(dates, Start, end))
  {
    var dates := ToDates(lib.toDate, Column(f, "data"));
    AssignRead(f, "data", dates);
    SelectColumn(Assign(f, "data", dates), WindowRows(dates, Start, end), "data");
  }

  /** The flow loop does not write `data`. */
  lemma EnrichedData(read: Cell -> Result<real>, f: Frame, cols: seq<string>)
    requires Valid(f) && "data" in f.names && (forall c :: c in cols ==> c in f.names)
    requires Enrich(read, f, cols).Ok?
    ensures Column(Enrich(read, f, cols).value, "data") == Column(f, "data")
  {
    forall x | x in cols
      ensures "data" != x + "_bi" && "data" != x + "_acum"
    {
      DataIsNoFlowOutput(x);
    }
    EnrichKeeps(read, f, cols, "data");
  }

  /** With one index row per day, the merge leaves `data` as it was. */
  lemma MergedData(f: Frame, ibov: seq<IbovRow>)
    requires Valid(f) && "data" in f.names && LeftJoin(f, ibov).Ok? && UniqueDays(ibov)
    ensures Column(LeftJoin(f, ibov).value, "data") == Column(f, "data")
  {
    LeftJoinColumn(f, ibov, "data");
    JoinIsLookup(Column(f, "data"), ibov);
    assert Take(Column(f, "data"), JoinRows(Column(f, "data"), ibov)) == Column(f, "data");
  }

  /** The fill writes only `ibovespa`. */
  lemma FilledData(f: Frame)
    requires Valid(f) && "ibovespa" in f.names && "data" in f.names
    ensures Column(Filled(f), "data") == Column(f, "data")
  {
    AssignOther(f, "ibovespa", ForwardFill(Column(f, "ibovespa")), "data");
  }

  /** The `ibovespa` column of `df_final` is the forward fill of the closes
      the merge gave the rows. */
  lemma PrepareIbovespa(lib: Library, table: Frame, ibov: seq<IbovRow>, end: Date)
    requires Valid(table) && Prepare(lib, table, ibov, end).Ok?
    ensures var final := Prepare(lib, table, ibov, end).value;
      var named := RenameColumns(table);
      var windowed := Windowed(lib, named, end);
      var enriched := Enrich(Reader(lib), windowed, FlowColumns(windowed.names)).value;
      "data" in enriched.names
      && Column(final, "ibovespa") == ForwardFill(JoinCloses(Column(enriched, "data"), ibov))
  {
    var named := RenameColumns(table);
    var windowed := Windowed(lib, named, end);
    var enriched := Enrich(Reader(lib), windowed, FlowColumns(windowed.names)).value;
    var merged := LeftJoin(enriched, ibov).value;
    LeftJoinColumn(enriched, ibov, "data");
    AssignRead(merged, "ibovespa", ForwardFill(Column(merged, "ibovespa")));
  }
}
