/** The table the pipeline works on: named columns of cells, all of one height,
    as a pandas DataFrame holds them. */
module Frames {

  import opened Results

  /** A calendar day; dates compare as (year, month, day). */
  datatype Date = Date(year: int, month: int, day: int)

  predicate DateLe(a: Date, b: Date) {
    a.year < b.year
    || (a.year == b.year && (a.month < b.month || (a.month == b.month && a.day <= b.day)))
  }

  /** One cell: the text read from the page, a number, a day, or NaN/NaT. */
  datatype Cell = Text(text: string) | Num(num: real) | Day(date: Date) | Absent

  /** The library calls made on single cells: `pd.to_datetime` (None for NaT)
      and `str()` of a number and of a day. */
  datatype Library = Library(toDate: Cell -> Option<Date>, showNum: real -> string, showDay: Date -> string)

  /** `str(cell)`: a text as it is, NaN as 'nan', otherwise the library's rendering. */
  function Str(lib: Library, c: Cell): (r: string)
    ensures c.Text? ==> r == c.text
    ensures c.Absent? ==> r == "nan"
  {
    match c
    case Text(s) => s
    case Num(x) => lib.showNum(x)
    case Day(d) => lib.showDay(d)
    case Absent => "nan"
  }

  /** Column `j` is named `names[j]` and holds `cols[j]`; every column holds
      `height` cells, one per row. */
  datatype Frame = Frame(names: seq<string>, cols: seq<seq<Cell>>, height: nat)

  predicate Valid(f: Frame) {
    |f.names| == |f.cols| && forall j :: 0 <= j < |f.cols| ==> |f.cols[j]| == f.height
  }

  /** The position of the first column called `n`, as `df[n]` finds it. */
  function IndexOf(names: seq<string>, n: string): (r: Option<nat>)
    ensures r.Some? ==> r.value < |names| && names[r.value] == n
    ensures r.Some? ==> forall k :: 0 <= k < r.value ==> names[k] != n
    ensures r.None? <==> n !in names
  {
    if names == [] then None
    else if names[0] == n then Some(0)
    else
      match IndexOf(names[1..], n)
      case None => None
      case Some(k) => Some(k + 1)
  }

  /** Indexing a frame by name: the cells of the first column called `n`. */
  function Column(f: Frame, n: string): (c: seq<Cell>)
    requires Valid(f) && n in f.names
    ensures |c| == f.height
  {
    f.cols[IndexOf(f.names, n).value]
  }

  /** Assigning a column by name: replaces the first column called `n`, or appends a new
      column `n` at the right. */
  function Assign(f: Frame, n: string, c: seq<Cell>): (g: Frame)
    requires Valid(f) && |c| == f.height
    ensures Valid(g) && g.height == f.height
    ensures forall m :: m in g.names <==> m in f.names || m == n
  {
    match IndexOf(f.names, n)
    case Some(j) => f.(cols := f.cols[j := c])
    case None => Frame(f.names + [n], f.cols + [c], f.height)
  }

  /** The cells of `c` at the positions `idx`, in the order of `idx`. */
  function Take(c: seq<Cell>, idx: seq<nat>): (r: seq<Cell>)
    requires forall k :: 0 <= k < |idx| ==> idx[k] < |c|
    ensures |r| == |idx| && forall k :: 0 <= k < |idx| ==> r[k] == c[idx[k]]
  {
    seq(|idx|, k requires 0 <= k < |idx| => c[idx[k]])
  }

  predicate InRange(idx: seq<nat>, n: nat) {
    forall k :: 0 <= k < |idx| ==> idx[k] < n
  }

  /** The rows at positions `idx`, in that order (a boolean mask or a reordering). */
  function Select(f: Frame, idx: seq<nat>): (g: Frame)
    requires Valid(f) && InRange(idx, f.height)
    ensures Valid(g) && g.names == f.names && g.height == |idx|
    ensures forall j :: 0 <= j < |f.cols| ==> g.cols[j] == Take(f.cols[j], idx)
  {
    Frame(f.names, seq(|f.cols|, j requires 0 <= j < |f.cols| => Take(f.cols[j], idx)), |idx|)
  }
}

/** What assigning and selecting do to the columns of a frame. */
module FrameFacts {

  import opened Results
  import opened Frames

  /** The assigned column reads back. */
  lemma AssignRead(f: Frame, n: string, c: seq<Cell>)
    requires Valid(f) && |c| == f.height
    ensures n in Assign(f, n, c).names && Column(Assign(f, n, c), n) == c
  {
    var g := Assign(f, n, c);
    match IndexOf(f.names, n)
    case Some(j) => {
      assert g.names == f.names;
    }
    case None => {
      assert IndexOf(g.names, n) == Some(|f.names|) by {
        IndexOfAppend(f.names, n, n);
      }
    }
  }

  /** Every other column is left as it was. */
  lemma AssignOther(f: Frame, n: string, c: seq<Cell>, m: string)
    requires Valid(f) && |c| == f.height && m in f.names && m != n
    ensures m in Assign(f, n, c).names && Column(Assign(f, n, c), m) == Column(f, m)
  {
    var g := Assign(f, n, c);
    match IndexOf(f.names, n)
    case Some(j) => {
      assert IndexOf(f.names, m).value != j;
    }
    case None => {
      IndexOfAppend(f.names, n, m);
    }
  }

  /** Looking a name up after appending one. */
  lemma {:induction false} IndexOfAppend(names: seq<string>, n: string, m: string)
    requires n !in names
    ensures IndexOf(names + [n], m) == if m in names then IndexOf(names, m) else if m == n then Some(|names|) else None
    decreases |names|
  {
    if names != [] {
      assert (names + [n])[1..] == names[1..] + [n];
      IndexOfAppend(names[1..], n, m);
    } else {
      assert [] + [n] == [n];
    }
  }

  /** Selecting rows selects the same rows of every column. */
  lemma SelectColumn(f: Frame, idx: seq<nat>, n: string)
    requires Valid(f) && InRange(idx, f.height) && n in f.names
    ensures n in Select(f, idx).names && Column(Select(f, idx), n) == Take(Column(f, n), idx)
  {
  }
}
