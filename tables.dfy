/** The column-keyed tables the release layer reads from CSV and rewrites:
    a `Table` value for specifications and a `Frame` object for the
    DataFrame the mechanisms copy and then update in place. */
module Tables {
  import opened Numerics

  /** A column: numbers (counts, averages, percentages) or text (group
      keys such as a country or a browser name). */
  datatype Column = NumCol(xs: seq<real>) | TextCol(ss: seq<string>)

  function Len(c: Column): nat {
    match c
    case NumCol(xs) => |xs|
    case TextCol(ss) => |ss|
  }

  /** A table: a row count and its columns by name. */
  datatype Table = Table(rows: nat, cols: map<string, Column>)

  /** Every column has one entry per row. */
  predicate WellFormed(t: Table) {
    forall c :: c in t.cols ==> Len(t.cols[c]) == t.rows
  }

  /** `c` is a numeric column of `t` with one value per row. */
  predicate NumericColumn(t: Table, c: string) {
    c in t.cols && t.cols[c].NumCol? && |t.cols[c].xs| == t.rows
  }

  /** Every listed column that the table carries is numeric. */
  predicate NumericWherePresent(t: Table, cols: seq<string>) {
    forall c :: c in cols && c in t.cols ==> NumericColumn(t, c)
  }

  /** The values of a numeric column. */
  function Values(t: Table, c: string): (xs: seq<real>)
    requires NumericColumn(t, c)
    ensures |xs| == t.rows
  {
    t.cols[c].xs
  }

  /** A DataFrame: the object the mechanisms copy and then update. */
  class Frame {
    var rows: nat
    var cols: map<string, Column>

    /** The frame's current contents as a value. */
    function Value(): (t: Table)
      reads this
      ensures t.rows == rows && t.cols == cols
    {
      Table(rows, cols)
    }

    /** A frame holding the given table. */
    constructor (t: Table)
      ensures Value() == t
    {
      rows := t.rows;
      cols := t.cols;
    }

    /** `DataFrame.copy()`: a new frame with the same contents. */
    method Copy() returns (f: Frame)
      ensures fresh(f) && f.Value() == Value()
    {
      f := new Frame(Value());
    }
  }
}
