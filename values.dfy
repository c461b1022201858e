/** Cell values, rows and tables (pandas DataFrames) as the two preprocessors see them. */
module Values {

  /** A calendar date as Python's `datetime.date` holds it. */
  datatype Date = Date(year: int, month: int, day: int)

  /** One cell. `Null` stands for pandas' missing value (NaN or None alike); numbers are exact reals. */
  datatype Value = Null | Num(n: real) | Str(s: string) | Day(d: Date)

  /** A row maps column names to cells. */
  type Row = map<string, Value>

  /** A table: its column names in order, and its rows in order. The row index is not modelled. */
  datatype Frame = Frame(columns: seq<string>, rows: seq<Row>)

  /** The exceptions the pipeline can raise. */
  datatype Error =
    | MissingFile(name: string)       // read_csv on a file that is not there
    | MissingColumn(column: string)   // KeyError when selecting, merging on or dropping a column
    | ColumnClash(column: string)     // a merge whose two sides share a non-key column
    | NoObjects                       // pd.concat of an empty list
    | NotAString                      // x.split on a cell that is not a string
    | BadInt(text: string)            // int() on a string that is not a decimal integer
    | Unpack                          // "minutes, seconds = ..." with other than two parts
    | DateArity                       // date(*parts) with other than three parts
    | InvalidDate                     // date() with a year, month or day out of range
    | InvalidSpan                     // ewm with span < 1
    | NonNumeric                      // ewm over a column holding a non-numeric cell

  datatype Result<+T> = Ok(value: T) | Err(error: Error) {
    predicate IsFailure() { Err? }
    function PropagateFailure<U>(): Result<U> requires Err? { Err(error) }
    function Extract(): T requires Ok? { value }
  }

  /** The cell of `r` in column `c`; a column the row lacks reads as missing. */
  function Get(r: Row, c: string): Value {
    if c in r then r[c] else Null
  }

  /** The column `c` of `f`, top to bottom. */
  function Column(f: Frame, c: string): (col: seq<Value>)
    ensures |col| == |f.rows|
  {
    seq(|f.rows|, i requires 0 <= i < |f.rows| => Get(f.rows[i], c))
  }

  /** The cells of `r` in the columns `cols`, in that order: a join or de-duplication key. */
  function KeyOf(r: Row, cols: seq<string>): (k: seq<Value>)
    ensures |k| == |cols|
  {
    seq(|cols|, i requires 0 <= i < |cols| => Get(r, cols[i]))
  }

  predicate Distinct(s: seq<string>) {
    forall i, j :: 0 <= i < j < |s| ==> s[i] != s[j]
  }

  /** A DataFrame's shape: distinct column names, and every row has exactly those columns. */
  predicate WellFormed(f: Frame) {
    && Distinct(f.columns)
    && forall r :: r in f.rows ==> r.Keys == set c | c in f.columns
  }

  /** The set of keys that occur among `rows`. */
  function KeySet(rows: seq<Row>, cols: seq<string>): set<seq<Value>> {
    if rows == [] then {} else {KeyOf(rows[0], cols)} + KeySet(rows[1..], cols)
  }

  lemma {:induction false} KeySetAppend(a: seq<Row>, b: seq<Row>, cols: seq<string>)
    ensures KeySet(a + b, cols) == KeySet(a, cols) + KeySet(b, cols)
  {
    if a != [] {
      assert (a + b)[1..] == a[1..] + b;
      KeySetAppend(a[1..], b, cols);
    } else {
      assert a + b == b;
    }
  }

  lemma {:induction false} KeySetMember(rows: seq<Row>, cols: seq<string>, k: seq<Value>)
    ensures k in KeySet(rows, cols) <==> exists i :: 0 <= i < |rows| && KeyOf(rows[i], cols) == k
  {
    if rows != [] {
      KeySetMember(rows[1..], cols, k);
      if k in KeySet(rows[1..], cols) {
        var i :| 0 <= i < |rows[1..]| && KeyOf(rows[1..][i], cols) == k;
        assert KeyOf(rows[i + 1], cols) == k;
      }
      if exists i :: 0 <= i < |rows| && KeyOf(rows[i], cols) == k {
        var i :| 0 <= i < |rows| && KeyOf(rows[i], cols) == k;
        if i > 0 { assert KeyOf(rows[1..][i - 1], cols) == k; }
      }
    }
  }
}
