/** The DataFrame operations the preprocessors use: column selection and dropping, column assignment,
    concatenation, de-duplication and row filtering. */
module Frames {
  import opened Values

  /** The first of `want` that `have` lacks, if any (pandas raises KeyError naming missing labels). */
  function FirstMissing(want: seq<string>, have: seq<string>): (m: seq<string>)
    ensures |m| <= 1
    ensures m == [] <==> forall c :: c in want ==> c in have
    ensures m != [] ==> m[0] in want && m[0] !in have
  {
    if want == [] then []
    else if want[0] !in have then [want[0]]
    else FirstMissing(want[1..], have)
  }

  /** The row restricted (or padded with missing values) to exactly the columns `cols`. */
  function Project(r: Row, cols: seq<string>): (p: Row)
    ensures p.Keys == set c | c in cols
    ensures forall c :: c in cols ==> p[c] == Get(r, c)
  {
    map c | c in cols :: Get(r, c)
  }

  /** `f[cols]`: the listed columns, in the listed order; KeyError if one is missing. */
  function Select(f: Frame, cols: seq<string>): (r: Result<Frame>)
    ensures r.Ok? <==> forall c :: c in cols ==> c in f.columns
    ensures r.Ok? ==> r.value.columns == cols && |r.value.rows| == |f.rows|
    ensures r.Ok? ==> forall i, c :: 0 <= i < |f.rows| && c in cols ==> Get(r.value.rows[i], c) == Get(f.rows[i], c)
    ensures r.Ok? && Distinct(cols) ==> WellFormed(r.value)
  {
    var m := FirstMissing(cols, f.columns);
    if m != [] then Err(MissingColumn(m[0]))
    else Ok(Frame(cols, seq(|f.rows|, i requires 0 <= i < |f.rows| => Project(f.rows[i], cols))))
  }

  /** The names of `xs` that are not in `ys`, in order. */
  function Without(xs: seq<string>, ys: seq<string>): (r: seq<string>)
    ensures forall c :: c in r <==> c in xs && c !in ys
    ensures Distinct(xs) ==> Distinct(r)
    ensures |r| <= |xs|
  {
    if xs == [] then []
    else if xs[0] in ys then Without(xs[1..], ys)
    else [xs[0]] + Without(xs[1..], ys)
  }

  function RemoveKeys(r: Row, cols: seq<string>): (p: Row)
    ensures p.Keys == r.Keys - set c | c in cols
  {
    map c | c in r && c !in cols :: r[c]
  }

  /** `f.drop(columns=cols)`: KeyError if one is missing; otherwise every other column is kept as it was. */
  function Drop(f: Frame, cols: seq<string>): (r: Result<Frame>)
    ensures r.Ok? <==> forall c :: c in cols ==> c in f.columns
    ensures r.Ok? ==> r.value.columns == Without(f.columns, cols) && |r.value.rows| == |f.rows|
    ensures r.Ok? ==> forall i, c :: 0 <= i < |f.rows| && c !in cols ==> Get(r.value.rows[i], c) == Get(f.rows[i], c)
    ensures r.Ok? && WellFormed(f) ==> WellFormed(r.value)
  {
    var m := FirstMissing(cols, f.columns);
    if m != [] then Err(MissingColumn(m[0]))
    else Ok(Frame(Without(f.columns, cols), seq(|f.rows|, i requires 0 <= i < |f.rows| => RemoveKeys(f.rows[i], cols))))
  }

  /** `f[c] = vals`: a new column goes last, an existing one is overwritten in place. */
  function SetColumn(f: Frame, c: string, vals: seq<Value>): (r: Frame)
    requires |vals| == |f.rows|
    ensures |r.rows| == |f.rows|
    ensures Column(r, c) == vals
    ensures forall i, d :: 0 <= i < |f.rows| && d != c ==> Get(r.rows[i], d) == Get(f.rows[i], d)
    ensures forall d :: d in r.columns <==> d in f.columns || d == c
    ensures c in f.columns ==> r.columns == f.columns
    ensures c !in f.columns ==> r.columns == f.columns + [c]
    ensures WellFormed(f) ==> WellFormed(r)
  {
    var cols := if c in f.columns then f.columns else f.columns + [c];
    var r := Frame(cols, seq(|f.rows|, i requires 0 <= i < |f.rows| => f.rows[i][c := vals[i]]));
    assert forall i :: 0 <= i < |f.rows| ==> Column(r, c)[i] == vals[i];
    r
  }

  lemma SetColumnOther(f: Frame, c: string, vals: seq<Value>, d: string)
    requires |vals| == |f.rows| && d != c
    ensures Column(SetColumn(f, c, vals), d) == Column(f, d)
  {
  }

  /** `cols` followed by those of `more` not already present. */
  function AppendNew(cols: seq<string>, more: seq<string>): (r: seq<string>)
    ensures forall c :: c in r <==> c in cols || c in more
    ensures Distinct(cols) ==> Distinct(r)
    ensures (forall c :: c in more ==> c in cols) ==> r == cols
    decreases |more|
  {
    if more == [] then cols
    else AppendNew(if more[0] in cols then cols else cols + [more[0]], more[1..])
  }

  /** The columns of `pd.concat(fs)`: the union of theirs, in order of first appearance. */
  function UnionColumns(fs: seq<Frame>): (r: seq<string>)
    ensures Distinct(r)
  {
    if fs == [] then [] else AppendNew(UnionColumns(fs[..|fs| - 1]), fs[|fs| - 1].columns)
  }

  /** The rows of the frames one after another, each padded with missing values to the union columns. */
  function StackRows(fs: seq<Frame>, cols: seq<string>): (rows: seq<Row>)
    ensures forall r :: r in rows ==> r.Keys == set c | c in cols
  {
    if fs == [] then []
    else StackRows(fs[..|fs| - 1], cols)
         + seq(|fs[|fs| - 1].rows|, i requires 0 <= i < |fs[|fs| - 1].rows| => Project(fs[|fs| - 1].rows[i], cols))
  }

  /** `pd.concat(fs)`: raises on an empty list. */
  function Concat(fs: seq<Frame>): (r: Result<Frame>)
    ensures r.Ok? <==> fs != []
    ensures r.Ok? ==> WellFormed(r.value)
  {
    if fs == [] then Err(NoObjects)
    else
      var cols := UnionColumns(fs);
      Ok(Frame(cols, StackRows(fs, cols)))
  }

  /** All rows of the frames, one after another, unchanged. */
  function AllRows(fs: seq<Frame>): seq<Row> {
    if fs == [] then [] else AllRows(fs[..|fs| - 1]) + fs[|fs| - 1].rows
  }

  /** The rows of `rows` whose key is not in `seen` and not on an earlier row: keep="first". */
  function Dedup(rows: seq<Row>, cols: seq<string>, seen: set<seq<Value>>): seq<Row>
    decreases |rows|
  {
    if rows == [] then []
    else
      var k := KeyOf(rows[0], cols);
      if k in seen then Dedup(rows[1..], cols, seen)
      else [rows[0]] + Dedup(rows[1..], cols, seen + {k})
  }

  /** `f.drop_duplicates(subset=cols)` keeping first occurrences; `drop_duplicates()` is `cols == f.columns`. */
  function DropDuplicates(f: Frame, cols: seq<string>): (r: Result<Frame>)
    ensures r.Ok? <==> forall c :: c in cols ==> c in f.columns
    ensures r.Ok? ==> r.value.columns == f.columns
  {
    var m := FirstMissing(cols, f.columns);
    if m != [] then Err(MissingColumn(m[0]))
    else Ok(Frame(f.columns, Dedup(f.rows, cols, {})))
  }

  /** The rows whose cell in column `c` equals `v`, in order. */
  function RowsWhere(rows: seq<Row>, c: string, v: Value): (out: seq<Row>)
    ensures forall r :: r in out ==> r in rows && Get(r, c) == v
    ensures |out| <= |rows|
  {
    if rows == [] then []
    else (if Get(rows[0], c) == v then [rows[0]] else []) + RowsWhere(rows[1..], c, v)
  }

  // ---------------------------------------------------------------------------------------------
  // Properties of de-duplication and filtering

  /** After de-duplication no key occurs twice, and none of the keys already seen occurs. */
  lemma {:induction false} DedupUnique(rows: seq<Row>, cols: seq<string>, seen: set<seq<Value>>)
    ensures forall i :: 0 <= i < |Dedup(rows, cols, seen)| ==> KeyOf(Dedup(rows, cols, seen)[i], cols) !in seen
    ensures forall i, j :: 0 <= i < j < |Dedup(rows, cols, seen)| ==>
              KeyOf(Dedup(rows, cols, seen)[i], cols) != KeyOf(Dedup(rows, cols, seen)[j], cols)
    decreases |rows|
  {
    if rows != [] {
      var k := KeyOf(rows[0], cols);
      if k in seen {
        DedupUnique(rows[1..], cols, seen);
      } else {
        DedupUnique(rows[1..], cols, seen + {k});
      }
    }
  }

  /** De-duplication loses no key: the keys left are exactly the keys of the input not already seen. */
  lemma {:induction false} DedupKeys(rows: seq<Row>, cols: seq<string>, seen: set<seq<Value>>)
    ensures KeySet(Dedup(rows, cols, seen), cols) == KeySet(rows, cols) - seen
    decreases |rows|
  {
    if rows != [] {
      var k := KeyOf(rows[0], cols);
      if k in seen {
        DedupKeys(rows[1..], cols, seen);
      } else {
        DedupKeys(rows[1..], cols, seen + {k});
        var rest := Dedup(rows[1..], cols, seen + {k});
        assert ([rows[0]] + rest)[1..] == rest;
      }
    }
  }

  /** Every row kept is the first row of the input carrying its key. */
  lemma {:induction false} DedupFirst(rows: seq<Row>, cols: seq<string>, seen: set<seq<Value>>, i: int)
    requires 0 <= i < |Dedup(rows, cols, seen)|
    ensures exists j :: 0 <= j < |rows| && rows[j] == Dedup(rows, cols, seen)[i]
              && KeyOf(rows[j], cols) !in seen
              && forall j' :: 0 <= j' < j ==> KeyOf(rows[j'], cols) != KeyOf(rows[j], cols)
    decreases |rows|
  {
    var k := KeyOf(rows[0], cols);
    var out := Dedup(rows, cols, seen);
    if k in seen {
      DedupFirst(rows[1..], cols, seen, i);
      var j :| 0 <= j < |rows[1..]| && rows[1..][j] == out[i] && KeyOf(rows[1..][j], cols) !in seen
               && forall j' :: 0 <= j' < j ==> KeyOf(rows[1..][j'], cols) != KeyOf(rows[1..][j], cols);
      FirstInTail(rows, cols, seen, seen, j);
    } else if i == 0 {
      assert rows[0] == out[0];
    } else {
      DedupFirst(rows[1..], cols, seen + {k}, i - 1);
      var j :| 0 <= j < |rows[1..]| && rows[1..][j] == Dedup(rows[1..], cols, seen + {k})[i - 1]
               && KeyOf(rows[1..][j], cols) !in seen + {k}
               && forall j' :: 0 <= j' < j ==> KeyOf(rows[1..][j'], cols) != KeyOf(rows[1..][j], cols);
      FirstInTail(rows, cols, seen, seen + {k}, j);
    }
  }

  /** A first occurrence in the tail, whose key differs from the head's, is a first occurrence in the whole. */
  lemma FirstInTail(rows: seq<Row>, cols: seq<string>, seen: set<seq<Value>>, seen': set<seq<Value>>, j: int)
    requires rows != [] && seen <= seen' && 0 <= j < |rows| - 1
    requires KeyOf(rows[0], cols) in seen || KeyOf(rows[0], cols) in seen'
    requires KeyOf(rows[1..][j], cols) !in seen'
    requires forall j' :: 0 <= j' < j ==> KeyOf(rows[1..][j'], cols) != KeyOf(rows[1..][j], cols)
    ensures rows[j + 1] == rows[1..][j] && KeyOf(rows[j + 1], cols) !in seen
    ensures forall j' :: 0 <= j' < j + 1 ==> KeyOf(rows[j'], cols) != KeyOf(rows[j + 1], cols)
  {
    forall j' | 0 <= j' < j + 1 ensures KeyOf(rows[j'], cols) != KeyOf(rows[j + 1], cols) {
      if j' > 0 { assert rows[j'] == rows[1..][j' - 1]; }
    }
  }

  /**
   * drop_duplicates(subset=cols): at most one row per key, each kept row the first occurrence of its key,
   * and every key of the input still present.
   */
  lemma DropDuplicatesKeepsFirst(f: Frame, cols: seq<string>)
    requires DropDuplicates(f, cols).Ok?
    ensures var out := DropDuplicates(f, cols).value.rows;
      && (forall i, j :: 0 <= i < j < |out| ==> KeyOf(out[i], cols) != KeyOf(out[j], cols))
      && KeySet(out, cols) == KeySet(f.rows, cols)
      && forall i :: 0 <= i < |out| ==>
           exists j :: 0 <= j < |f.rows| && f.rows[j] == out[i]
             && forall j' :: 0 <= j' < j ==> KeyOf(f.rows[j'], cols) != KeyOf(f.rows[j], cols)
  {
    var out := DropDuplicates(f, cols).value.rows;
    DedupUnique(f.rows, cols, {});
    DedupKeys(f.rows, cols, {});
    forall i | 0 <= i < |out|
      ensures exists j :: 0 <= j < |f.rows| && f.rows[j] == out[i]
                && forall j' :: 0 <= j' < j ==> KeyOf(f.rows[j'], cols) != KeyOf(f.rows[j], cols)
    {
      DedupFirst(f.rows, cols, {}, i);
    }
  }

  /** De-duplication keeps a table well formed: it only removes rows. */
  lemma DropDuplicatesWellFormed(f: Frame, cols: seq<string>)
    requires WellFormed(f) && DropDuplicates(f, cols).Ok?
    ensures WellFormed(DropDuplicates(f, cols).value)
  {
    DropDuplicatesKeepsFirst(f, cols);
  }

  lemma {:induction false} RowsWhereKeys(rows: seq<Row>, c: string, v: Value, cols: seq<string>)
    ensures KeySet(RowsWhere(rows, c, v), cols) <= KeySet(rows, cols)
    decreases |rows|
  {
    if rows != [] {
      RowsWhereKeys(rows[1..], c, v, cols);
      var head := if Get(rows[0], c) == v then [rows[0]] else [];
      KeySetAppend(head, RowsWhere(rows[1..], c, v), cols);
    }
  }

  /** Filtering distributes over concatenation. */
  lemma {:induction false} RowsWhereAppend(a: seq<Row>, b: seq<Row>, c: string, v: Value)
    ensures RowsWhere(a + b, c, v) == RowsWhere(a, c, v) + RowsWhere(b, c, v)
    decreases |a|
  {
    if a == [] {
      assert a + b == b;
    } else {
      assert (a + b)[1..] == a[1..] + b;
      RowsWhereAppend(a[1..], b, c, v);
    }
  }

  // ---------------------------------------------------------------------------------------------
  // Column lists and concatenation

  lemma {:induction false} WithoutAppend(xs: seq<string>, ys: seq<string>, zs: seq<string>)
    ensures Without(xs + ys, zs) == Without(xs, zs) + Without(ys, zs)
    decreases |xs|
  {
    if xs == [] {
      assert xs + ys == ys;
    } else {
      assert (xs + ys)[0] == xs[0];
      assert (xs + ys)[1..] == xs[1..] + ys;
      WithoutAppend(xs[1..], ys, zs);
    }
  }

  lemma {:induction false} WithoutDisjoint(xs: seq<string>, zs: seq<string>)
    requires forall c :: c in xs ==> c !in zs
    ensures Without(xs, zs) == xs
    decreases |xs|
  {
    if xs != [] {
      assert xs[0] in xs;
      WithoutDisjoint(xs[1..], zs);
    }
  }

  lemma {:induction false} AppendNewFresh(cols: seq<string>, more: seq<string>)
    requires Distinct(cols + more)
    ensures AppendNew(cols, more) == cols + more
    decreases |more|
  {
    if more != [] {
      assert forall i :: 0 <= i < |cols| ==> cols[i] == (cols + more)[i] != (cols + more)[|cols|] == more[0];
      assert (cols + [more[0]]) + more[1..] == cols + more;
      AppendNewFresh(cols + [more[0]], more[1..]);
    }
  }

  /** Frames that all have the columns `cols` are united under exactly `cols`. */
  lemma {:induction false} UnionSameColumns(fs: seq<Frame>, cols: seq<string>)
    requires fs != [] && Distinct(cols)
    requires forall i :: 0 <= i < |fs| ==> fs[i].columns == cols
    ensures UnionColumns(fs) == cols
    decreases |fs|
  {
    if |fs| == 1 {
      assert [] + cols == cols;
      AppendNewFresh([], cols);
    } else {
      UnionSameColumns(fs[..|fs| - 1], cols);
    }
  }

  lemma ProjectWhole(r: Row, cols: seq<string>)
    requires r.Keys == set c | c in cols
    ensures Project(r, cols) == r
  {
  }

  lemma {:induction false} StackSameColumns(fs: seq<Frame>, cols: seq<string>)
    requires forall i, r :: 0 <= i < |fs| && r in fs[i].rows ==> r.Keys == set c | c in cols
    ensures StackRows(fs, cols) == AllRows(fs)
    decreases |fs|
  {
    if fs != [] {
      var init, last := fs[..|fs| - 1], fs[|fs| - 1];
      assert forall i, r :: 0 <= i < |init| && r in init[i].rows ==> r in fs[i].rows;
      StackSameColumns(init, cols);
      assert forall r :: r in last.rows ==> r in fs[|fs| - 1].rows;
      ProjectRowsWhole(last.rows, cols);
    }
  }

  lemma ProjectRowsWhole(rows: seq<Row>, cols: seq<string>)
    requires forall r :: r in rows ==> r.Keys == set c | c in cols
    ensures seq(|rows|, i requires 0 <= i < |rows| => Project(rows[i], cols)) == rows
  {
    forall i | 0 <= i < |rows| ensures Project(rows[i], cols) == rows[i] {
      ProjectWhole(rows[i], cols);
    }
  }

  /** Concatenating well-formed frames with the same columns keeps those columns and stacks the rows. */
  lemma ConcatSameColumns(fs: seq<Frame>, cols: seq<string>)
    requires fs != []
    requires forall i :: 0 <= i < |fs| ==> fs[i].columns == cols && WellFormed(fs[i])
    ensures Concat(fs) == Ok(Frame(cols, AllRows(fs)))
  {
    assert fs[0].columns == cols;
    UnionSameColumns(fs, cols);
    StackSameColumns(fs, cols);
  }

  lemma {:induction false} RowsWhereAll(rows: seq<Row>, c: string, v: Value)
    requires forall r :: r in rows ==> Get(r, c) == v
    ensures RowsWhere(rows, c, v) == rows
    decreases |rows|
  {
    if rows != [] {
      assert rows[0] in rows;
      RowsWhereAll(rows[1..], c, v);
    }
  }

  lemma {:induction false} RowsWhereNone(rows: seq<Row>, c: string, v: Value)
    requires forall r :: r in rows ==> Get(r, c) != v
    ensures RowsWhere(rows, c, v) == []
    decreases |rows|
  {
    if rows != [] {
      assert rows[0] in rows;
      RowsWhereNone(rows[1..], c, v);
    }
  }

  lemma {:induction false} AllRowsMember(fs: seq<Frame>, r: Row)
    requires r in AllRows(fs)
    ensures exists a :: 0 <= a < |fs| && r in fs[a].rows
    decreases |fs|
  {
    if r !in fs[|fs| - 1].rows {
      AllRowsMember(fs[..|fs| - 1], r);
      var a :| 0 <= a < |fs| - 1 && r in fs[..|fs| - 1][a].rows;
      assert fs[a] == fs[..|fs| - 1][a];
    }
  }

  lemma {:induction false} RowsWhereFind(rows: seq<Row>, c: string, v: Value, i: int)
    requires 0 <= i < |rows| && Get(rows[i], c) == v
    ensures rows[i] in RowsWhere(rows, c, v)
    decreases |rows|
  {
    if i > 0 {
      RowsWhereFind(rows[1..], c, v, i - 1);
    }
  }

  // ---------------------------------------------------------------------------------------------
  // Keys over a subset of the de-duplication columns

  /** Rows that agree on the cells of `cols` have the same key over `cols`. */
  lemma SameCellsSameKey(r: Row, s: Row, cols: seq<string>)
    requires forall c :: c in cols ==> Get(r, c) == Get(s, c)
    ensures KeyOf(r, cols) == KeyOf(s, cols)
  {
    assert forall p :: 0 <= p < |cols| ==> KeyOf(r, cols)[p] == KeyOf(s, cols)[p];
  }

  /** Rows that agree cell by cell on `cols` have the same set of keys over `cols`. */
  lemma {:induction false} KeySetSameCells(a: seq<Row>, b: seq<Row>, cols: seq<string>)
    requires |a| == |b|
    requires forall i, c :: 0 <= i < |a| && c in cols ==> Get(a[i], c) == Get(b[i], c)
    ensures KeySet(a, cols) == KeySet(b, cols)
    decreases |a|
  {
    if a != [] {
      SameCellsSameKey(a[0], b[0], cols);
      KeySetSameCells(a[1..], b[1..], cols);
    }
  }

  /** Rows with the same key over `cols` have the same key over any `key` drawn from `cols`. */
  lemma SubKey(r: Row, s: Row, cols: seq<string>, key: seq<string>)
    requires forall c :: c in key ==> c in cols
    requires KeyOf(r, cols) == KeyOf(s, cols)
    ensures KeyOf(r, key) == KeyOf(s, key)
  {
    forall c | c in key ensures Get(r, c) == Get(s, c) {
      var q :| 0 <= q < |cols| && cols[q] == c;
      assert KeyOf(r, cols)[q] == KeyOf(s, cols)[q];
    }
    SameCellsSameKey(r, s, key);
  }

  /** De-duplicating on `cols` keeps every key over a `key` drawn from `cols`, and adds none. */
  lemma DedupSubKeys(rows: seq<Row>, cols: seq<string>, key: seq<string>)
    requires forall c :: c in key ==> c in cols
    ensures KeySet(Dedup(rows, cols, {}), key) == KeySet(rows, key)
  {
    var out := Dedup(rows, cols, {});
    DedupKeys(rows, cols, {});
    forall k | k in KeySet(rows, key) ensures k in KeySet(out, key) {
      KeySetMember(rows, key, k);
      var i :| 0 <= i < |rows| && KeyOf(rows[i], key) == k;
      KeySetMember(rows, cols, KeyOf(rows[i], cols));
      KeySetMember(out, cols, KeyOf(rows[i], cols));
      var j :| 0 <= j < |out| && KeyOf(out[j], cols) == KeyOf(rows[i], cols);
      SubKey(out[j], rows[i], cols, key);
      KeySetMember(out, key, k);
    }
    forall k | k in KeySet(out, key) ensures k in KeySet(rows, key) {
      KeySetMember(out, key, k);
      var j :| 0 <= j < |out| && KeyOf(out[j], key) == k;
      DedupFirst(rows, cols, {}, j);
      KeySetMember(rows, key, k);
    }
  }
}
