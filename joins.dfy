/** `pd.merge(left, right, on=..., how="inner" | "left")` over the row model. */
module Joins {
  import opened Values
  import opened Frames

  datatype How = Inner | Left

  /** A left row joined with a right row: the left row's cells plus the right row's non-key columns `extra`. */
  function Combine(a: Row, b: Row, extra: seq<string>): Row {
    a + map c | c in extra :: Get(b, c)
  }

  /** The left row `a` joined with each right row that has its key, in right-table order. */
  function Matches(a: Row, rs: seq<Row>, on: seq<string>, extra: seq<string>): seq<Row>
    decreases |rs|
  {
    if rs == [] then []
    else (if KeyOf(rs[0], on) == KeyOf(a, on) then [Combine(a, rs[0], extra)] else []) + Matches(a, rs[1..], on, extra)
  }

  /** The joined rows in left-table order; a left join keeps an unmatched left row with missing right cells. */
  function JoinRows(ls: seq<Row>, rs: seq<Row>, on: seq<string>, extra: seq<string>, how: How): seq<Row>
    decreases |ls|
  {
    if ls == [] then []
    else
      var m := Matches(ls[0], rs, on, extra);
      (if m == [] && how == Left then [Combine(ls[0], map[], extra)] else m) + JoinRows(ls[1..], rs, on, extra, how)
  }

  /** The first of `xs` that is also in `ys`, if any. */
  function FirstCommon(xs: seq<string>, ys: seq<string>): (m: seq<string>)
    ensures |m| <= 1
    ensures m == [] <==> forall c :: c in xs ==> c !in ys
  {
    if xs == [] then []
    else if xs[0] in ys then [xs[0]]
    else FirstCommon(xs[1..], ys)
  }

  /**
   * `pd.merge(l, r, on=on, how=how)`: the key columns must exist on both sides; the result has the left
   * columns followed by the right non-key columns.
   */
  function Merge(l: Frame, r: Frame, on: seq<string>, how: How): (m: Result<Frame>)
    ensures m.Ok? <==> (forall c :: c in on ==> c in l.columns && c in r.columns)
                       && forall c :: c in r.columns && c !in on ==> c !in l.columns
    ensures m.Ok? ==> m.value.columns == l.columns + Without(r.columns, on)
  {
    var missingLeft := FirstMissing(on, l.columns);
    var missingRight := FirstMissing(on, r.columns);
    var extra := Without(r.columns, on);
    var clash := FirstCommon(extra, l.columns);
    if missingLeft != [] then Err(MissingColumn(missingLeft[0]))
    else if missingRight != [] then Err(MissingColumn(missingRight[0]))
    else if clash != [] then Err(ColumnClash(clash[0]))
    else Ok(Frame(l.columns + extra, JoinRows(l.rows, r.rows, on, extra, how)))
  }

  /** The left rows whose key is among `keys` (a semi-join). */
  function Semi(ls: seq<Row>, on: seq<string>, keys: set<seq<Value>>): seq<Row>
    decreases |ls|
  {
    if ls == [] then []
    else (if KeyOf(ls[0], on) in keys then [ls[0]] else []) + Semi(ls[1..], on, keys)
  }

  /** The keys of `keys` whose first component, as a one-column key, is in `lead`. */
  function WithLead(keys: set<seq<Value>>, lead: set<seq<Value>>): set<seq<Value>> {
    set k | k in keys && |k| >= 1 && k[..1] in lead
  }

  // ---------------------------------------------------------------------------------------------
  // Which keys survive a join

  lemma CombineKeepsLeft(a: Row, b: Row, extra: seq<string>, cols: seq<string>)
    requires forall c :: c in cols ==> c !in extra
    ensures KeyOf(Combine(a, b, extra), cols) == KeyOf(a, cols)
  {
    var k := KeyOf(Combine(a, b, extra), cols);
    assert forall i :: 0 <= i < |cols| ==> k[i] == KeyOf(a, cols)[i];
  }

  lemma {:induction false} MatchesKeys(a: Row, rs: seq<Row>, on: seq<string>, extra: seq<string>, cols: seq<string>)
    requires forall c :: c in cols ==> c !in extra
    ensures KeySet(Matches(a, rs, on, extra), cols)
         == if KeyOf(a, on) in KeySet(rs, on) then {KeyOf(a, cols)} else {}
    decreases |rs|
  {
    if rs != [] {
      MatchesKeys(a, rs[1..], on, extra, cols);
      var head := if KeyOf(rs[0], on) == KeyOf(a, on) then [Combine(a, rs[0], extra)] else [];
      KeySetAppend(head, Matches(a, rs[1..], on, extra), cols);
      CombineKeepsLeft(a, rs[0], extra, cols);
      assert KeySet(head, cols) == if KeyOf(rs[0], on) == KeyOf(a, on) then {KeyOf(a, cols)} else {};
    }
  }

  /**
   * The keys (over any left columns `cols` that the right side does not add) present after an inner join
   * are those of the left rows whose join key occurs on the right.
   */
  lemma {:induction false} InnerJoinKeys(ls: seq<Row>, rs: seq<Row>, on: seq<string>, extra: seq<string>, cols: seq<string>)
    requires forall c :: c in cols ==> c !in extra
    ensures KeySet(JoinRows(ls, rs, on, extra, Inner), cols) == KeySet(Semi(ls, on, KeySet(rs, on)), cols)
    decreases |ls|
  {
    if ls != [] {
      InnerJoinKeys(ls[1..], rs, on, extra, cols);
      MatchesKeys(ls[0], rs, on, extra, cols);
      KeySetAppend(Matches(ls[0], rs, on, extra), JoinRows(ls[1..], rs, on, extra, Inner), cols);
      var head := if KeyOf(ls[0], on) in KeySet(rs, on) then [ls[0]] else [];
      KeySetAppend(head, Semi(ls[1..], on, KeySet(rs, on)), cols);
    }
  }

  /** A left join keeps the keys of every left row. */
  lemma {:induction false} LeftJoinKeys(ls: seq<Row>, rs: seq<Row>, on: seq<string>, extra: seq<string>, cols: seq<string>)
    requires forall c :: c in cols ==> c !in extra
    ensures KeySet(JoinRows(ls, rs, on, extra, Left), cols) == KeySet(ls, cols)
    decreases |ls|
  {
    if ls != [] {
      LeftJoinKeys(ls[1..], rs, on, extra, cols);
      var m := Matches(ls[0], rs, on, extra);
      MatchesKeys(ls[0], rs, on, extra, cols);
      if m == [] {
        CombineKeepsLeft(ls[0], map[], extra, cols);
        KeySetAppend([Combine(ls[0], map[], extra)], JoinRows(ls[1..], rs, on, extra, Left), cols);
        if KeyOf(ls[0], on) in KeySet(rs, on) {
          assert false;
        }
      } else {
        KeySetAppend(m, JoinRows(ls[1..], rs, on, extra, Left), cols);
        if KeyOf(ls[0], on) !in KeySet(rs, on) {
          assert false;
        }
      }
    }
  }

  /** The semi-join's keys are the left keys that are in `keys`. */
  lemma {:induction false} SemiKeys(ls: seq<Row>, on: seq<string>, keys: set<seq<Value>>)
    ensures KeySet(Semi(ls, on, keys), on) == KeySet(ls, on) * keys
    decreases |ls|
  {
    if ls != [] {
      SemiKeys(ls[1..], on, keys);
      var head := if KeyOf(ls[0], on) in keys then [ls[0]] else [];
      KeySetAppend(head, Semi(ls[1..], on, keys), on);
    }
  }

  /** Inner-join survival: a join key is in the result exactly when it is on both sides. */
  lemma InnerJoinIntersects(l: Frame, r: Frame, on: seq<string>)
    requires Merge(l, r, on, Inner).Ok?
    ensures KeySet(Merge(l, r, on, Inner).value.rows, on) == KeySet(l.rows, on) * KeySet(r.rows, on)
  {
    var extra := Without(r.columns, on);
    InnerJoinKeys(l.rows, r.rows, on, extra, on);
    SemiKeys(l.rows, on, KeySet(r.rows, on));
  }

  /** A right-side cell that is present on a left-join row means that row found a partner on the right. */
  lemma {:induction false} LeftJoinPresentMeansMatched(ls: seq<Row>, rs: seq<Row>, on: seq<string>, extra: seq<string>, c: string, i: int)
    requires c in extra
    requires forall d :: d in on ==> d !in extra
    requires 0 <= i < |JoinRows(ls, rs, on, extra, Left)|
    requires Get(JoinRows(ls, rs, on, extra, Left)[i], c) != Null
    ensures KeyOf(JoinRows(ls, rs, on, extra, Left)[i], on) in KeySet(rs, on)
    decreases |ls|
  {
    var m := Matches(ls[0], rs, on, extra);
    var head := if m == [] then [Combine(ls[0], map[], extra)] else m;
    var out := JoinRows(ls, rs, on, extra, Left);
    assert out == head + JoinRows(ls[1..], rs, on, extra, Left);
    if i < |head| {
      if m != [] {
        MatchesKeys(ls[0], rs, on, extra, on);
        CombineKeepsLeft(ls[0], map[], extra, on);
        assert out[i] in m;
        KeySetMember(m, on, KeyOf(out[i], on));
        assert KeyOf(out[i], on) in KeySet(m, on);
      }
    } else {
      LeftJoinPresentMeansMatched(ls[1..], rs, on, extra, c, i - |head|);
    }
  }

  // ---------------------------------------------------------------------------------------------
  // Where a joined row's cells come from

  /** Two rows hold the same cells in the columns `cols`. */
  ghost predicate Agrees(x: Row, y: Row, cols: seq<string>) {
    forall c :: c in cols ==> Get(x, c) == Get(y, c)
  }

  lemma {:induction false} MatchesEmpty(a: Row, rs: seq<Row>, on: seq<string>, extra: seq<string>)
    ensures Matches(a, rs, on, extra) == [] <==> KeyOf(a, on) !in KeySet(rs, on)
    decreases |rs|
  {
    if rs != [] {
      MatchesEmpty(a, rs[1..], on, extra);
    }
  }

  lemma {:induction false} MatchesOrigin(a: Row, rs: seq<Row>, on: seq<string>, extra: seq<string>, i: int)
    requires 0 <= i < |Matches(a, rs, on, extra)|
    ensures exists q :: 0 <= q < |rs| && KeyOf(rs[q], on) == KeyOf(a, on)
                        && Matches(a, rs, on, extra)[i] == Combine(a, rs[q], extra)
    decreases |rs|
  {
    var head := if KeyOf(rs[0], on) == KeyOf(a, on) then [Combine(a, rs[0], extra)] else [];
    assert Matches(a, rs, on, extra) == head + Matches(a, rs[1..], on, extra);
    if i >= |head| {
      MatchesOrigin(a, rs[1..], on, extra, i - |head|);
      var q :| 0 <= q < |rs[1..]| && KeyOf(rs[1..][q], on) == KeyOf(a, on)
               && Matches(a, rs[1..], on, extra)[i - |head|] == Combine(a, rs[1..][q], extra);
      assert rs[1..][q] == rs[q + 1];
    }
  }

  /** `row` is a left row combined with a right row carrying the same key, or, in a left join only, a left
      row that no right row matches, combined with nothing (its right cells missing). */
  ghost predicate JoinedFrom(row: Row, ls: seq<Row>, rs: seq<Row>, on: seq<string>, extra: seq<string>, how: How) {
    || (exists p, q :: 0 <= p < |ls| && 0 <= q < |rs| && KeyOf(ls[p], on) == KeyOf(rs[q], on)
                       && row == Combine(ls[p], rs[q], extra))
    || (how == Left && exists p :: 0 <= p < |ls| && KeyOf(ls[p], on) !in KeySet(rs, on)
                                   && row == Combine(ls[p], map[], extra))
  }

  lemma JoinedFromTail(row: Row, ls: seq<Row>, rs: seq<Row>, on: seq<string>, extra: seq<string>, how: How)
    requires ls != [] && JoinedFrom(row, ls[1..], rs, on, extra, how)
    ensures JoinedFrom(row, ls, rs, on, extra, how)
  {
    if exists p, q :: 0 <= p < |ls[1..]| && 0 <= q < |rs| && KeyOf(ls[1..][p], on) == KeyOf(rs[q], on)
                      && row == Combine(ls[1..][p], rs[q], extra) {
      var p, q :| 0 <= p < |ls[1..]| && 0 <= q < |rs| && KeyOf(ls[1..][p], on) == KeyOf(rs[q], on)
                  && row == Combine(ls[1..][p], rs[q], extra);
      assert ls[1..][p] == ls[p + 1];
    } else {
      var p :| 0 <= p < |ls[1..]| && KeyOf(ls[1..][p], on) !in KeySet(rs, on) && row == Combine(ls[1..][p], map[], extra);
      assert ls[1..][p] == ls[p + 1];
    }
  }

  lemma JoinedFromHead(ls: seq<Row>, rs: seq<Row>, on: seq<string>, extra: seq<string>, how: How, i: int)
    requires ls != []
    requires var m := Matches(ls[0], rs, on, extra);
      0 <= i < |if m == [] && how == Left then [Combine(ls[0], map[], extra)] else m|
    ensures var m := Matches(ls[0], rs, on, extra);
      JoinedFrom((if m == [] && how == Left then [Combine(ls[0], map[], extra)] else m)[i], ls, rs, on, extra, how)
  {
    var m := Matches(ls[0], rs, on, extra);
    if m == [] && how == Left {
      MatchesEmpty(ls[0], rs, on, extra);
      assert [Combine(ls[0], map[], extra)][i] == Combine(ls[0], map[], extra);
    } else {
      MatchesOrigin(ls[0], rs, on, extra, i);
      var q :| 0 <= q < |rs| && KeyOf(rs[q], on) == KeyOf(ls[0], on) && m[i] == Combine(ls[0], rs[q], extra);
    }
  }

  /** Every joined row comes from a left row and its partner, or (left join) from an unmatched left row. */
  lemma {:induction false} JoinRowOrigin(ls: seq<Row>, rs: seq<Row>, on: seq<string>, extra: seq<string>, how: How, i: int)
    requires 0 <= i < |JoinRows(ls, rs, on, extra, how)|
    ensures JoinedFrom(JoinRows(ls, rs, on, extra, how)[i], ls, rs, on, extra, how)
    decreases |ls|
  {
    var m := Matches(ls[0], rs, on, extra);
    var head := if m == [] && how == Left then [Combine(ls[0], map[], extra)] else m;
    var out := JoinRows(ls, rs, on, extra, how);
    assert out == head + JoinRows(ls[1..], rs, on, extra, how);
    if i < |head| {
      JoinedFromHead(ls, rs, on, extra, how, i);
      assert out[i] == head[i];
    } else {
      JoinRowOrigin(ls[1..], rs, on, extra, how, i - |head|);
      assert out[i] == JoinRows(ls[1..], rs, on, extra, how)[i - |head|];
      JoinedFromTail(out[i], ls, rs, on, extra, how);
    }
  }

  lemma KeyCellsAgree(a: Row, b: Row, on: seq<string>, c: string)
    requires KeyOf(a, on) == KeyOf(b, on) && c in on
    ensures Get(a, c) == Get(b, c)
  {
    var k :| 0 <= k < |on| && on[k] == c;
    assert KeyOf(a, on)[k] == KeyOf(b, on)[k];
  }

  /** A row combined from `a` and `b` holds `a`'s cells outside `extra` and `b`'s in `extra`. */
  lemma CombinedAgrees(a: Row, b: Row, on: seq<string>, extra: seq<string>, lcols: seq<string>, rcols: seq<string>)
    requires KeyOf(a, on) == KeyOf(b, on)
    requires forall c :: c in lcols ==> c !in extra
    requires forall c :: c in rcols ==> c in on || c in extra
    requires forall c :: c in on ==> c !in extra
    ensures Agrees(Combine(a, b, extra), a, lcols)
    ensures Agrees(Combine(a, b, extra), b, rcols)
  {
    forall c | c in rcols ensures Get(Combine(a, b, extra), c) == Get(b, c) {
      if c in on {
        KeyCellsAgree(a, b, on, c);
      }
    }
  }

  /** Row provenance of a join, over left columns `lcols` the right side does not add and right columns
      `rcols` that are keys or added. */
  lemma JoinRowAgrees(ls: seq<Row>, rs: seq<Row>, on: seq<string>, extra: seq<string>, how: How,
                      lcols: seq<string>, rcols: seq<string>, i: int)
    requires forall c :: c in lcols ==> c !in extra
    requires forall c :: c in rcols ==> c in on || c in extra
    requires forall c :: c in on ==> c !in extra
    requires 0 <= i < |JoinRows(ls, rs, on, extra, how)|
    ensures var row := JoinRows(ls, rs, on, extra, how)[i];
      exists p :: 0 <= p < |ls| && Agrees(row, ls[p], lcols)
        && (|| (exists q :: 0 <= q < |rs| && KeyOf(ls[p], on) == KeyOf(rs[q], on) && Agrees(row, rs[q], rcols))
            || (how == Left && KeyOf(ls[p], on) !in KeySet(rs, on)
                && forall c :: c in rcols && c !in on ==> Get(row, c) == Null))
  {
    var row := JoinRows(ls, rs, on, extra, how)[i];
    JoinRowOrigin(ls, rs, on, extra, how, i);
    if exists p, q :: 0 <= p < |ls| && 0 <= q < |rs| && KeyOf(ls[p], on) == KeyOf(rs[q], on)
                      && row == Combine(ls[p], rs[q], extra) {
      var p, q :| 0 <= p < |ls| && 0 <= q < |rs| && KeyOf(ls[p], on) == KeyOf(rs[q], on)
                  && row == Combine(ls[p], rs[q], extra);
      CombinedAgrees(ls[p], rs[q], on, extra, lcols, rcols);
    } else {
      var p :| 0 <= p < |ls| && KeyOf(ls[p], on) !in KeySet(rs, on) && row == Combine(ls[p], map[], extra);
      assert Agrees(row, ls[p], lcols);
    }
  }

  /**
   * `pd.merge` row by row: every merged row carries all cells of one left row and, when a right row has
   * its key, all cells of that right row; in a left join a left row without partner has every right
   * non-key cell missing.
   */
  lemma MergeRowOrigin(l: Frame, r: Frame, on: seq<string>, how: How, i: int)
    requires Merge(l, r, on, how).Ok?
    requires 0 <= i < |Merge(l, r, on, how).value.rows|
    ensures var row := Merge(l, r, on, how).value.rows[i];
      exists p :: 0 <= p < |l.rows| && Agrees(row, l.rows[p], l.columns)
        && (|| (exists q :: 0 <= q < |r.rows| && KeyOf(l.rows[p], on) == KeyOf(r.rows[q], on)
                             && Agrees(row, r.rows[q], r.columns))
            || (how == Left && KeyOf(l.rows[p], on) !in KeySet(r.rows, on)
                && forall c :: c in r.columns && c !in on ==> Get(row, c) == Null))
  {
    var extra := Without(r.columns, on);
    assert Merge(l, r, on, how).value.rows == JoinRows(l.rows, r.rows, on, extra, how);
    JoinRowAgrees(l.rows, r.rows, on, extra, how, l.columns, r.columns, i);
  }

  /** The right half of MergeRowOrigin: a merged row holds one right row's cells or, in a left join,
      missing right non-key cells. */
  lemma MergeRightCells(l: Frame, r: Frame, on: seq<string>, how: How, i: int)
    requires Merge(l, r, on, how).Ok?
    requires 0 <= i < |Merge(l, r, on, how).value.rows|
    ensures var row := Merge(l, r, on, how).value.rows[i];
      || (exists q :: 0 <= q < |r.rows| && Agrees(row, r.rows[q], r.columns))
      || (how == Left && forall c :: c in r.columns && c !in on ==> Get(row, c) == Null)
  {
    MergeRowOrigin(l, r, on, how, i);
  }

  // ---------------------------------------------------------------------------------------------
  // A merge of well-formed tables is well formed

  lemma DistinctConcat(a: seq<string>, b: seq<string>)
    requires Distinct(a) && Distinct(b) && forall c :: c in b ==> c !in a
    ensures Distinct(a + b)
  {
    forall i, j | 0 <= i < j < |a + b| ensures (a + b)[i] != (a + b)[j] {
      if j < |a| {
        assert (a + b)[i] == a[i] && (a + b)[j] == a[j];
      } else if i < |a| {
        assert (a + b)[i] == a[i] && (a + b)[j] == b[j - |a|];
        assert b[j - |a|] in b;
      } else {
        assert (a + b)[i] == b[i - |a|] && (a + b)[j] == b[j - |a|];
      }
    }
  }

  lemma CombineKeys(a: Row, b: Row, extra: seq<string>)
    ensures Combine(a, b, extra).Keys == a.Keys + set c | c in extra
  {
  }

  /** A joined row is some left row combined with some right-hand cells. */
  lemma JoinedFromSomeLeft(row: Row, ls: seq<Row>, rs: seq<Row>, on: seq<string>, extra: seq<string>, how: How)
    requires JoinedFrom(row, ls, rs, on, extra, how)
    ensures exists p, b :: 0 <= p < |ls| && row == Combine(ls[p], b, extra)
  {
    if exists p, q :: 0 <= p < |ls| && 0 <= q < |rs| && KeyOf(ls[p], on) == KeyOf(rs[q], on)
                      && row == Combine(ls[p], rs[q], extra) {
      var p, q :| 0 <= p < |ls| && 0 <= q < |rs| && KeyOf(ls[p], on) == KeyOf(rs[q], on)
                  && row == Combine(ls[p], rs[q], extra);
    } else {
      var p :| 0 <= p < |ls| && KeyOf(ls[p], on) !in KeySet(rs, on) && row == Combine(ls[p], map[], extra);
    }
  }

  /** Every joined row has the left row's columns plus the added ones. */
  lemma JoinRowKeys(ls: seq<Row>, rs: seq<Row>, on: seq<string>, extra: seq<string>, how: How, lcols: seq<string>, i: int)
    requires forall a :: a in ls ==> a.Keys == set c | c in lcols
    requires 0 <= i < |JoinRows(ls, rs, on, extra, how)|
    ensures JoinRows(ls, rs, on, extra, how)[i].Keys == set c | c in lcols + extra
  {
    var row := JoinRows(ls, rs, on, extra, how)[i];
    JoinRowOrigin(ls, rs, on, extra, how, i);
    JoinedFromSomeLeft(row, ls, rs, on, extra, how);
    var p, b :| 0 <= p < |ls| && row == Combine(ls[p], b, extra);
    CombineKeys(ls[p], b, extra);
    assert ls[p] in ls;
    assert (set c | c in lcols + extra) == (set c | c in lcols) + (set c | c in extra);
  }

  /** A successful merge of well-formed tables is well formed: distinct columns, and every row has them. */
  lemma MergeWellFormed(l: Frame, r: Frame, on: seq<string>, how: How)
    requires WellFormed(l) && WellFormed(r) && Merge(l, r, on, how).Ok?
    ensures WellFormed(Merge(l, r, on, how).value)
  {
    var extra := Without(r.columns, on);
    var out := Merge(l, r, on, how).value;
    assert out == Frame(l.columns + extra, JoinRows(l.rows, r.rows, on, extra, how));
    DistinctConcat(l.columns, extra);
    forall row | row in out.rows ensures row.Keys == set c | c in out.columns {
      var i :| 0 <= i < |out.rows| && out.rows[i] == row;
      JoinRowKeys(l.rows, r.rows, on, extra, how, l.columns, i);
    }
  }

  /** A semi-join on the first key column keeps exactly the keys whose first component is in `lead`. */
  lemma {:induction false} SemiLeadKeys(ls: seq<Row>, cols: seq<string>, lead: set<seq<Value>>)
    requires |cols| >= 1
    ensures KeySet(Semi(ls, cols[..1], lead), cols) == WithLead(KeySet(ls, cols), lead)
    decreases |ls|
  {
    if ls != [] {
      SemiLeadKeys(ls[1..], cols, lead);
      var head := if KeyOf(ls[0], cols[..1]) in lead then [ls[0]] else [];
      KeySetAppend(head, Semi(ls[1..], cols[..1], lead), cols);
      assert KeyOf(ls[0], cols[..1]) == KeyOf(ls[0], cols)[..1];
    }
  }
}
