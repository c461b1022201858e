/** `df.groupby("teamTricode")`: one group per present team code, groups in ascending key order, each
    group's rows in input order. */
module Grouping {
  import opened Values
  import opened Calendar
  import opened Frames

  const TeamColumn := "teamTricode"

  /** Python's string order: by code point, a proper prefix first. */
  predicate StrLess(a: string, b: string)
    decreases |a|
  {
    if |a| == 0 then |b| > 0
    else if |b| == 0 then false
    else if a[0] != b[0] then a[0] < b[0]
    else StrLess(a[1..], b[1..])
  }

  function Rank(v: Value): int {
    match v
    case Null => 0
    case Num(_) => 1
    case Str(_) => 2
    case Day(_) => 3
  }

  /** The order in which groupby lists its keys: numbers by value, strings by code point, dates by the
      calendar (cells of different kinds, which pandas would refuse to sort, by kind). */
  predicate Less(a: Value, b: Value) {
    if Rank(a) != Rank(b) then Rank(a) < Rank(b)
    else match (a, b)
      case (Num(x), Num(y)) => x < y
      case (Str(x), Str(y)) => StrLess(x, y)
      case (Day(x), Day(y)) => Before(x, y)
      case _ => false
  }

  predicate StrictlySorted(s: seq<Value>) {
    forall i, j :: 0 <= i < j < |s| ==> Less(s[i], s[j])
  }

  /** `k` put into its place in a sorted sequence, unless it is there already. */
  function Insert(s: seq<Value>, k: Value): seq<Value>
    decreases |s|
  {
    if s == [] then [k]
    else if k == s[0] then s
    else if Less(k, s[0]) then [k] + s
    else [s[0]] + Insert(s[1..], k)
  }

  /** The distinct present values of `vals` in ascending order. */
  function SortedDistinct(vals: seq<Value>): seq<Value>
    decreases |vals|
  {
    if vals == [] then []
    else if vals[0] == Null then SortedDistinct(vals[1..])
    else Insert(SortedDistinct(vals[1..]), vals[0])
  }

  /** The group keys: the distinct present team codes, ascending (groupby's sort=True and dropna=True). */
  function GroupKeys(f: Frame): seq<Value> {
    SortedDistinct(Column(f, TeamColumn))
  }

  /** One team's group: its rows in input order, all columns kept. */
  function Group(f: Frame, k: Value): Frame {
    Frame(f.columns, RowsWhere(f.rows, TeamColumn, k))
  }

  // ---------------------------------------------------------------------------------------------
  // The key order is a strict total order

  lemma {:induction false} StrLessIrreflexive(a: string)
    ensures !StrLess(a, a)
    decreases |a|
  {
    if |a| > 0 {
      StrLessIrreflexive(a[1..]);
    }
  }

  lemma {:induction false} StrLessTransitive(a: string, b: string, c: string)
    requires StrLess(a, b) && StrLess(b, c)
    ensures StrLess(a, c)
    decreases |a|
  {
    if |a| > 0 && |b| > 0 && |c| > 0 && a[0] == b[0] && b[0] == c[0] {
      StrLessTransitive(a[1..], b[1..], c[1..]);
    }
  }

  lemma {:induction false} StrLessTotal(a: string, b: string)
    requires a != b
    ensures StrLess(a, b) || StrLess(b, a)
    decreases |a|
  {
    if |a| > 0 && |b| > 0 && a[0] == b[0] {
      assert a == [a[0]] + a[1..] && b == [b[0]] + b[1..];
      StrLessTotal(a[1..], b[1..]);
    }
  }

  lemma LessIrreflexive(a: Value)
    ensures !Less(a, a)
  {
    if a.Str? {
      StrLessIrreflexive(a.s);
    }
  }

  lemma LessTransitive(a: Value, b: Value, c: Value)
    requires Less(a, b) && Less(b, c)
    ensures Less(a, c)
  {
    if a.Str? && b.Str? && c.Str? {
      StrLessTransitive(a.s, b.s, c.s);
    }
  }

  lemma LessTotal(a: Value, b: Value)
    requires a != b
    ensures Less(a, b) || Less(b, a)
  {
    if a.Str? && b.Str? {
      StrLessTotal(a.s, b.s);
    } else if a.Day? && b.Day? {
      assert a.d != b.d;
    }
  }

  // ---------------------------------------------------------------------------------------------
  // The group keys

  lemma {:induction false} InsertSorted(s: seq<Value>, k: Value)
    requires StrictlySorted(s)
    ensures StrictlySorted(Insert(s, k))
    ensures forall x :: x in Insert(s, k) <==> x in s || x == k
    decreases |s|
  {
    if s != [] && k != s[0] {
      if Less(k, s[0]) {
        forall j | 0 <= j < |s| ensures Less(k, s[j]) {
          if j > 0 { LessTransitive(k, s[0], s[j]); }
        }
      } else {
        LessTotal(k, s[0]);
        InsertSorted(s[1..], k);
        var r := Insert(s[1..], k);
        forall j | 0 <= j < |r| ensures Less(s[0], r[j]) {
          if r[j] != k {
            assert r[j] in s[1..];
          }
        }
        assert forall x :: x in s <==> x == s[0] || x in s[1..];
      }
    }
  }

  /** The group keys are in strictly ascending order (so no key is repeated), and they are exactly the
      present team codes of the table. */
  lemma {:induction false} SortedDistinctCorrect(vals: seq<Value>)
    ensures StrictlySorted(SortedDistinct(vals))
    ensures forall x :: x in SortedDistinct(vals) <==> x in vals && x != Null
    decreases |vals|
  {
    if vals != [] {
      SortedDistinctCorrect(vals[1..]);
      if vals[0] != Null {
        InsertSorted(SortedDistinct(vals[1..]), vals[0]);
      }
      assert forall x :: x in vals <==> x == vals[0] || x in vals[1..];
    }
  }

  lemma GroupKeysCorrect(f: Frame)
    ensures StrictlySorted(GroupKeys(f))
    ensures forall k :: k in GroupKeys(f) <==> k != Null && exists i :: 0 <= i < |f.rows| && Get(f.rows[i], TeamColumn) == k
  {
    SortedDistinctCorrect(Column(f, TeamColumn));
    forall k ensures k in Column(f, TeamColumn) <==> exists i :: 0 <= i < |f.rows| && Get(f.rows[i], TeamColumn) == k {
      if exists i :: 0 <= i < |f.rows| && Get(f.rows[i], TeamColumn) == k {
        var i :| 0 <= i < |f.rows| && Get(f.rows[i], TeamColumn) == k;
        assert Column(f, TeamColumn)[i] == k;
      }
    }
  }

  lemma SortedDistinctValues(s: seq<Value>)
    requires StrictlySorted(s)
    ensures forall i, j :: 0 <= i < j < |s| ==> s[i] != s[j]
  {
    forall i, j | 0 <= i < j < |s| ensures s[i] != s[j] {
      LessIrreflexive(s[i]);
    }
  }
}
