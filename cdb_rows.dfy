/** The rows of the element tables read from a SOFiSTiK CDB database: one
    pandas DataFrame row per accepted record, and the index keys by which the
    tables look rows up. */
module CdbRows {
  import opened Failures

  /** A cell value.  Forces, lengths and displacements are only copied from
      the database records, so reals stand for them opaquely. */
  datatype Scalar = Int(i: int) | Real(r: real) | Text(s: string)

  /** One table row.  `loadCase` is the LOAD_CASE column of the per-load-case
      tables; the element-data tables have no such column and hold 0 there.
      `loadType` is the TYPE column of the load tables ("" elsewhere).
      `values` holds the payload columns (PA, PE, N1, L0, AXIAL_FORCE, ...). */
  datatype Row = Row(loadCase: int, group: int, elemId: int, loadType: string,
                     values: map<string, Scalar>)

  /** The columns a table is indexed by: (ELEM_ID), (ELEM_ID, LOAD_CASE) or
      (ELEM_ID, LOAD_CASE, TYPE). */
  datatype Arity = ByElement | ByElementCase | ByElementCaseType

  /** The index entry of a row, as the tuple pandas compares a lookup key to. */
  function IndexKey(arity: Arity, row: Row): (k: seq<Scalar>)
    ensures |k| == match arity case ByElement => 1 case ByElementCase => 2 case ByElementCaseType => 3
    ensures k[0] == Int(row.elemId)
  {
    match arity
    case ByElement => [Int(row.elemId)]
    case ByElementCase => [Int(row.elemId), Int(row.loadCase)]
    case ByElementCaseType => [Int(row.elemId), Int(row.loadCase), Text(row.loadType)]
  }

  /** No two rows share an index entry (pandas' `index.is_unique`). */
  predicate UniqueIndex(arity: Arity, rows: seq<Row>)
  {
    forall i, j :: 0 <= i < j < |rows| ==> IndexKey(arity, rows[i]) != IndexKey(arity, rows[j])
  }

  /** The rows whose index entry is `key`, in table order. */
  function Matching(arity: Arity, rows: seq<Row>, key: seq<Scalar>): (r: seq<Row>)
    ensures |r| <= |rows|
    ensures forall x :: x in r <==> x in rows && IndexKey(arity, x) == key
  {
    if rows == [] then []
    else (if IndexKey(arity, rows[0]) == key then [rows[0]] else []) + Matching(arity, rows[1..], key)
  }

  lemma {:induction false} MatchingUnique(arity: Arity, rows: seq<Row>, key: seq<Scalar>)
    ensures UniqueIndex(arity, rows) ==> |Matching(arity, rows, key)| <= 1
    decreases |rows|
  {
    if rows != [] && UniqueIndex(arity, rows) {
      MatchingUnique(arity, rows[1..], key);
      if IndexKey(arity, rows[0]) == key {
        assert forall i :: 0 <= i < |rows[1..]| ==> rows[1..][i] == rows[i + 1];
        MatchingNone(arity, rows[1..], key);
      }
    }
  }

  lemma {:induction false} MatchingNone(arity: Arity, rows: seq<Row>, key: seq<Scalar>)
    requires forall i :: 0 <= i < |rows| ==> IndexKey(arity, rows[i]) != key
    ensures Matching(arity, rows, key) == []
    decreases |rows|
  {
    if rows != [] {
      MatchingNone(arity, rows[1..], key);
    }
  }

  /** The rows of one load case, in table order. */
  function RowsOfCase(rows: seq<Row>, lc: int): (r: seq<Row>)
    ensures |r| <= |rows|
    ensures forall x :: x in r <==> x in rows && x.loadCase == lc
  {
    if rows == [] then []
    else (if rows[0].loadCase == lc then [rows[0]] else []) + RowsOfCase(rows[1..], lc)
  }

  /** The rows of every load case but `lc`, in table order: the boolean mask
      `LOAD_CASE != lc`. */
  function Without(rows: seq<Row>, lc: int): (r: seq<Row>)
    ensures |r| <= |rows|
    ensures forall x :: x in r <==> x in rows && x.loadCase != lc
  {
    if rows == [] then []
    else (if rows[0].loadCase != lc then [rows[0]] else []) + Without(rows[1..], lc)
  }

  /** Removing a load case leaves every other case's rows, in order, and none
      of its own. */
  lemma {:induction false} WithoutIsolates(rows: seq<Row>, lc: int, other: int)
    ensures RowsOfCase(Without(rows, lc), other) == if other == lc then [] else RowsOfCase(rows, other)
    decreases |rows|
  {
    if rows != [] {
      WithoutIsolates(rows[1..], lc, other);
      var head := if rows[0].loadCase != lc then [rows[0]] else [];
      RowsOfCaseAppend(head, Without(rows[1..], lc), other);
    }
  }

  lemma {:induction false} RowsOfCaseAppend(a: seq<Row>, b: seq<Row>, lc: int)
    ensures RowsOfCase(a + b, lc) == RowsOfCase(a, lc) + RowsOfCase(b, lc)
    decreases |a|
  {
    if a == [] {
      assert a + b == b;
    } else {
      assert (a + b)[1..] == a[1..] + b;
      RowsOfCaseAppend(a[1..], b, lc);
    }
  }

  lemma {:induction false} WithoutAppend(a: seq<Row>, b: seq<Row>, lc: int)
    ensures Without(a + b, lc) == Without(a, lc) + Without(b, lc)
    decreases |a|
  {
    if a == [] {
      assert a + b == b;
    } else {
      assert (a + b)[1..] == a[1..] + b;
      WithoutAppend(a[1..], b, lc);
    }
  }

  /** Filtering out a case that no row carries changes nothing. */
  lemma {:induction false} WithoutAbsent(rows: seq<Row>, lc: int)
    requires forall x :: x in rows ==> x.loadCase != lc
    ensures Without(rows, lc) == rows
    decreases |rows|
  {
    if rows != [] {
      assert rows[0] in rows;
      assert forall x :: x in rows[1..] ==> x in rows;
      WithoutAbsent(rows[1..], lc);
      assert rows == [rows[0]] + rows[1..];
    }
  }

  /** Filtering out a case that every row carries leaves nothing. */
  lemma {:induction false} WithoutAll(rows: seq<Row>, lc: int)
    requires forall x :: x in rows ==> x.loadCase == lc
    ensures Without(rows, lc) == []
    decreases |rows|
  {
    if rows != [] {
      assert rows[0] in rows;
      assert forall x :: x in rows[1..] ==> x in rows;
      WithoutAll(rows[1..], lc);
    }
  }
}
