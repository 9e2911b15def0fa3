/** The deflected-configuration cache of the node accessor (`_Node`): per
    load case, every node's reference coordinates moved by its displacement. */
module Node {
  import opened Failures
  import opened Sorting

  /** A node of the node table: its number and reference coordinates. */
  datatype Coord = Coord(id: int, x0: real, y0: real, z0: real)

  /** A node's displacement in one load case. */
  datatype Disp = Disp(ux: real, uy: real, uz: real)

  /** A row of the cache: columns LOAD_CASE, ID, X, Y, Z. */
  datatype NodeRow = NodeRow(loadCase: int, id: int, x: real, y: real, z: real)

  /** A row of `get_deflected_configuration`: columns ID, X, Y, Z. */
  datatype Point = Point(id: int, x: real, y: real, z: real)

  /** The cache's fields: `_data` and `_calculated_lc`. */
  datatype Cache = Cache(rows: seq<NodeRow>, calculated: set<int>)

  /** The displacement of node `id`; a node without one has not moved
      (`fillna(0.0)`). */
  function DispOf(disps: map<int, Disp>, id: int): (d: Disp)
    ensures id !in disps ==> d == Disp(0.0, 0.0, 0.0)
    ensures id in disps ==> d == disps[id]
  {
    if id in disps then disps[id] else Disp(0.0, 0.0, 0.0)
  }

  /** The rows one calculation adds: one per node, in the node table's
      order, each moved by its own displacement. */
  function Deflected(lc: int, coords: seq<Coord>, disps: map<int, Disp>): (rows: seq<NodeRow>)
    ensures |rows| == |coords|
    ensures forall i :: 0 <= i < |coords| ==>
              rows[i].loadCase == lc && rows[i].id == coords[i].id
              && rows[i].x - coords[i].x0 == DispOf(disps, coords[i].id).ux
              && rows[i].y - coords[i].y0 == DispOf(disps, coords[i].id).uy
              && rows[i].z - coords[i].z0 == DispOf(disps, coords[i].id).uz
  {
    seq(|coords|, i requires 0 <= i < |coords| =>
      var d := DispOf(disps, coords[i].id);
      NodeRow(lc, coords[i].id, coords[i].x0 + d.ux, coords[i].y0 + d.uy, coords[i].z0 + d.uz))
  }

  function LoadCaseOf(row: NodeRow): int { row.loadCase }

  /** The rows of every load case but `lc`, in order. */
  function OtherCases(rows: seq<NodeRow>, lc: int): (r: seq<NodeRow>)
    ensures forall x :: x in r <==> x in rows && x.loadCase != lc
  {
    if rows == [] then []
    else (if rows[0].loadCase != lc then [rows[0]] else []) + OtherCases(rows[1..], lc)
  }

  function PointOf(row: NodeRow): Point
  {
    Point(row.id, row.x, row.y, row.z)
  }

  function Points(rows: seq<NodeRow>): (ps: seq<Point>)
    ensures |ps| == |rows|
    ensures forall i :: 0 <= i < |rows| ==> ps[i] == PointOf(rows[i])
  {
    seq(|rows|, i requires 0 <= i < |rows| => PointOf(rows[i]))
  }

  /** Every row belongs to a calculated load case. */
  predicate Consistent(c: Cache)
  {
    forall x :: x in c.rows ==> x.loadCase in c.calculated
  }

  /** `calculate_deflected_configuration(lc)`: the case is recorded and its
      rows appended after whatever the cache holds, earlier rows of the same
      case included. */
  function Calculated(c: Cache, lc: int, coords: seq<Coord>, disps: map<int, Disp>): Cache
  {
    Cache(c.rows + Deflected(lc, coords, disps), c.calculated + {lc})
  }

  /** `clear(lc)`: nothing when `lc` was not calculated. */
  function Cleared(c: Cache, lc: int): Cache
  {
    if lc !in c.calculated then c else Cache(OtherCases(c.rows, lc), c.calculated - {lc})
  }

  /** `clear_all`: nothing when no case was calculated. */
  function ClearedAll(c: Cache): Cache
  {
    if c.calculated == {} then c else Cache([], {})
  }

  /** `get_deflected_configuration(lc)`: the case's rows, in order, without
      their LOAD_CASE column; `LookupError` for a case not calculated. */
  function Configuration(c: Cache, lc: int): (r: Result<seq<Point>>)
    ensures r.Err? <==> lc !in c.calculated
    ensures r.Err? ==> r.failure == LookupError
    ensures r.Ok? ==> forall p :: p in r.value <==> exists x :: x in c.rows && x.loadCase == lc && p == PointOf(x)
  {
    if lc !in c.calculated then Err(LookupError)
    else
      WithKeyMembers(c.rows, lc);
      Ok(Points(WithKey(c.rows, LoadCaseOf, lc)))
  }

  class NodeCache {
    var rows: seq<NodeRow>
    var calculated: set<int>

    function State(): Cache
      reads this
    {
      Cache(rows, calculated)
    }

    constructor()
      ensures State() == Cache([], {})
    {
      rows := [];
      calculated := {};
    }

    /** `calculate_deflected_configuration(lc)`, given the node table's
        coordinates and the case's displacements by node. */
    method Calculate(lc: int, coords: seq<Coord>, disps: map<int, Disp>)
      modifies this
      ensures State() == Calculated(old(State()), lc, coords, disps)
    {
      var moved := Deflected(lc, coords, disps);
      calculated := calculated + {lc};
      if rows == [] {
        rows := moved;
      } else {
        rows := rows + moved;
      }
    }

    method Clear(lc: int)
      modifies this
      ensures State() == Cleared(old(State()), lc)
    {
      if !IsCalculated(lc) {
        return;
      }
      rows := OtherCases(rows, lc);
      calculated := calculated - {lc};
    }

    method ClearAll()
      modifies this
      ensures State() == ClearedAll(old(State()))
    {
      if calculated == {} {
        return;
      }
      rows := [];
      calculated := {};
    }

    function Get(lc: int): (r: Result<seq<Point>>)
      reads this
      ensures r == Configuration(State(), lc)
    {
      Configuration(State(), lc)
    }

    /** `is_deflected_configuration_calculated(lc)`. */
    predicate IsCalculated(lc: int)
      reads this
      ensures IsCalculated(lc) <==> Configuration(State(), lc).Ok?
    {
      lc in calculated
    }
  }

  // ------------------------------------------------------------ laws

  lemma WithKeyMembers(rows: seq<NodeRow>, lc: int)
    ensures forall x :: x in WithKey(rows, LoadCaseOf, lc) <==> x in rows && x.loadCase == lc
  {
    forall x | x in rows && x.loadCase == lc ensures x in WithKey(rows, LoadCaseOf, lc) {
      var i :| 0 <= i < |rows| && rows[i] == x;
      InWithKey(rows, LoadCaseOf, i);
    }
  }

  lemma {:induction false} OtherCasesAppend(a: seq<NodeRow>, b: seq<NodeRow>, lc: int)
    ensures OtherCases(a + b, lc) == OtherCases(a, lc) + OtherCases(b, lc)
    decreases |a|
  {
    if a == [] {
      assert a + b == b;
    } else {
      assert (a + b)[1..] == a[1..] + b;
      OtherCasesAppend(a[1..], b, lc);
    }
  }

  lemma {:induction false} OtherCasesAll(rows: seq<NodeRow>, lc: int)
    requires forall x :: x in rows ==> x.loadCase != lc
    ensures OtherCases(rows, lc) == rows
    decreases |rows|
  {
    if rows != [] {
      assert rows[0] in rows;
      assert forall x :: x in rows[1..] ==> x in rows;
      OtherCasesAll(rows[1..], lc);
      assert rows == [rows[0]] + rows[1..];
    }
  }

  lemma CalculatedKeepsConsistent(c: Cache, lc: int, coords: seq<Coord>, disps: map<int, Disp>)
    requires Consistent(c)
    ensures Consistent(Calculated(c, lc, coords, disps))
  {
  }

  lemma ClearedKeepsConsistent(c: Cache, lc: int)
    requires Consistent(c)
    ensures Consistent(Cleared(c, lc))
  {
  }

  /** After a calculation on a case not yet calculated, its configuration is
      exactly the moved nodes, in the node table's order. */
  lemma ConfigurationAfterCalculate(c: Cache, lc: int, coords: seq<Coord>, disps: map<int, Disp>)
    requires Consistent(c) && lc !in c.calculated
    ensures Configuration(Calculated(c, lc, coords, disps), lc) == Ok(Points(Deflected(lc, coords, disps)))
  {
    var moved := Deflected(lc, coords, disps);
    WithKeyAppend(c.rows, moved, LoadCaseOf, lc);
    WithKeyNone(c.rows, lc);
    WithKeyAll(moved, lc);
    assert [] + moved == moved;
  }

  /** Calculating a case twice keeps both results: its configuration then
      lists every node twice. */
  lemma CalculateTwiceRepeats(c: Cache, lc: int, coords: seq<Coord>, disps: map<int, Disp>)
    requires Consistent(c) && lc !in c.calculated
    ensures var twice := Calculated(Calculated(c, lc, coords, disps), lc, coords, disps);
            Configuration(twice, lc) == Ok(Points(Deflected(lc, coords, disps) + Deflected(lc, coords, disps)))
  {
    var moved := Deflected(lc, coords, disps);
    assert Calculated(Calculated(c, lc, coords, disps), lc, coords, disps) ==
           Cache(c.rows + (moved + moved), c.calculated + {lc});
    ConfigurationAppended(c, lc, moved + moved);
  }

  /** Rows of one case appended to a cache that lacks the case are exactly
      that case's configuration. */
  lemma ConfigurationAppended(c: Cache, lc: int, rows: seq<NodeRow>)
    requires Consistent(c) && lc !in c.calculated
    requires forall i :: 0 <= i < |rows| ==> rows[i].loadCase == lc
    ensures Configuration(Cache(c.rows + rows, c.calculated + {lc}), lc) == Ok(Points(rows))
  {
    WithKeyAppend(c.rows, rows, LoadCaseOf, lc);
    WithKeyNone(c.rows, lc);
    WithKeyAll(rows, lc);
    assert [] + rows == rows;
  }

  /** Clearing a case makes its configuration unavailable and leaves every
      other case's configuration as it was. */
  lemma ConfigurationAfterClear(c: Cache, lc: int, other: int)
    ensures Configuration(Cleared(c, lc), lc).Err?
    ensures other != lc ==> Configuration(Cleared(c, lc), other) == Configuration(c, other)
  {
    if other != lc && lc in c.calculated {
      WithKeyOtherCases(c.rows, lc, other);
    }
  }

  /** On a consistent cache `clear_all` always ends with an empty cache,
      even when it returns early, so no configuration is available. */
  lemma ConfigurationAfterClearAll(c: Cache, lc: int)
    requires Consistent(c)
    ensures ClearedAll(c) == Cache([], {})
    ensures Configuration(ClearedAll(c), lc) == Err(LookupError)
  {
    if c.rows != [] {
      assert c.rows[0] in c.rows;
    }
  }

  /** Clearing then recalculating a case gives back the cache's
      configuration of that case. */
  lemma ClearThenCalculate(c: Cache, lc: int, coords: seq<Coord>, disps: map<int, Disp>)
    requires Consistent(c)
    ensures var once := Calculated(Cleared(c, lc), lc, coords, disps);
            Configuration(once, lc) == Ok(Points(Deflected(lc, coords, disps)))
  {
    ClearedKeepsConsistent(c, lc);
    ConfigurationAfterCalculate(Cleared(c, lc), lc, coords, disps);
  }

  lemma {:induction false} WithKeyNone(rows: seq<NodeRow>, lc: int)
    requires forall x :: x in rows ==> x.loadCase != lc
    ensures WithKey(rows, LoadCaseOf, lc) == []
    decreases |rows|
  {
    if rows != [] {
      assert rows[0] in rows;
      assert forall x :: x in rows[1..] ==> x in rows;
      WithKeyNone(rows[1..], lc);
    }
  }

  lemma {:induction false} WithKeyAll(rows: seq<NodeRow>, lc: int)
    requires forall i :: 0 <= i < |rows| ==> rows[i].loadCase == lc
    ensures WithKey(rows, LoadCaseOf, lc) == rows
    decreases |rows|
  {
    if rows != [] {
      WithKeyAll(rows[1..], lc);
      assert rows == [rows[0]] + rows[1..];
    }
  }

  lemma {:induction false} WithKeyOtherCases(rows: seq<NodeRow>, lc: int, other: int)
    requires other != lc
    ensures WithKey(OtherCases(rows, lc), LoadCaseOf, other) == WithKey(rows, LoadCaseOf, other)
    decreases |rows|
  {
    if rows != [] {
      WithKeyOtherCases(rows[1..], lc, other);
      var head := if rows[0].loadCase != lc then [rows[0]] else [];
      WithKeyAppend(head, OtherCases(rows[1..], lc), LoadCaseOf, other);
    }
  }
}
