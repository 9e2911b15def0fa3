/** Properties of the element-table operations: what `load` stages and
    evicts, the load-case set it keeps consistent with the rows, and the
    laws the tests rely on (reload does not duplicate, clear then reload
    restores, a repeated load changes nothing). */
module CdbLaws {
  import opened Failures
  import opened Sorting
  import opened CdbRows
  import opened CdbGroups
  import opened CdbSource
  import opened CdbTable

  /** The requested cases whose key exists, in order. */
  function Present<R>(config: Config<R>, db: Cdb<R>, cases: seq<int>): (p: seq<int>)
    ensures forall lc :: lc in p <==> lc in cases && db.KeyExists(config.key, lc)
  {
    if cases == [] then []
    else (if db.KeyExists(config.key, cases[0]) then [cases[0]] else [])
         + Present(config, db, cases[1..])
  }

  /** The rows read for the present cases, in order, or the first failure. */
  function StagedRows<R>(config: Config<R>, db: Cdb<R>, cases: seq<int>): Result<seq<Row>>
    decreases |cases|
  {
    if cases == [] then Ok([])
    else if !db.KeyExists(config.key, cases[0]) then StagedRows(config, db, cases[1..])
    else
      match Collect(config.project, cases[0], db.Stream(config.key, cases[0]))
      case Err(f) => Err(f)
      case Ok(rows) => Prepend(rows, StagedRows(config, db, cases[1..]))
  }

  /** `clear(lc)` for each case of `cs` in turn. */
  function ClearCases(st: TableState, cs: seq<int>): TableState
    decreases |cs|
  {
    if cs == [] then st else ClearCases(ClearCase(st, cs[0]), cs[1..])
  }

  /** The rows whose load case is not in `cases`, in order. */
  function Outside(rows: seq<Row>, cases: set<int>): (r: seq<Row>)
    ensures forall x :: x in r <==> x in rows && x.loadCase !in cases
  {
    if rows == [] then []
    else (if rows[0].loadCase !in cases then [rows[0]] else []) + Outside(rows[1..], cases)
  }

  // ------------------------------------------------------------ filters

  lemma {:induction false} OutsideAppend(a: seq<Row>, b: seq<Row>, cases: set<int>)
    ensures Outside(a + b, cases) == Outside(a, cases) + Outside(b, cases)
    decreases |a|
  {
    if a == [] {
      assert a + b == b;
    } else {
      assert (a + b)[1..] == a[1..] + b;
      OutsideAppend(a[1..], b, cases);
    }
  }

  lemma {:induction false} OutsideNone(rows: seq<Row>, cases: set<int>)
    requires forall x :: x in rows ==> x.loadCase in cases
    ensures Outside(rows, cases) == []
    decreases |rows|
  {
    if rows != [] {
      assert rows[0] in rows;
      assert forall x :: x in rows[1..] ==> x in rows;
      OutsideNone(rows[1..], cases);
    }
  }

  lemma {:induction false} OutsideAll(rows: seq<Row>, cases: set<int>)
    requires forall x :: x in rows ==> x.loadCase !in cases
    ensures Outside(rows, cases) == rows
    decreases |rows|
  {
    if rows != [] {
      assert rows[0] in rows;
      assert forall x :: x in rows[1..] ==> x in rows;
      OutsideAll(rows[1..], cases);
      assert rows == [rows[0]] + rows[1..];
    }
  }

  lemma {:induction false} OutsideWithout(rows: seq<Row>, lc: int, cases: set<int>)
    ensures Outside(Without(rows, lc), cases) == Outside(rows, {lc} + cases)
    decreases |rows|
  {
    if rows != [] {
      OutsideWithout(rows[1..], lc, cases);
      var head := if rows[0].loadCase != lc then [rows[0]] else [];
      OutsideAppend(head, Without(rows[1..], lc), cases);
    }
  }

  lemma {:induction false} RowsOfCaseOutside(rows: seq<Row>, cases: set<int>, lc: int)
    ensures RowsOfCase(Outside(rows, cases), lc) == if lc in cases then [] else RowsOfCase(rows, lc)
    decreases |rows|
  {
    if rows != [] {
      RowsOfCaseOutside(rows[1..], cases, lc);
      var head := if rows[0].loadCase !in cases then [rows[0]] else [];
      RowsOfCaseAppend(head, Outside(rows[1..], cases), lc);
    }
  }

  lemma {:induction false} RowsOfCaseNone(rows: seq<Row>, lc: int)
    requires forall x :: x in rows ==> x.loadCase != lc
    ensures RowsOfCase(rows, lc) == []
    decreases |rows|
  {
    if rows != [] {
      assert rows[0] in rows;
      assert forall x :: x in rows[1..] ==> x in rows;
      RowsOfCaseNone(rows[1..], lc);
    }
  }

  // ------------------------------------------------------------ reading

  /** Every row of a read carries the requested load case and group 0. */
  lemma {:induction false} CollectTagged<R(!new)>(project: Projection<R>, lc: int, replies: seq<Reply<R>>)
    requires ProjectionSound(project)
    requires Collect(project, lc, replies).Ok?
    ensures forall x :: x in Collect(project, lc, replies).value ==> x.loadCase == lc && x.group == 0
    decreases |replies|
  {
    if replies != [] && replies[0].status < 2 {
      CollectTagged(project, lc, replies[1..]);
    }
  }

  lemma {:induction false} StagedTagged<R(!new)>(config: Config<R>, db: Cdb<R>, cases: seq<int>)
    requires ProjectionSound(config.project)
    requires StagedRows(config, db, cases).Ok?
    ensures forall x :: x in StagedRows(config, db, cases).value ==>
              x.loadCase in Present(config, db, cases) && x.group == 0
    decreases |cases|
  {
    if cases != [] {
      StagedTagged(config, db, cases[1..]);
      if db.KeyExists(config.key, cases[0]) {
        CollectTagged(config.project, cases[0], db.Stream(config.key, cases[0]));
      }
    }
  }

  /** The staging loop yields the rows read for the present cases. */
  lemma {:induction false} StageFromRows<R>(config: Config<R>, db: Cdb<R>, st: TableState,
                                            cases: seq<int>, staged: seq<Row>)
    ensures StageFrom(config, db, st, cases, staged).staged == Prepend(staged, StagedRows(config, db, cases))
    decreases |cases|
  {
    if cases == [] {
      assert staged + [] == staged;
    } else if !db.KeyExists(config.key, cases[0]) {
      StageFromRows(config, db, st, cases[1..], staged);
    } else {
      var lc := cases[0];
      match Collect(config.project, lc, db.Stream(config.key, lc)) {
        case Err(f) =>
        case Ok(rows) =>
          StageFromRows(config, db, ClearCase(st, lc), cases[1..], staged + rows);
          match StagedRows(config, db, cases[1..]) {
            case Ok(more) => assert staged + rows + more == staged + (rows + more);
            case Err(_) =>
          }
      }
    }
  }

  /** When every read succeeds, the staging loop has cleared exactly the
      present cases, in order. */
  lemma {:induction false} StageFromState<R>(config: Config<R>, db: Cdb<R>, st: TableState,
                                             cases: seq<int>, staged: seq<Row>)
    requires StagedRows(config, db, cases).Ok?
    ensures StageFrom(config, db, st, cases, staged).state
            == ClearCases(st, Present(config, db, cases))
    decreases |cases|
  {
    if cases != [] {
      var lc := cases[0];
      var rest := Present(config, db, cases[1..]);
      if !db.KeyExists(config.key, lc) {
        assert Present(config, db, cases) == [] + rest == rest;
        StageFromState(config, db, st, cases[1..], staged);
      } else {
        var rows := Collect(config.project, lc, db.Stream(config.key, lc)).value;
        assert StagedRows(config, db, cases[1..]).Ok?;
        assert Present(config, db, cases) == [lc] + rest;
        assert ([lc] + rest)[1..] == rest;
        StageFromState(config, db, ClearCase(st, lc), cases[1..], staged + rows);
      }
    }
  }

  lemma {:induction false} StageFromConsistent<R>(config: Config<R>, db: Cdb<R>, st: TableState,
                                                  cases: seq<int>, staged: seq<Row>)
    requires Consistent(st)
    ensures Consistent(StageFrom(config, db, st, cases, staged).state)
    decreases |cases|
  {
    if cases != [] {
      var lc := cases[0];
      ClearCaseKeepsConsistent(st, lc);
      if !db.KeyExists(config.key, lc) {
        StageFromConsistent(config, db, st, cases[1..], staged);
      } else {
        match Collect(config.project, lc, db.Stream(config.key, lc)) {
          case Err(_) =>
          case Ok(rows) =>
            StageFromConsistent(config, db, ClearCase(st, lc), cases[1..], staged + rows);
        }
      }
    }
  }

  // ------------------------------------------------------------ clearing

  lemma {:induction false} ClearCasesLoaded(st: TableState, cs: seq<int>)
    ensures ClearCases(st, cs).loaded == st.loaded - Elems(cs)
    decreases |cs|
  {
    if cs != [] {
      ClearCasesLoaded(ClearCase(st, cs[0]), cs[1..]);
      assert Elems(cs) == {cs[0]} + Elems(cs[1..]);
    }
  }

  /** On a consistent table, clearing a list of cases drops exactly their
      rows: a case that was never loaded has none. */
  lemma {:induction false} ClearCasesRows(st: TableState, cs: seq<int>)
    requires Consistent(st)
    ensures ClearCases(st, cs).rows == Outside(st.rows, Elems(cs))
    decreases |cs|
  {
    if cs == [] {
      assert Elems(cs) == {};
      OutsideAll(st.rows, {});
    } else {
      var c := cs[0];
      ClearCaseKeepsConsistent(st, c);
      ClearCasesRows(ClearCase(st, c), cs[1..]);
      if c !in st.loaded {
        WithoutAbsent(st.rows, c);
      }
      assert ClearCase(st, c).rows == Without(st.rows, c);
      OutsideWithout(st.rows, c, Elems(cs[1..]));
      assert Elems(cs) == {c} + Elems(cs[1..]);
    }
  }

  // ------------------------------------------------------------ load

  lemma FrameCases(rows: seq<Row>, ranges: seq<GroupRange>, cases: set<int>)
    requires forall x :: x in rows ==> x.loadCase in cases
    ensures forall x :: x in Stamp(SortBy(rows, ElemIdOf), ranges) ==> x.loadCase in cases
  {
    var sorted := SortBy(rows, ElemIdOf);
    forall x | x in Stamp(sorted, ranges) ensures x.loadCase in cases {
      var i :| 0 <= i < |sorted| && Stamp(sorted, ranges)[i] == x;
      assert sorted[i] in multiset(sorted);
      assert sorted[i] in rows;
    }
  }

  /** The rows a successful `load` appends: the staged rows sorted by
      ELEM_ID and stamped with their groups. */
  function FreshRows<R>(config: Config<R>, db: Cdb<R>, cases: seq<int>,
                        ranges: seq<GroupRange>): seq<Row>
  {
    match StagedRows(config, db, cases)
    case Ok(rows) => Stamp(SortBy(rows, ElemIdOf), ranges)
    case Err(_) => []
  }

  /** How a `load` ends depends only on what is read: the first failing
      read's failure, `KeyError` when nothing is staged, otherwise success,
      after which the fresh rows follow the rows left by the evictions. */
  lemma LoadCasesOutcome<R>(config: Config<R>, db: Cdb<R>, st: TableState, cases: seq<int>,
                            ranges: seq<GroupRange>)
    ensures LoadCases(config, db, st, cases, ranges).outcome
            == match StagedRows(config, db, cases)
               case Err(f) => Raised(f)
               case Ok(rows) => if rows == [] then Raised(KeyError) else Done
    ensures var s := StageFrom(config, db, st, cases, []);
            LoadCases(config, db, st, cases, ranges).outcome == Done ==>
            LoadCases(config, db, st, cases, ranges).state
            == TableState(s.state.rows + FreshRows(config, db, cases, ranges), s.state.loaded + Elems(cases))
  {
    StageFromRows(config, db, st, cases, []);
    match StagedRows(config, db, cases) {
      case Ok(rows) =>
        assert [] + rows == rows;
        assert [] + FreshRows(config, db, cases, ranges) == FreshRows(config, db, cases, ranges);
      case Err(_) =>
    }
  }

  /** A successful `load` on a consistent table: the rows of the present
      cases are replaced by the fresh rows, which come last and belong to
      those cases; every other row stays, in order; every requested case is
      recorded. */
  lemma LoadCasesDone<R(!new)>(config: Config<R>, db: Cdb<R>, st: TableState, cases: seq<int>,
                               ranges: seq<GroupRange>)
    requires Consistent(st) && ProjectionSound(config.project)
    requires LoadCases(config, db, st, cases, ranges).outcome == Done
    ensures var present := Elems(Present(config, db, cases));
            (forall x :: x in FreshRows(config, db, cases, ranges) ==> x.loadCase in present)
            && LoadCases(config, db, st, cases, ranges).state
               == TableState(Outside(st.rows, present) + FreshRows(config, db, cases, ranges),
                             st.loaded + Elems(cases))
  {
    LoadCasesOutcome(config, db, st, cases, ranges);
    assert StagedRows(config, db, cases).Ok?;
    FreshTagged(config, db, cases, ranges);
    var s := StageFrom(config, db, st, cases, []);
    var present := Present(config, db, cases);
    StageFromState(config, db, st, cases, []);
    ClearCasesRows(st, present);
    ClearCasesLoaded(st, present);
    assert s.state.rows == Outside(st.rows, Elems(present));
    forall x | x in Elems(present) ensures x in Elems(cases) {
      assert x in present;
    }
    assert s.state.loaded + Elems(cases) == st.loaded + Elems(cases);
  }

  /** The fresh rows belong to the present cases. */
  lemma FreshTagged<R(!new)>(config: Config<R>, db: Cdb<R>, cases: seq<int>, ranges: seq<GroupRange>)
    requires ProjectionSound(config.project)
    ensures forall x :: x in FreshRows(config, db, cases, ranges) ==>
              x.loadCase in Elems(Present(config, db, cases))
  {
    var staged := StagedRows(config, db, cases);
    if staged.Ok? {
      StagedTagged(config, db, cases);
      FrameCases(staged.value, ranges, Elems(Present(config, db, cases)));
    }
  }

  /** `load` keeps the load-case set covering every row, whatever its
      outcome. */
  lemma LoadKeepsConsistent<R(!new)>(config: Config<R>, db: Cdb<R>, st: TableState,
                                     cases: seq<int>, ranges: seq<GroupRange>)
    requires Consistent(st) && ProjectionSound(config.project)
    ensures Consistent(LoadCases(config, db, st, cases, ranges).state)
  {
    StageFromConsistent(config, db, st, cases, []);
    if LoadCases(config, db, st, cases, ranges).outcome == Done {
      LoadCasesDone(config, db, st, cases, ranges);
    }
  }

  /** After a successful `load`, every requested case is in the load-case
      set, including the ones whose key is missing. */
  lemma LoadRecordsCases<R(!new)>(config: Config<R>, db: Cdb<R>, st: TableState,
                                  cases: seq<int>, ranges: seq<GroupRange>)
    requires Consistent(st) && ProjectionSound(config.project)
    requires LoadCases(config, db, st, cases, ranges).outcome == Done
    ensures LoadCases(config, db, st, cases, ranges).state.loaded == st.loaded + Elems(cases)
  {
    LoadCasesDone(config, db, st, cases, ranges);
  }

  /** Reloading a case does not duplicate it: after a successful `load`, a
      reloaded case holds only its fresh rows and any other case holds what
      it held before. */
  lemma ReloadReplaces<R(!new)>(config: Config<R>, db: Cdb<R>, st: TableState, cases: seq<int>,
                                ranges: seq<GroupRange>, lc: int)
    requires Consistent(st) && ProjectionSound(config.project)
    requires LoadCases(config, db, st, cases, ranges).outcome == Done
    ensures RowsOfCase(LoadCases(config, db, st, cases, ranges).state.rows, lc)
            == if lc in cases && db.KeyExists(config.key, lc)
               then RowsOfCase(FreshRows(config, db, cases, ranges), lc)
               else RowsOfCase(st.rows, lc)
  {
    LoadCasesDone(config, db, st, cases, ranges);
    var present := Elems(Present(config, db, cases));
    var frame := FreshRows(config, db, cases, ranges);
    RowsOfCaseAppend(Outside(st.rows, present), frame, lc);
    RowsOfCaseOutside(st.rows, present, lc);
    if lc !in present {
      RowsOfCaseNone(frame, lc);
    }
  }

  /** Loading the same cases again, from the same database, leaves the table
      as the first load left it. */
  lemma LoadTwice<R(!new)>(config: Config<R>, db: Cdb<R>, st: TableState, cases: seq<int>,
                           ranges: seq<GroupRange>)
    requires Consistent(st) && ProjectionSound(config.project)
    requires LoadCases(config, db, st, cases, ranges).outcome == Done
    ensures var once := LoadCases(config, db, st, cases, ranges).state;
            LoadCases(config, db, once, cases, ranges) == Loaded(Done, once)
  {
    var once := LoadCases(config, db, st, cases, ranges).state;
    LoadCasesDone(config, db, st, cases, ranges);
    LoadKeepsConsistent(config, db, st, cases, ranges);
    LoadCasesOutcome(config, db, st, cases, ranges);
    LoadCasesOutcome(config, db, once, cases, ranges);
    LoadCasesDone(config, db, once, cases, ranges);
    var present := Elems(Present(config, db, cases));
    var frame := FreshRows(config, db, cases, ranges);
    OutsideAppend(Outside(st.rows, present), frame, present);
    OutsideNone(frame, present);
    OutsideAll(Outside(st.rows, present), present);
    assert Outside(st.rows, present) + [] == Outside(st.rows, present);
  }

  /** `clear(lc)` followed by `load(lc)` restores what `load(lc)` gave. */
  lemma ClearThenReload<R(!new)>(config: Config<R>, db: Cdb<R>, st: TableState, lc: int,
                                 ranges: seq<GroupRange>)
    requires Consistent(st) && ProjectionSound(config.project)
    requires LoadCases(config, db, st, [lc], ranges).outcome == Done
    ensures var once := LoadCases(config, db, st, [lc], ranges).state;
            LoadCases(config, db, ClearCase(once, lc), [lc], ranges) == Loaded(Done, once)
  {
    var once := LoadCases(config, db, st, [lc], ranges).state;
    LoadCasesDone(config, db, st, [lc], ranges);
    LoadKeepsConsistent(config, db, st, [lc], ranges);
    LoadCasesOutcome(config, db, st, [lc], ranges);
    var cleared := ClearCase(once, lc);
    ClearCaseKeepsConsistent(once, lc);
    assert Present(config, db, [lc]) == [lc];
    assert Elems([lc]) == {lc};
    var frame := FreshRows(config, db, [lc], ranges);
    // clearing removes the fresh rows and leaves the rows of the other cases
    WithoutAppend(Outside(st.rows, {lc}), frame, lc);
    WithoutAll(frame, lc);
    WithoutAbsent(Outside(st.rows, {lc}), lc);
    assert cleared.rows == Outside(st.rows, {lc});
    LoadCasesOutcome(config, db, cleared, [lc], ranges);
    LoadCasesDone(config, db, cleared, [lc], ranges);
    OutsideAll(Outside(st.rows, {lc}), {lc});
  }

  /** Nothing to stage: no requested case has its key.  Sorting the empty
      frame by ELEM_ID raises, before the load-case set is updated. */
  lemma MissingCasesRaise<R>(config: Config<R>, db: Cdb<R>, st: TableState, cases: seq<int>,
                             ranges: seq<GroupRange>)
    requires forall lc :: lc in cases ==> !db.KeyExists(config.key, lc)
    ensures LoadCases(config, db, st, cases, ranges) == Loaded(Raised(KeyError), st)
  {
    StageFromRows(config, db, st, cases, []);
    MissingStageNothing(config, db, st, cases, []);
  }

  lemma {:induction false} MissingStageNothing<R>(config: Config<R>, db: Cdb<R>, st: TableState,
                                                  cases: seq<int>, staged: seq<Row>)
    requires forall lc :: lc in cases ==> !db.KeyExists(config.key, lc)
    ensures StageFrom(config, db, st, cases, staged) == Staging(Ok(staged), st)
    decreases |cases|
  {
    if cases != [] {
      assert cases[0] in cases;
      MissingStageNothing(config, db, st, cases[1..], staged);
    }
  }

  /** An element-data `load` whose key exists does not depend on what the
      table held: loading twice gives the table of one load. */
  lemma LoadDataTwice<R>(config: Config<R>, db: Cdb<R>, st: TableState, ranges: seq<GroupRange>)
    requires LoadData(config, db, st, ranges).outcome == Done
    ensures var once := LoadData(config, db, st, ranges).state;
            LoadData(config, db, once, ranges) == Loaded(Done, once)
            && once.loaded == st.loaded
  {
  }
}
