/** The element table shared by the cable, truss and spring readers: a row
    table filled from one CDB key, indexed for lookup, and, for the
    per-load-case tables, the set of load cases loaded so far. */
module CdbTable {
  import opened Failures
  import opened Sorting
  import opened CdbRows
  import opened CdbGroups
  import opened CdbSource

  /** What distinguishes one table from another: its key number, whether it
      is read per load case (key/LC) or once (key/0), whether a list of load
      cases is deduplicated, the index columns, the group iterator it uses,
      its column names and the projection of a record into a row. */
  datatype Config<!R> = Config(key: int, perCase: bool, dedup: bool, arity: Arity,
                              family: Family, columns: set<string>, project: Projection<R>)

  /** The table's fields: `_data` and `_loaded_lc`. */
  datatype TableState = TableState(rows: seq<Row>, loaded: set<int>)

  /** The load cases argument: an `int` or a `list[int]`. */
  datatype CaseArg = Case(lc: int) | Cases(lcs: seq<int>)

  /** A lookup hit: pandas gives one value, or a column of values when a
      single-column index holds the element twice. */
  datatype Found = One(value: Scalar) | Many(values: seq<Scalar>)

  /** The end of a `load`: how it ended and the table it left. */
  datatype Loaded = Loaded(outcome: Outcome, state: TableState)

  /** The staged rows of a `load`, or its failure, and the table it has
      evicted from so far. */
  datatype Staging = Staging(staged: Result<seq<Row>>, state: TableState)

  function Elems(s: seq<int>): set<int>
  {
    set x | x in s
  }

  predicate Distinct(s: seq<int>)
  {
    forall i, j :: 0 <= i < j < |s| ==> s[i] != s[j]
  }

  /** The load cases a `load` call processes, in order: an `int` becomes a
      one-element list; a list is used as given, or, when the table
      deduplicates, as `list(set(...))`, whose order Python leaves open. */
  predicate Requested(arg: CaseArg, dedup: bool, cases: seq<int>)
  {
    match arg
    case Case(lc) => cases == [lc]
    case Cases(lcs) => if dedup then Distinct(cases) && Elems(cases) == Elems(lcs) else cases == lcs
  }

  /** Every row's load case is recorded as loaded. */
  predicate Consistent(st: TableState)
  {
    forall r :: r in st.rows ==> r.loadCase in st.loaded
  }

  /** A projection tags its rows with the requested load case and group 0. */
  ghost predicate ProjectionSound<R(!new)>(project: Projection<R>)
  {
    forall lc: int, rec: R :: project(lc, rec).Ok? && project(lc, rec).value.Some? ==>
      project(lc, rec).value.value.loadCase == lc && project(lc, rec).value.value.group == 0
  }

  // ---------------------------------------------------------------- lookup

  /** The value of `column` in `row`, if the table has that column. */
  function Cell(columns: set<string>, row: Row, column: string): Option<Scalar>
  {
    if column !in columns then None
    else if column == "ELEM_ID" then Some(Int(row.elemId))
    else if column == "GROUP" then Some(Int(row.group))
    else if column == "LOAD_CASE" then Some(Int(row.loadCase))
    else if column == "TYPE" then Some(Text(row.loadType))
    else if column in row.values then Some(row.values[column])
    else None
  }

  /** What `get` returns when the entry is missing. */
  function Miss(default: Option<Scalar>): Result<Found>
  {
    if default.Some? then Ok(One(default.value)) else Err(LookupError)
  }

  /** `get`: `_data.at[key, column]`, with `KeyError` and `ValueError` turned
      into `default`, or into `LookupError` when `default` is `None`.  On a
      multi-column index `.at` raises `ValueError` as soon as the index holds
      a duplicate anywhere; on the single-column index it falls back to
      `.loc`, which yields every duplicate's value. */
  function Lookup(arity: Arity, columns: set<string>, rows: seq<Row>, key: seq<Scalar>,
                  column: string, default: Option<Scalar>): (r: Result<Found>)
    ensures r.Err? ==> r == Err(LookupError) && default.None?
    ensures Matching(arity, rows, key) == [] ==> r == Miss(default)
    ensures column !in columns ==> r == Miss(default)
    ensures arity != ByElement && !UniqueIndex(arity, rows) ==> r == Miss(default)
    ensures forall row :: (row in rows && IndexKey(arity, row) == key && UniqueIndex(arity, rows)
                           && Cell(columns, row, column).Some?)
                          ==> r == Ok(One(Cell(columns, row, column).value))
  {
    var matches := Matching(arity, rows, key);
    MatchingUnique(arity, rows, key);
    assert column !in columns && matches != [] ==> Cell(columns, matches[0], column).None?;
    if (arity == ByElement || UniqueIndex(arity, rows)) && matches != []
       && forall m :: m in matches ==> Cell(columns, m, column).Some?
    then
      if |matches| == 1 then Ok(One(Cell(columns, matches[0], column).value))
      else Ok(Many(seq(|matches|, i requires 0 <= i < |matches| => Cell(columns, matches[i], column).value)))
    else Miss(default)
  }

  // ---------------------------------------------------------------- clear

  /** `clear(lc)`: nothing when `lc` was never loaded, otherwise the rows of
      `lc` are dropped and `lc` is forgotten. */
  function ClearCase(st: TableState, lc: int): TableState
  {
    if lc !in st.loaded then st else TableState(Without(st.rows, lc), st.loaded - {lc})
  }

  /** Clearing one case leaves the other cases' rows as they were and
      removes all of its own rows when it was loaded. */
  lemma ClearCaseIsolates(st: TableState, lc: int, other: int)
    ensures RowsOfCase(ClearCase(st, lc).rows, other)
            == if other == lc && lc in st.loaded then [] else RowsOfCase(st.rows, other)
    ensures ClearCase(st, lc).loaded == st.loaded - {lc}
  {
    if lc in st.loaded {
      WithoutIsolates(st.rows, lc, other);
    }
  }

  lemma ClearCaseKeepsConsistent(st: TableState, lc: int)
    requires Consistent(st)
    ensures Consistent(ClearCase(st, lc))
  {
  }

  /** Clearing twice is clearing once. */
  lemma ClearCaseIdempotent(st: TableState, lc: int)
    ensures ClearCase(ClearCase(st, lc), lc) == ClearCase(st, lc)
  {
  }

  /** A load case's entries are gone after it is cleared: `get` falls back to
      its default. */
  lemma GetAfterClear(arity: Arity, columns: set<string>, st: TableState, lc: int,
                      key: seq<Scalar>, column: string, default: Option<Scalar>)
    requires Consistent(st)
    requires arity != ByElement && |key| >= 2 && key[1] == Int(lc)
    ensures Lookup(arity, columns, ClearCase(st, lc).rows, key, column, default) == Miss(default)
  {
    var rows := ClearCase(st, lc).rows;
    forall i | 0 <= i < |rows| ensures IndexKey(arity, rows[i]) != key {
      assert rows[i] in rows;
      assert IndexKey(arity, rows[i])[1] == Int(rows[i].loadCase);
    }
    MatchingNone(arity, rows, key);
  }

  // ---------------------------------------------------------------- load

  /** The loop over the requested cases: a case whose key is missing is
      skipped; otherwise its old rows are cleared and its records read and
      staged; the first failing read ends the loop. */
  function StageFrom<R>(config: Config<R>, db: Cdb<R>, st: TableState, cases: seq<int>,
                        staged: seq<Row>): Staging
    decreases |cases|
  {
    if cases == [] then Staging(Ok(staged), st)
    else
      var lc := cases[0];
      if !db.KeyExists(config.key, lc) then StageFrom(config, db, st, cases[1..], staged)
      else
        var cleared := ClearCase(st, lc);
        match Collect(config.project, lc, db.Stream(config.key, lc))
        case Err(f) => Staging(Err(f), cleared)
        case Ok(rows) => StageFrom(config, db, cleared, cases[1..], staged + rows)
  }

  /** `load` on a per-load-case table: stage, then sort the staged rows by
      ELEM_ID, stamp their groups, index them and append them; every
      requested case is recorded as loaded.  Staging nothing leaves pandas
      with a frame that has no ELEM_ID column to sort by: `KeyError`. */
  function LoadCases<R>(config: Config<R>, db: Cdb<R>, st: TableState, cases: seq<int>,
                        ranges: seq<GroupRange>): Loaded
  {
    var s := StageFrom(config, db, st, cases, []);
    match s.staged
    case Err(f) => Loaded(Raised(f), s.state)
    case Ok(rows) =>
      if rows == [] then Loaded(Raised(KeyError), s.state)
      else
        var frame := Stamp(SortBy(rows, ElemIdOf), ranges);
        Loaded(Done, TableState(if s.state.rows == [] then frame else s.state.rows + frame,
                                s.state.loaded + Elems(cases)))
  }

  /** `load` on an element-data table (key/0): nothing when the key is
      missing; otherwise the table is emptied and becomes exactly the fresh,
      sorted and stamped rows. */
  function LoadData<R>(config: Config<R>, db: Cdb<R>, st: TableState, ranges: seq<GroupRange>): Loaded
  {
    if !db.KeyExists(config.key, 0) then Loaded(Done, st)
    else
      var cleared := TableState([], st.loaded);
      match Collect(config.project, 0, db.Stream(config.key, 0))
      case Err(f) => Loaded(Raised(f), cleared)
      case Ok(rows) =>
        if rows == [] then Loaded(Raised(KeyError), cleared)
        else Loaded(Done, TableState(Stamp(SortBy(rows, ElemIdOf), ranges), st.loaded))
  }

  lemma {:induction false} SomeIndexIn(lcs: seq<int>, rest: set<int>)
    requires rest != {} && rest <= Elems(lcs)
    ensures exists i :: 0 <= i < |lcs| && lcs[i] in rest
    decreases |lcs|
  {
    if lcs == [] {
      assert false;
    } else if lcs[0] !in rest {
      assert rest <= Elems(lcs[1..]);
      SomeIndexIn(lcs[1..], rest);
      var i :| 0 <= i < |lcs[1..]| && lcs[1..][i] in rest;
      assert lcs[i + 1] in rest;
    }
  }

  /** `list(set(load_cases))`: the distinct cases, in some order. */
  method Deduplicate(lcs: seq<int>) returns (cases: seq<int>)
    ensures Distinct(cases) && Elems(cases) == Elems(lcs)
  {
    var rest := Elems(lcs);
    cases := [];
    while rest != {}
      invariant Distinct(cases)
      invariant Elems(cases) + rest == Elems(lcs)
      invariant Elems(cases) !! rest
      decreases |rest|
    {
      SomeIndexIn(lcs, rest);
      var i :| 0 <= i < |lcs| && lcs[i] in rest;
      var x := lcs[i];
      cases := cases + [x];
      rest := rest - {x};
    }
  }

  /** One CDB element table. */
  class RecordTable<R> {
    const config: Config<R>
    const source: RecordSource<R>
    var rows: seq<Row>
    var loaded: set<int>

    function State(): TableState
      reads this
    {
      TableState(rows, loaded)
    }

    constructor(config: Config<R>, source: RecordSource<R>)
      ensures this.config == config && this.source == source
      ensures rows == [] && loaded == {}
    {
      this.config := config;
      this.source := source;
      rows := [];
      loaded := {};
    }

    /** `clear(lc)` of a per-load-case table. */
    method Clear(lc: int)
      modifies this
      ensures State() == ClearCase(old(State()), lc)
    {
      if lc !in loaded {
        return;
      }
      rows := Without(rows, lc);
      loaded := loaded - {lc};
    }

    /** `clear_all` of a per-load-case table: `_data[0:0]` and an empty set. */
    method ClearAll()
      modifies this
      ensures rows == [] && loaded == {}
    {
      rows := [];
      loaded := {};
    }

    /** `clear` of an element-data table: `_data[0:0]`. */
    method ClearRows()
      modifies this
      ensures rows == [] && loaded == old(loaded)
    {
      rows := [];
    }

    /** `get`. */
    function Get(key: seq<Scalar>, column: string, default: Option<Scalar>): (r: Result<Found>)
      reads this
      ensures r.Err? ==> r == Err(LookupError) && default.None?
      ensures Matching(config.arity, rows, key) == [] ==> r == Miss(default)
      ensures column !in config.columns ==> r == Miss(default)
      ensures forall row :: (row in rows && IndexKey(config.arity, row) == key
                             && UniqueIndex(config.arity, rows) && Cell(config.columns, row, column).Some?)
                            ==> r == Ok(One(Cell(config.columns, row, column).value))
    {
      Lookup(config.arity, config.columns, rows, key, column, default)
    }

    /** `load(load_cases)` of a per-load-case table. */
    method Load(arg: CaseArg, groups: GroupData) returns (outcome: Outcome, ghost cases: seq<int>)
      requires config.perCase
      modifies this, source
      ensures Requested(arg, config.dedup, cases)
      ensures Loaded(outcome, State())
              == LoadCases(config, source.db, old(State()), cases, Ranges(groups, config.family))
    {
      var lcs: seq<int>;
      match arg {
        case Case(lc) =>
          lcs := [lc];
        case Cases(list) =>
          if config.dedup {
            lcs := Deduplicate(list);
          } else {
            lcs := list;
          }
      }
      cases := lcs;
      var staged: seq<Row> := [];
      var k := 0;
      while k < |lcs|
        invariant 0 <= k <= |lcs|
        invariant StageFrom(config, source.db, State(), lcs[k..], staged)
                  == StageFrom(config, source.db, old(State()), lcs, [])
      {
        var lc := lcs[k];
        assert lcs[k..][1..] == lcs[k + 1..];
        if source.db.KeyExists(config.key, lc) {
          Clear(lc);
          var fetched := Fetch(source, config.key, lc, config.project);
          match fetched {
            case Err(f) =>
              outcome := Raised(f);
              return;
            case Ok(more) =>
              staged := staged + more;
          }
        }
        k := k + 1;
      }
      if staged == [] {
        outcome := Raised(KeyError);
        return;
      }
      var frame := AssignGroups(staged, Ranges(groups, config.family));
      if rows == [] {
        rows := frame;
      } else {
        rows := rows + frame;
      }
      loaded := loaded + Elems(lcs);
      outcome := Done;
    }

    /** `load()` of an element-data table. */
    method LoadAll(groups: GroupData) returns (outcome: Outcome)
      requires !config.perCase
      modifies this, source
      ensures Loaded(outcome, State())
              == LoadData(config, source.db, old(State()), Ranges(groups, config.family))
    {
      if !source.db.KeyExists(config.key, 0) {
        return Done;
      }
      ClearRows();
      var fetched := Fetch(source, config.key, 0, config.project);
      match fetched {
        case Err(f) =>
          return Raised(f);
        case Ok(data) =>
          if data == [] {
            return Raised(KeyError);
          }
          var frame := AssignGroups(data, Ranges(groups, config.family));
          rows := if rows == [] then frame else rows + frame;
          outcome := Done;
      }
    }
  }
}
