/** The older truss loads table (`_TrussLoad` of the first reader package):
    key 151/LC read case by case into a table with a plain positional index,
    without deduplicating a list of load cases, with its own decoding of the
    load type and a group loop over the whole table. */
module TrussLoadLegacy {
  import opened Failures
  import opened CdbRows
  import opened CdbGroups
  import opened CdbSource
  import opened CdbTable
  import opened CdbLaws
  import TrussLoad

  type Record = TrussLoad.Record

  /** The `match` on the load type code; code 60 is spelled "T". */
  function Decode(code: int): Option<string>
  {
    match code
    case 10 => Some("PG")
    case 11 => Some("PXX")
    case 12 => Some("PYY")
    case 13 => Some("PZZ")
    case 30 => Some("EX")
    case 31 => Some("WX")
    case 60 => Some("T")
    case 61 => Some("DT")
    case 70 => Some("VX")
    case 80 => Some("VX")
    case 111 => Some("PXP")
    case 212 => Some("PYP")
    case 313 => Some("PZP")
    case _ => None
  }

  /** The two versions decode the same codes, and agree on all of them but
      60, which the older one calls "T" and the newer one "DT". */
  lemma DecodeAgreesBut60(code: int)
    ensures Decode(code).Some? <==> code in TrussLoad.LoadTypes
    ensures code != 60 && code in TrussLoad.LoadTypes ==> Decode(code) == Some(TrussLoad.LoadTypes[code])
    ensures Decode(60) == Some("T") && TrussLoad.LoadTypes[60] == "DT"
  {
  }

  function RowOf(lc: int, rec: Record): Row
  {
    Row(lc, 0, rec.nr, if Decode(rec.typ).Some? then Decode(rec.typ).value else "",
        map["PA" := Real(rec.pa), "PE" := Real(rec.pe)])
  }

  function Project(lc: int, rec: Record): (r: Result<Option<Row>>)
    ensures r.Err? <==> Decode(rec.typ).None?
    ensures r.Err? ==> r.failure == RuntimeError
    ensures r.Ok? ==> r.value.Some? && Decode(rec.typ) == Some(r.value.value.loadType)
                      && r.value.value.elemId == rec.nr && r.value.value.loadCase == lc
                      && r.value.value.group == 0
  {
    if Decode(rec.typ).None? then Err(RuntimeError) else Ok(Some(RowOf(lc, rec)))
  }

  const Key := 151

  /** The key and the projection, in the shape the table laws use. */
  const Config: CdbTable.Config<Record> :=
    CdbTable.Config(Key, true, false, ByElementCaseType, Trusses, TrussLoad.Columns, Project)

  lemma ProjectSound()
    ensures ProjectionSound(Config.project)
  {
  }

  /** The fields: `_data` (its rows, and whether it still has its columns:
      a frame built from an empty list has none) and `_loaded_lc`. */
  datatype State = State(rows: seq<Row>, loaded: set<int>, columns: bool)

  datatype Run = Run(outcome: Outcome, state: State)

  /** The cases a call processes: an `int` becomes a one-element list, a
      list is used as given, repetitions included. */
  function CaseList(arg: CaseArg): seq<int>
  {
    match arg
    case Case(lc) => [lc]
    case Cases(lcs) => lcs
  }

  /** Appending a read to the table: an empty table is replaced by the
      read's frame, any other gets the frame's rows appended. */
  function Merge(st: State, lc: int, rows: seq<Row>): State
  {
    if st.rows == [] then State(rows, st.loaded + {lc}, rows != [])
    else State(st.rows + rows, st.loaded + {lc}, st.columns)
  }

  /** The loop over the cases.  A case whose key is missing is skipped.
      Before reading an existing case, `clear` runs; for a case already
      loaded it asks the positional index for its LOAD_CASE level, which it
      does not have: `KeyError`. */
  function ReadCases(db: Cdb<Record>, st: State, cases: seq<int>): Run
    decreases |cases|
  {
    if cases == [] then Run(Done, st)
    else
      var lc := cases[0];
      if !db.KeyExists(Key, lc) then ReadCases(db, st, cases[1..])
      else if lc in st.loaded then Run(Raised(KeyError), st)
      else
        match Collect(Project, lc, db.Stream(Key, lc))
        case Err(f) => Run(Raised(f), st)
        case Ok(rows) => ReadCases(db, Merge(st, lc, rows), cases[1..])
  }

  /** `load`: read the cases, then let every truss range in turn set GROUP
      on each row of the whole table whose element it holds.  The range loop
      reads the ELEM_ID column, which a table without columns lacks. */
  function LegacyLoad(db: Cdb<Record>, st: State, cases: seq<int>, ranges: seq<GroupRange>): Run
  {
    var r := ReadCases(db, st, cases);
    if r.outcome != Done then r
    else if ranges != [] && !r.state.columns then Run(Raised(AttributeError), r.state)
    else Run(Done, r.state.(rows := StampMembers(r.state.rows, ranges)))
  }

  class Table {
    const source: RecordSource<Record>
    var rows: seq<Row>
    var loaded: set<int>
    var columns: bool

    function Fields(): State
      reads this
    {
      State(rows, loaded, columns)
    }

    constructor(source: RecordSource<Record>)
      ensures this.source == source && Fields() == State([], {}, true)
    {
      this.source := source;
      rows := [];
      loaded := {};
      columns := true;
    }

    /** `load(load_cases)`. */
    method Load(arg: CaseArg, groups: GroupData) returns (outcome: Outcome)
      modifies this, source
      ensures Run(outcome, Fields()) == LegacyLoad(source.db, old(Fields()), CaseList(arg), groups.truss)
    {
      var lcs := CaseList(arg);
      var k := 0;
      while k < |lcs|
        invariant 0 <= k <= |lcs|
        invariant ReadCases(source.db, Fields(), lcs[k..]) == ReadCases(source.db, old(Fields()), lcs)
      {
        var lc := lcs[k];
        assert lcs[k..][1..] == lcs[k + 1..];
        if source.db.KeyExists(Key, lc) {
          if lc in loaded {
            return Raised(KeyError);
          }
          var fetched := Fetch(source, Key, lc, Project);
          match fetched {
            case Err(f) =>
              return Raised(f);
            case Ok(data) =>
              if rows == [] {
                rows := data;
                columns := data != [];
              } else {
                rows := rows + data;
              }
              loaded := loaded + {lc};
          }
        }
        k := k + 1;
      }
      var ranges := groups.truss;
      if ranges != [] && !columns {
        return Raised(AttributeError);
      }
      rows := AssignMemberGroups(rows, ranges);
      outcome := Done;
    }
  }

  /** A completed case loop appends the reads of the existing cases, in
      order, and records exactly those cases. */
  lemma {:induction false} ReadCasesAppends(db: Cdb<Record>, st: State, cases: seq<int>)
    requires ReadCases(db, st, cases).outcome == Done
    ensures StagedRows(Config, db, cases).Ok?
    ensures ReadCases(db, st, cases).state.rows == st.rows + StagedRows(Config, db, cases).value
    ensures ReadCases(db, st, cases).state.loaded == st.loaded + Elems(Present(Config, db, cases))
    decreases |cases|
  {
    if cases == [] {
      assert st.rows + [] == st.rows;
      assert Elems(Present(Config, db, cases)) == {};
    } else {
      var lc := cases[0];
      var rest := Present(Config, db, cases[1..]);
      if !db.KeyExists(Key, lc) {
        ReadCasesAppends(db, st, cases[1..]);
        assert Present(Config, db, cases) == [] + rest;
        assert [] + rest == rest;
      } else {
        var rows := Collect(Project, lc, db.Stream(Key, lc)).value;
        var next := Merge(st, lc, rows);
        ReadCasesAppends(db, next, cases[1..]);
        assert next.rows == st.rows + rows;
        assert Present(Config, db, cases) == [lc] + rest;
        assert Elems([lc] + rest) == {lc} + Elems(rest);
        assert st.rows + rows + StagedRows(Config, db, cases[1..]).value
            == st.rows + (rows + StagedRows(Config, db, cases[1..]).value);
      }
    }
  }

  /** Every row's load case stays recorded as loaded. */
  lemma {:induction false} ReadCasesConsistent(db: Cdb<Record>, st: State, cases: seq<int>)
    requires forall x :: x in st.rows ==> x.loadCase in st.loaded
    ensures var s := ReadCases(db, st, cases).state;
            forall x :: x in s.rows ==> x.loadCase in s.loaded
    decreases |cases|
  {
    if cases != [] {
      var lc := cases[0];
      if !db.KeyExists(Key, lc) {
        ReadCasesConsistent(db, st, cases[1..]);
      } else if lc !in st.loaded {
        match Collect(Project, lc, db.Stream(Key, lc)) {
          case Err(_) =>
          case Ok(rows) =>
            ProjectSound();
            CollectTagged(Project, lc, db.Stream(Key, lc));
            ReadCasesConsistent(db, Merge(st, lc, rows), cases[1..]);
        }
      }
    }
  }

  /** Reloading a case already loaded raises `KeyError` before anything
      is read, whatever the database holds. */
  lemma ReloadRaises(db: Cdb<Record>, st: State, lc: int, ranges: seq<GroupRange>)
    requires db.KeyExists(Key, lc) && lc in st.loaded
    ensures LegacyLoad(db, st, [lc], ranges) == Run(Raised(KeyError), st)
  {
  }

  /** So the second of two identical loads fails, although the first
      succeeded; the same happens to a case listed twice in one call. */
  lemma SecondLoadRaises(db: Cdb<Record>, st: State, lc: int, ranges: seq<GroupRange>)
    requires db.KeyExists(Key, lc)
    requires LegacyLoad(db, st, [lc], ranges).outcome == Done
    ensures var once := LegacyLoad(db, st, [lc], ranges).state;
            LegacyLoad(db, once, [lc], ranges) == Run(Raised(KeyError), once)
    ensures LegacyLoad(db, st, [lc, lc], ranges).outcome == Raised(KeyError)
  {
    ReadCasesAppends(db, st, [lc]);
    assert Present(Config, db, [lc]) == [lc];
    var rows := Collect(Project, lc, db.Stream(Key, lc)).value;
    assert lc !in st.loaded;
    assert [lc, lc][1..] == [lc];
    assert ReadCases(db, st, [lc, lc]) == ReadCases(db, Merge(st, lc, rows), [lc]);
  }

  /** A first read that finds no records leaves a table without columns, and
      the range loop then fails on the missing ELEM_ID column. */
  lemma EmptyFirstReadLosesColumns(db: Cdb<Record>, lc: int, ranges: seq<GroupRange>)
    requires db.KeyExists(Key, lc)
    requires Collect(Project, lc, db.Stream(Key, lc)) == Ok([])
    requires ranges != []
    ensures LegacyLoad(db, State([], {}, true), [lc], ranges).outcome == Raised(AttributeError)
  {
    assert [lc][1..] == [];
    assert ReadCases(db, State([], {}, true), [lc]) == Run(Done, State([], {lc}, false));
  }
}
