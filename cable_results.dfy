/** The cable results table (`_CableResults`): key 162/LC, one row per cable
    element and load case.  Unlike the other result tables it does not
    deduplicate a list of load cases. */
module CableResults {
  import opened Failures
  import opened CdbRows
  import opened CdbGroups
  import opened CdbSource
  import opened CdbTable
  import opened CdbLaws

  /** The fields of a `CCABL_RES` record the table reads. */
  datatype Record = Record(nr: int, n: real, nm: real, v: real, l0: real, eps0: real, effs: real)

  const Columns: set<string> :=
    {"LOAD_CASE", "GROUP", "ELEM_ID", "AXIAL_FORCE", "AVG_AXIAL_FORCE", "AXIAL_DISPLACEMENT",
     "RELAXED_LENGTH", "TOTAL_STRAIN", "EFFECTIVE_STIFFNESS"}

  function RowOf(lc: int, rec: Record): Row
  {
    Row(lc, 0, rec.nr, "",
        map["AXIAL_FORCE" := Real(rec.n), "AVG_AXIAL_FORCE" := Real(rec.nm),
            "AXIAL_DISPLACEMENT" := Real(rec.v), "RELAXED_LENGTH" := Real(rec.l0),
            "TOTAL_STRAIN" := Real(rec.eps0), "EFFECTIVE_STIFFNESS" := Real(rec.effs)])
  }

  function RowFor(lc: int): Record -> Row
  {
    rec => RowOf(lc, rec)
  }

  /** Only cables with a positive number are reported. */
  function Kept(rec: Record): bool
  {
    rec.nr > 0
  }

  function Project(lc: int, rec: Record): (r: Result<Option<Row>>)
    ensures r.Ok?
    ensures r.value.Some? <==> rec.nr > 0
    ensures r.value.Some? ==> r.value.value.elemId == rec.nr && r.value.value.loadCase == lc
                              && r.value.value.group == 0
  {
    if Kept(rec) then Ok(Some(RowOf(lc, rec))) else Ok(None)
  }

  const Config: CdbTable.Config<Record> :=
    CdbTable.Config(162, true, false, ByElementCase, Cables, Columns, Project)

  lemma ProjectSound()
    ensures ProjectionSound(Config.project)
  {
  }

  /** A read never fails; it yields, in order, one row per record with a
      positive number before the end of the data, and nothing else. */
  lemma ReadResults(lc: int, replies: seq<Reply<Record>>)
    ensures Collect(Project, lc, replies) == Ok(KeepMap(Live(replies), Kept, RowFor(lc)))
    ensures forall x :: x in Collect(Project, lc, replies).value <==>
              exists i :: 0 <= i < |Live(replies)| && Live(replies)[i].rec.nr > 0
                          && x == RowOf(lc, Live(replies)[i].rec)
  {
    CollectKeepMap(Project, lc, replies, Kept, RowFor(lc));
    forall x ensures x in KeepMap(Live(replies), Kept, RowFor(lc)) <==>
                     exists i :: 0 <= i < |Live(replies)| && Live(replies)[i].rec.nr > 0
                                 && x == RowOf(lc, Live(replies)[i].rec) {
      InKeepMap(Live(replies), Kept, RowFor(lc), x);
    }
  }

  /** A load case listed twice is read twice: the staged rows hold its
      records twice over. */
  lemma ListedTwiceStagedTwice(db: Cdb<Record>, lc: int)
    requires db.KeyExists(Config.key, lc)
    requires Collect(Project, lc, db.Stream(Config.key, lc)).Ok?
    ensures var read := Collect(Project, lc, db.Stream(Config.key, lc)).value;
            StagedRows(Config, db, [lc, lc]) == Ok(read + read)
  {
    var read := Collect(Project, lc, db.Stream(Config.key, lc)).value;
    assert [lc, lc][1..] == [lc];
    assert [lc][1..] == [];
    assert read + [] == read;
    assert StagedRows(Config, db, [lc]) == Prepend(read, StagedRows(Config, db, [])) == Ok(read);
  }
}
