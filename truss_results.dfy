/** The truss results table (`_TrussResult`): key 152/LC, one row per truss
    element and load case. */
module TrussResults {
  import opened Failures
  import opened CdbRows
  import opened CdbGroups
  import opened CdbSource
  import opened CdbTable

  /** The fields of a `CTRUS_RES` record the table reads. */
  datatype Record = Record(nr: int, n: real, v: real)

  const Columns: set<string> := {"LOAD_CASE", "GROUP", "ELEM_ID", "AXIAL_FORCE", "AXIAL_DISPLACEMENT"}

  function RowOf(lc: int, rec: Record): Row
  {
    Row(lc, 0, rec.nr, "", map["AXIAL_FORCE" := Real(rec.n), "AXIAL_DISPLACEMENT" := Real(rec.v)])
  }

  function RowFor(lc: int): Record -> Row
  {
    rec => RowOf(lc, rec)
  }

  /** Every truss but number 0 is reported, negative numbers included. */
  function Kept(rec: Record): bool
  {
    rec.nr != 0
  }

  function Project(lc: int, rec: Record): (r: Result<Option<Row>>)
    ensures r.Ok?
    ensures r.value.Some? <==> rec.nr != 0
    ensures r.value.Some? ==> r.value.value.elemId == rec.nr && r.value.value.loadCase == lc
                              && r.value.value.group == 0
  {
    if Kept(rec) then Ok(Some(RowOf(lc, rec))) else Ok(None)
  }

  const Config: CdbTable.Config<Record> :=
    CdbTable.Config(152, true, true, ByElementCase, Trusses, Columns, Project)

  lemma ProjectSound()
    ensures ProjectionSound(Config.project)
  {
  }

  /** A read never fails; it yields, in order, one row per record with a
      non-zero number before the end of the data, and nothing else. */
  lemma ReadResults(lc: int, replies: seq<Reply<Record>>)
    ensures Collect(Project, lc, replies) == Ok(KeepMap(Live(replies), Kept, RowFor(lc)))
    ensures forall x :: x in Collect(Project, lc, replies).value <==>
              exists i :: 0 <= i < |Live(replies)| && Live(replies)[i].rec.nr != 0
                          && x == RowOf(lc, Live(replies)[i].rec)
  {
    CollectKeepMap(Project, lc, replies, Kept, RowFor(lc));
    forall x ensures x in KeepMap(Live(replies), Kept, RowFor(lc)) <==>
                     exists i :: 0 <= i < |Live(replies)| && Live(replies)[i].rec.nr != 0
                                 && x == RowOf(lc, Live(replies)[i].rec) {
      InKeepMap(Live(replies), Kept, RowFor(lc), x);
    }
  }
}
