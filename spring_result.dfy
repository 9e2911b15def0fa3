/** The spring results table (`_SpringResult`): key 170/LC, one row per
    spring element and load case. */
module SpringResult {
  import opened Failures
  import opened CdbRows
  import opened CdbGroups
  import opened CdbSource
  import opened CdbTable

  /** The fields of a `CSPRI_RES` record the table reads. */
  datatype Record = Record(nr: int, p: real, pt: real, m: real, v: real, vt: real, phi: real)

  const Columns: set<string> :=
    {"LOAD_CASE", "GROUP", "ELEM_ID", "FORCE", "TRANSVERSAL_FORCE", "MOMENT",
     "DISPLACEMENT", "TRANSVERSAL_DISPLACEMENT", "ROTATION"}

  function RowOf(lc: int, rec: Record): Row
  {
    Row(lc, 0, rec.nr, "",
        map["FORCE" := Real(rec.p), "TRANSVERSAL_FORCE" := Real(rec.pt), "MOMENT" := Real(rec.m),
            "DISPLACEMENT" := Real(rec.v), "TRANSVERSAL_DISPLACEMENT" := Real(rec.vt),
            "ROTATION" := Real(rec.phi)])
  }

  function RowFor(lc: int): Record -> Row
  {
    rec => RowOf(lc, rec)
  }

  /** Only springs with a positive number are reported. */
  function Kept(rec: Record): bool
  {
    rec.nr > 0
  }

  function Project(lc: int, rec: Record): (r: Result<Option<Row>>)
    ensures r.Ok?
    ensures r.value.Some? <==> rec.nr > 0
    ensures r.value.Some? ==> r.value.value.elemId == rec.nr && r.value.value.loadCase == lc
                              && r.value.value.group == 0
  {
    if Kept(rec) then Ok(Some(RowOf(lc, rec))) else Ok(None)
  }

  const Config: CdbTable.Config<Record> :=
    CdbTable.Config(170, true, true, ByElementCase, Springs, Columns, Project)

  lemma ProjectSound()
    ensures ProjectionSound(Config.project)
  {
  }

  /** A read never fails; it yields, in order, one row per record with a
      positive number before the end of the data, and nothing else. */
  lemma ReadResults(lc: int, replies: seq<Reply<Record>>)
    ensures Collect(Project, lc, replies) == Ok(KeepMap(Live(replies), Kept, RowFor(lc)))
    ensures forall x :: x in Collect(Project, lc, replies).value <==>
              exists i :: 0 <= i < |Live(replies)| && Live(replies)[i].rec.nr > 0
                          && x == RowOf(lc, Live(replies)[i].rec)
  {
    CollectKeepMap(Project, lc, replies, Kept, RowFor(lc));
    forall x ensures x in KeepMap(Live(replies), Kept, RowFor(lc)) <==>
                     exists i :: 0 <= i < |Live(replies)| && Live(replies)[i].rec.nr > 0
                                 && x == RowOf(lc, Live(replies)[i].rec) {
      InKeepMap(Live(replies), Kept, RowFor(lc), x);
    }
  }
}
