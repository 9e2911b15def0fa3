/** The cable loads table (`_CableLoad`): key 161/LC, one row per element,
    load case and load type, with the load at the start (PA) and at the
    end (PE) of the cable. */
module CableLoad {
  import opened Failures
  import opened CdbRows
  import opened CdbGroups
  import opened CdbSource
  import opened CdbTable

  /** The fields of a `CCABL_LOA` record the table reads. */
  datatype Record = Record(nr: int, typ: int, pa: real, pe: real)

  /** `_LOAD_TYPE_MAP`: the load type codes the table understands.  Wind
      and snow loads have none. */
  const LoadTypes: map<int, string> :=
    map[10 := "PG", 11 := "PXX", 12 := "PYY", 13 := "PZZ", 30 := "EX", 31 := "WX",
        61 := "DT", 70 := "VX", 80 := "VX", 111 := "PXP", 212 := "PYP", 313 := "PZP"]

  const Columns: set<string> := {"LOAD_CASE", "GROUP", "ELEM_ID", "TYPE", "PA", "PE"}

  /** The row of a record of load case `lc` whose code is decoded. */
  function RowOf(lc: int, rec: Record): Row
  {
    Row(lc, 0, rec.nr, if rec.typ in LoadTypes then LoadTypes[rec.typ] else "",
        map["PA" := Real(rec.pa), "PE" := Real(rec.pe)])
  }

  function RowFor(lc: int): Record -> Row
  {
    rec => RowOf(lc, rec)
  }

  function Always(rec: Record): bool
  {
    true
  }

  /** The body of the read loop for one record: decode the load type or
      raise `RuntimeError`. */
  function Project(lc: int, rec: Record): (r: Result<Option<Row>>)
    ensures r.Err? <==> rec.typ !in LoadTypes
    ensures r.Err? ==> r.failure == RuntimeError
    ensures r.Ok? ==> r.value.Some? && r.value.value.loadType == LoadTypes[rec.typ]
                      && r.value.value.elemId == rec.nr && r.value.value.loadCase == lc
                      && r.value.value.group == 0
  {
    if rec.typ !in LoadTypes then Err(RuntimeError) else Ok(Some(RowOf(lc, rec)))
  }

  const Config: CdbTable.Config<Record> :=
    CdbTable.Config(161, true, true, ByElementCaseType, Cables, Columns, Project)

  lemma ProjectSound()
    ensures ProjectionSound(Config.project)
  {
  }

  /** A read of load case `lc` raises `RuntimeError` exactly when a record
      before the end of the data has an unknown code; otherwise it yields one
      row per record, in order, tagged with `lc` and group 0. */
  lemma ReadLoads(lc: int, replies: seq<Reply<Record>>)
    ensures var r := Collect(Project, lc, replies);
            var live := Live(replies);
            (r.Err? <==> exists i :: 0 <= i < |live| && live[i].rec.typ !in LoadTypes)
            && (r.Err? ==> r.failure == RuntimeError)
            && (r.Ok? ==> |r.value| == |live|
                          && forall i :: 0 <= i < |live| ==> r.value[i] == RowOf(lc, live[i].rec))
  {
    var live := Live(replies);
    CollectFails(Project, lc, replies);
    if Collect(Project, lc, replies).Ok? {
      CollectKeepMap(Project, lc, replies, Always, RowFor(lc));
    }
  }
}
