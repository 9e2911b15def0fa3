/** The truss element table (`_TrussData`): key 150/0, one row per truss
    element, with the gap of the element besides the cable columns. */
module TrussData {
  import opened Failures
  import opened CdbRows
  import opened CdbGroups
  import opened CdbSource
  import opened CdbTable

  /** The fields of a `CTRUS` record the table reads. */
  datatype Record = Record(nr: int, node1: int, node2: int, dl: real, nrq: int, gap: real)

  const Columns: set<string> := {"GROUP", "ELEM_ID", "N1", "N2", "L0", "PROPERTY", "GAP"}

  function RowOf(lc: int, rec: Record): Row
  {
    Row(lc, 0, rec.nr, "",
        map["N1" := Int(rec.node1), "N2" := Int(rec.node2), "L0" := Real(rec.dl),
            "PROPERTY" := Int(rec.nrq), "GAP" := Real(rec.gap)])
  }

  function RowFor(lc: int): Record -> Row
  {
    rec => RowOf(lc, rec)
  }

  function Always(rec: Record): bool
  {
    true
  }

  function Project(lc: int, rec: Record): (r: Result<Option<Row>>)
    ensures r.Ok? && r.value.Some?
    ensures r.value.value.elemId == rec.nr && r.value.value.group == 0
    ensures Cell(Columns, r.value.value, "GAP") == Some(Real(rec.gap))
  {
    Ok(Some(RowOf(lc, rec)))
  }

  const Config: CdbTable.Config<Record> :=
    CdbTable.Config(150, false, false, ByElement, Trusses, Columns, Project)

  lemma ProjectSound()
    ensures ProjectionSound(Config.project)
  {
  }

  /** A read never fails and yields one row per record before the end of
      the data, in order. */
  lemma ReadElements(replies: seq<Reply<Record>>)
    ensures var r := Collect(Project, 0, replies);
            r.Ok? && |r.value| == |Live(replies)|
            && forall i :: 0 <= i < |Live(replies)| ==> r.value[i] == RowOf(0, Live(replies)[i].rec)
  {
    CollectKeepMap(Project, 0, replies, Always, RowFor(0));
  }
}
