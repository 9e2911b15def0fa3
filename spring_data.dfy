/** The spring element table (`_SpringData`): key 170/0, one row per spring
    element with its nodes and its axial, transversal and rotational
    stiffness. */
module SpringData {
  import opened Failures
  import opened CdbRows
  import opened CdbGroups
  import opened CdbSource
  import opened CdbTable

  /** The fields of a `CSPRI` record the table reads. */
  datatype Record = Record(nr: int, node1: int, node2: int, cp: real, cq: real, cm: real)

  const Columns: set<string> := {"GROUP", "ELEM_ID", "N1", "N2", "CP", "CT", "CM"}

  function RowOf(lc: int, rec: Record): Row
  {
    Row(lc, 0, rec.nr, "",
        map["N1" := Int(rec.node1), "N2" := Int(rec.node2), "CP" := Real(rec.cp),
            "CT" := Real(rec.cq), "CM" := Real(rec.cm)])
  }

  function RowFor(lc: int): Record -> Row
  {
    rec => RowOf(lc, rec)
  }

  function Always(rec: Record): bool
  {
    true
  }

  /** The transversal stiffness CT is the record's `m_cq`. */
  function Project(lc: int, rec: Record): (r: Result<Option<Row>>)
    ensures r.Ok? && r.value.Some?
    ensures r.value.value.elemId == rec.nr && r.value.value.group == 0
    ensures Cell(Columns, r.value.value, "CP") == Some(Real(rec.cp))
    ensures Cell(Columns, r.value.value, "CT") == Some(Real(rec.cq))
    ensures Cell(Columns, r.value.value, "CM") == Some(Real(rec.cm))
  {
    Ok(Some(RowOf(lc, rec)))
  }

  const Config: CdbTable.Config<Record> :=
    CdbTable.Config(170, false, false, ByElement, Springs, Columns, Project)

  lemma ProjectSound()
    ensures ProjectionSound(Config.project)
  {
  }

  /** A read never fails and yields one row per record before the end of
      the data, in order. */
  lemma ReadElements(replies: seq<Reply<Record>>)
    ensures var r := Collect(Project, 0, replies);
            r.Ok? && |r.value| == |Live(replies)|
            && forall i :: 0 <= i < |Live(replies)| ==> r.value[i] == RowOf(0, Live(replies)[i].rec)
  {
    CollectKeepMap(Project, 0, replies, Always, RowFor(0));
  }
}
