/** Group assignment.  The element groups of the database come as ranges of
    element numbers per group and element family (the iterators of the group
    table); loading stamps each staged row's GROUP column from them. */
module CdbGroups {
  import opened CdbRows
  import opened Sorting

  /** Group `grp` holds the element numbers of `range(start, stop)`. */
  datatype GroupRange = GroupRange(grp: int, start: int, stop: int)

  datatype Family = Cables | Trusses | Springs

  /** What `iterator_cable`, `iterator_truss` and `iterator_spring` yield. */
  datatype GroupData = GroupData(cable: seq<GroupRange>, truss: seq<GroupRange>,
                                 spring: seq<GroupRange>)

  function Ranges(groups: GroupData, family: Family): seq<GroupRange>
  {
    match family
    case Cables => groups.cable
    case Trusses => groups.truss
    case Springs => groups.spring
  }

  /** The sorted-slice loop: a range with `stop == 0` is skipped, any other
      covers the ids `start <= id <= stop - 1`. */
  predicate Covers(r: GroupRange, id: int)
  {
    r.stop != 0 && r.start <= id <= r.stop - 1
  }

  /** The group a row with element `id` and group `g` ends with after the
      ranges are applied in order: the last covering range wins. */
  function CoveringGroup(ranges: seq<GroupRange>, id: int, g: int): int
    decreases |ranges|
  {
    if ranges == [] then g
    else
      var last := ranges[|ranges| - 1];
      if Covers(last, id) then last.grp else CoveringGroup(ranges[..|ranges| - 1], id, g)
  }

  /** A row that no range covers keeps its group. */
  lemma {:induction false} UncoveredKeepsGroup(ranges: seq<GroupRange>, id: int, g: int)
    requires forall k :: 0 <= k < |ranges| ==> !Covers(ranges[k], id)
    ensures CoveringGroup(ranges, id, g) == g
    decreases |ranges|
  {
    if ranges != [] {
      var init := ranges[..|ranges| - 1];
      assert forall k :: 0 <= k < |init| ==> init[k] == ranges[k];
      UncoveredKeepsGroup(init, id, g);
    }
  }

  /** A covered row takes the group of the last range that covers it. */
  lemma {:induction false} LastCoverWins(ranges: seq<GroupRange>, id: int, g: int, k: int)
    requires 0 <= k < |ranges| && Covers(ranges[k], id)
    requires forall m :: k < m < |ranges| ==> !Covers(ranges[m], id)
    ensures CoveringGroup(ranges, id, g) == ranges[k].grp
    decreases |ranges|
  {
    if k < |ranges| - 1 {
      var init := ranges[..|ranges| - 1];
      assert forall m :: 0 <= m < |init| ==> init[m] == ranges[m];
      LastCoverWins(init, id, g, k);
    }
  }

  /** The group table's ranges do not overlap, so a covered row takes the
      group of the range that covers it. */
  lemma CoveredRowGetsItsGroup(ranges: seq<GroupRange>, id: int, g: int, k: int)
    requires 0 <= k < |ranges| && Covers(ranges[k], id)
    requires forall a, b :: 0 <= a < b < |ranges| ==> ranges[a].stop <= ranges[b].start
    ensures CoveringGroup(ranges, id, g) == ranges[k].grp
  {
    LastCoverWins(ranges, id, g, k);
  }

  /** The staged rows after the group loop. */
  function Stamp(rows: seq<Row>, ranges: seq<GroupRange>): (r: seq<Row>)
  {
    seq(|rows|, i requires 0 <= i < |rows| =>
      rows[i].(group := CoveringGroup(ranges, rows[i].elemId, rows[i].group)))
  }

  function ElemIdOf(row: Row): int { row.elemId }

  function ElemIds(rows: seq<Row>): (ids: seq<int>)
    ensures |ids| == |rows|
    ensures forall i :: 0 <= i < |rows| ==> ids[i] == rows[i].elemId
  {
    seq(|rows|, i requires 0 <= i < |rows| => rows[i].elemId)
  }

  predicate Ascending(ids: seq<int>)
  {
    forall i, j :: 0 <= i < j < |ids| ==> ids[i] <= ids[j]
  }

  /** `Series.searchsorted(x, side="left")`: the first position whose id is
      not below `x`. */
  method SearchLeft(ids: seq<int>, x: int) returns (p: nat)
    requires Ascending(ids)
    ensures p <= |ids|
    ensures forall i :: 0 <= i < p ==> ids[i] < x
    ensures forall i :: p <= i < |ids| ==> x <= ids[i]
  {
    var lo, hi := 0, |ids|;
    while lo < hi
      invariant 0 <= lo <= hi <= |ids|
      invariant forall i :: 0 <= i < lo ==> ids[i] < x
      invariant forall i :: hi <= i < |ids| ==> x <= ids[i]
      decreases hi - lo
    {
      var mid := (lo + hi) / 2;
      if ids[mid] < x {
        lo := mid + 1;
      } else {
        hi := mid;
      }
    }
    p := lo;
  }

  /** `Series.searchsorted(x, side="right")`: the first position whose id is
      above `x`. */
  method SearchRight(ids: seq<int>, x: int) returns (p: nat)
    requires Ascending(ids)
    ensures p <= |ids|
    ensures forall i :: 0 <= i < p ==> ids[i] <= x
    ensures forall i :: p <= i < |ids| ==> x < ids[i]
  {
    var lo, hi := 0, |ids|;
    while lo < hi
      invariant 0 <= lo <= hi <= |ids|
      invariant forall i :: 0 <= i < lo ==> ids[i] <= x
      invariant forall i :: hi <= i < |ids| ==> x < ids[i]
      decreases hi - lo
    {
      var mid := (lo + hi) / 2;
      if ids[mid] <= x {
        lo := mid + 1;
      } else {
        hi := mid;
      }
    }
    p := lo;
  }

  /** Sorts the staged rows stably by ELEM_ID and runs the group loop: for
      every range with `stop != 0`, the positions between the two binary
      searches get the range's group.  The result is the stable sort with
      every row's group replaced by its covering group. */
  method AssignGroups(staged: seq<Row>, ranges: seq<GroupRange>) returns (out: seq<Row>)
    ensures out == Stamp(SortBy(staged, ElemIdOf), ranges)
  {
    var sorted := SortBy(staged, ElemIdOf);
    SortBySorted(staged, ElemIdOf);
    var ids := ElemIds(sorted);
    out := sorted;
    var k := 0;
    while k < |ranges|
      invariant 0 <= k <= |ranges|
      invariant out == Stamp(sorted, ranges[..k])
    {
      var r := ranges[k];
      assert ranges[..k + 1][..k] == ranges[..k];
      if r.stop != 0 {
        var left := SearchLeft(ids, r.start);
        var right := SearchRight(ids, r.stop - 1);
        out := seq(|out|, i requires 0 <= i < |out| =>
                 if left <= i < right then out[i].(group := r.grp) else out[i]);
      }
      k := k + 1;
    }
    assert ranges[..|ranges|] == ranges;
  }

  /** The older truss-load loop: `ELEM_ID.isin(range(start, stop))`, with no
      special case for `stop == 0`. */
  predicate Member(r: GroupRange, id: int)
  {
    r.start <= id < r.stop
  }

  function MemberGroup(ranges: seq<GroupRange>, id: int, g: int): int
    decreases |ranges|
  {
    if ranges == [] then g
    else
      var last := ranges[|ranges| - 1];
      if Member(last, id) then last.grp else MemberGroup(ranges[..|ranges| - 1], id, g)
  }

  function StampMembers(rows: seq<Row>, ranges: seq<GroupRange>): (r: seq<Row>)
  {
    seq(|rows|, i requires 0 <= i < |rows| =>
      rows[i].(group := MemberGroup(ranges, rows[i].elemId, rows[i].group)))
  }

  /** The membership loop over the whole table.  Each range in order
      overwrites GROUP on every row whose id it holds. */
  method AssignMemberGroups(rows: seq<Row>, ranges: seq<GroupRange>) returns (out: seq<Row>)
    ensures out == StampMembers(rows, ranges)
  {
    out := rows;
    var k := 0;
    while k < |ranges|
      invariant 0 <= k <= |ranges|
      invariant out == StampMembers(rows, ranges[..k])
    {
      var r := ranges[k];
      assert ranges[..k + 1][..k] == ranges[..k];
      out := seq(|out|, i requires 0 <= i < |out| =>
               if Member(r, out[i].elemId) then out[i].(group := r.grp) else out[i]);
      k := k + 1;
    }
    assert ranges[..|ranges|] == ranges;
  }

  /** The two loops agree except on a range with `stop == 0` and a negative
      start, which the membership loop applies to the negative ids and the
      sorted-slice loop skips. */
  lemma {:induction false} MemberGroupAgrees(ranges: seq<GroupRange>, id: int, g: int)
    requires forall k :: 0 <= k < |ranges| ==> ranges[k].stop != 0 || ranges[k].start >= 0
    ensures MemberGroup(ranges, id, g) == CoveringGroup(ranges, id, g)
    decreases |ranges|
  {
    if ranges != [] {
      var init := ranges[..|ranges| - 1];
      assert forall k :: 0 <= k < |init| ==> init[k] == ranges[k];
      MemberGroupAgrees(init, id, g);
    }
  }

  lemma SkippedRangeDiffers()
    ensures MemberGroup([GroupRange(7, -5, 0)], -1, 0) == 7
    ensures CoveringGroup([GroupRange(7, -5, 0)], -1, 0) == 0
  {
  }
}
