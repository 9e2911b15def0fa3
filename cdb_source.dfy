/** The CDB database as the element tables see it through the SOFiSTiK
    library: `key_exist(key, sub)` and the record-by-record `get` whose last
    argument is 0 on the first call of a read and 1 on each continuation. */
module CdbSource {
  import opened Failures
  import opened CdbRows

  /** What one `get` call yields: the status it returns and the record it
      leaves in the caller's buffer.  A status of 2 or more ends a read. */
  datatype Reply<R> = Reply(status: int, rec: R)

  /** The database content: the existing keys, the replies stored under
      each (key, subkey), and the buffer content reported once a stream is
      exhausted. */
  datatype Cdb<R> = Cdb(keys: set<(int, int)>, streams: map<(int, int), seq<Reply<R>>>, blank: R)
  {
    predicate KeyExists(key: int, sub: int)
    {
      (key, sub) in keys
    }

    function Stream(key: int, sub: int): seq<Reply<R>>
    {
      if (key, sub) in streams then streams[(key, sub)] else []
    }

    /** The reply at position `pos` of a stream; past its end the library
        reports the end of the data. */
    function ReplyAt(key: int, sub: int, pos: nat): Reply<R>
    {
      var s := Stream(key, sub);
      if pos < |s| then s[pos] else Reply(2, blank)
    }
  }

  /** One `get(1, key, sub, buffer, length, flag)` call as it is observed. */
  datatype Call = Call(key: int, sub: int, flag: int)

  /** The library handle: a read position and the calls made so far. */
  class RecordSource<R> {
    const db: Cdb<R>
    var cursor: nat
    var calls: seq<Call>

    constructor(db: Cdb<R>)
      ensures this.db == db && cursor == 0 && calls == []
    {
      this.db := db;
      cursor := 0;
      calls := [];
    }

    /** Flag 0 starts reading (key, sub) from its first record, flag 1
        continues after the previous one. */
    method Get(key: int, sub: int, flag: int) returns (reply: Reply<R>)
      modifies this
      ensures var pos := if flag == 0 then 0 else old(cursor);
              reply == db.ReplyAt(key, sub, pos) && cursor == pos + 1
      ensures calls == old(calls) + [Call(key, sub, flag)]
    {
      var pos := if flag == 0 then 0 else cursor;
      reply := db.ReplyAt(key, sub, pos);
      cursor := pos + 1;
      calls := calls + [Call(key, sub, flag)];
    }
  }

  /** A record's row: `Ok(None)` when the table's filter drops the record,
      `Err` when it cannot be decoded. */
  type Projection<!R> = (int, R) -> Result<Option<Row>>

  /** The rows one read of load case `lc` yields from `replies`: the records
      before the first status of 2 or more, projected in order; the first
      projection that fails ends the read with its failure. */
  function Collect<R>(project: Projection<R>, lc: int, replies: seq<Reply<R>>): Result<seq<Row>>
    decreases |replies|
  {
    if replies == [] || replies[0].status >= 2 then Ok([])
    else
      match project(lc, replies[0].rec)
      case Err(f) => Err(f)
      case Ok(None) => Collect(project, lc, replies[1..])
      case Ok(Some(row)) => Prepend([row], Collect(project, lc, replies[1..]))
  }

  /** The replies a read consumes records from: those before the first
      status of 2 or more. */
  function Live<R>(replies: seq<Reply<R>>): (live: seq<Reply<R>>)
    ensures |live| <= |replies| && live == replies[..|live|]
    ensures forall i :: 0 <= i < |live| ==> live[i].status < 2
    ensures |live| < |replies| ==> replies[|live|].status >= 2
    decreases |replies|
  {
    if replies == [] || replies[0].status >= 2 then []
    else [replies[0]] + Live(replies[1..])
  }

  /** The rows of the records `keep` accepts, each built by `row`, in order. */
  function KeepMap<R>(live: seq<Reply<R>>, keep: R -> bool, row: R -> Row): (rows: seq<Row>)
    ensures |rows| <= |live|
    ensures (forall i :: 0 <= i < |live| ==> keep(live[i].rec)) ==>
              |rows| == |live| && forall i :: 0 <= i < |live| ==> rows[i] == row(live[i].rec)
    decreases |live|
  {
    if live == [] then []
    else (if keep(live[0].rec) then [row(live[0].rec)] else []) + KeepMap(live[1..], keep, row)
  }

  /** A row is kept exactly when some accepted record builds it. */
  lemma {:induction false} InKeepMap<R>(live: seq<Reply<R>>, keep: R -> bool, row: R -> Row, x: Row)
    ensures x in KeepMap(live, keep, row) <==>
              exists i :: 0 <= i < |live| && keep(live[i].rec) && row(live[i].rec) == x
    decreases |live|
  {
    if live != [] {
      InKeepMap(live[1..], keep, row, x);
      if x in KeepMap(live[1..], keep, row) {
        var i :| 0 <= i < |live[1..]| && keep(live[1..][i].rec) && row(live[1..][i].rec) == x;
        assert live[i + 1] == live[1..][i];
      }
      if exists i :: 0 <= i < |live| && keep(live[i].rec) && row(live[i].rec) == x {
        var i :| 0 <= i < |live| && keep(live[i].rec) && row(live[i].rec) == x;
        if i > 0 {
          assert live[1..][i - 1] == live[i];
        }
      }
    }
  }

  /** A read whose projection accepts with `keep` and builds with `row`
      every record it consumes, and never fails, yields exactly those rows. */
  lemma {:induction false} CollectKeepMap<R>(project: Projection<R>, lc: int, replies: seq<Reply<R>>,
                                             keep: R -> bool, row: R -> Row)
    requires forall i :: 0 <= i < |Live(replies)| ==>
               project(lc, Live(replies)[i].rec)
               == if keep(Live(replies)[i].rec) then Ok(Some(row(Live(replies)[i].rec))) else Ok(None)
    ensures Collect(project, lc, replies) == Ok(KeepMap(Live(replies), keep, row))
    decreases |replies|
  {
    if replies != [] && replies[0].status < 2 {
      var live := Live(replies);
      assert live[0] == replies[0];
      assert live[1..] == Live(replies[1..]);
      forall i | 0 <= i < |Live(replies[1..])|
        ensures project(lc, Live(replies[1..])[i].rec)
                == if keep(Live(replies[1..])[i].rec) then Ok(Some(row(Live(replies[1..])[i].rec))) else Ok(None)
      {
        assert Live(replies[1..])[i] == live[i + 1];
      }
      CollectKeepMap(project, lc, replies[1..], keep, row);
      var head := if keep(replies[0].rec) then [row(replies[0].rec)] else [];
      assert project(lc, live[0].rec) == if keep(live[0].rec) then Ok(Some(row(live[0].rec))) else Ok(None);
      assert KeepMap(live, keep, row) == head + KeepMap(Live(replies[1..]), keep, row);
      if !keep(replies[0].rec) {
        assert head + KeepMap(Live(replies[1..]), keep, row) == KeepMap(Live(replies[1..]), keep, row);
      }
    }
  }

  /** A read fails exactly when one of the records it consumes cannot be
      projected, and then with the first such record's failure. */
  lemma CollectFails<R>(project: Projection<R>, lc: int, replies: seq<Reply<R>>)
    ensures Collect(project, lc, replies).Err? <==>
              exists i :: 0 <= i < |Live(replies)| && project(lc, Live(replies)[i].rec).Err?
    ensures Collect(project, lc, replies).Err? ==>
              exists i :: 0 <= i < |Live(replies)|
                && project(lc, Live(replies)[i].rec) == Err(Collect(project, lc, replies).failure)
  {
    CollectFailsIff(project, lc, replies);
    CollectFailsAt(project, lc, replies);
  }

  lemma CollectFailsIff<R>(project: Projection<R>, lc: int, replies: seq<Reply<R>>)
    ensures Collect(project, lc, replies).Err? <==>
              exists i :: 0 <= i < |Live(replies)| && project(lc, Live(replies)[i].rec).Err?
  {
    CollectFailsAt(project, lc, replies);
    if exists i :: 0 <= i < |Live(replies)| && project(lc, Live(replies)[i].rec).Err? {
      var i :| 0 <= i < |Live(replies)| && project(lc, Live(replies)[i].rec).Err?;
      FailInLiveFails(project, lc, replies, i);
    }
  }

  /** A failing live record makes the whole read fail. */
  lemma {:induction false} FailInLiveFails<R>(project: Projection<R>, lc: int, replies: seq<Reply<R>>, i: nat)
    requires i < |Live(replies)| && project(lc, Live(replies)[i].rec).Err?
    ensures Collect(project, lc, replies).Err?
    decreases i
  {
    var live := Live(replies);
    assert live[0] == replies[0];
    if i > 0 {
      assert live[1..] == Live(replies[1..]);
      assert Live(replies[1..])[i - 1] == live[i];
      FailInLiveFails(project, lc, replies[1..], i - 1);
    }
  }

  lemma {:induction false} CollectFailsAt<R>(project: Projection<R>, lc: int, replies: seq<Reply<R>>)
    ensures Collect(project, lc, replies).Err? ==>
              exists i :: 0 <= i < |Live(replies)|
                && project(lc, Live(replies)[i].rec) == Err(Collect(project, lc, replies).failure)
    decreases |replies|
  {
    if replies != [] && replies[0].status < 2 {
      var live := Live(replies);
      assert live[0] == replies[0];
      assert live[1..] == Live(replies[1..]);
      CollectFailsAt(project, lc, replies[1..]);
      if Collect(project, lc, replies[1..]).Err? && project(lc, replies[0].rec).Ok? {
        var i :| 0 <= i < |Live(replies[1..])|
                 && project(lc, Live(replies[1..])[i].rec) == Err(Collect(project, lc, replies[1..]).failure);
        assert live[i + 1] == Live(replies[1..])[i];
      }
    }
  }

  /** `rows` in front of a successful read; a failure is passed on. */
  function Prepend(rows: seq<Row>, r: Result<seq<Row>>): Result<seq<Row>>
  {
    match r
    case Ok(more) => Ok(rows + more)
    case Err(f) => Err(f)
  }

  /** The number of `get` calls that read makes. */
  function Reads<R>(project: Projection<R>, lc: int, replies: seq<Reply<R>>): (n: nat)
    ensures 1 <= n <= |replies| + 1
    decreases |replies|
  {
    if replies == [] || replies[0].status >= 2 then 1
    else if project(lc, replies[0].rec).Err? then 1
    else 1 + Reads(project, lc, replies[1..])
  }

  /** The calls of one read: flag 0 once, then flag 1. */
  function ReadCalls(key: int, sub: int, n: nat): (calls: seq<Call>)
    requires n >= 1
    ensures |calls| == n && calls[0] == Call(key, sub, 0)
    ensures forall i :: 1 <= i < n ==> calls[i] == Call(key, sub, 1)
  {
    [Call(key, sub, 0)] + seq(n - 1, _ => Call(key, sub, 1))
  }

  /** Every row a read yields is the projection of a record read before the
      end of the data. */
  lemma {:induction false} CollectFromPrefix<R>(project: Projection<R>, lc: int, replies: seq<Reply<R>>)
    requires Collect(project, lc, replies).Ok?
    ensures forall row :: row in Collect(project, lc, replies).value ==>
              exists i :: 0 <= i < |replies| && replies[i].status < 2
                && project(lc, replies[i].rec) == Ok(Some(row))
    decreases |replies|
  {
    if replies != [] && replies[0].status < 2 {
      CollectFromPrefix(project, lc, replies[1..]);
      forall row | row in Collect(project, lc, replies).value
        ensures exists i :: 0 <= i < |replies| && replies[i].status < 2
                  && project(lc, replies[i].rec) == Ok(Some(row))
      {
        if project(lc, replies[0].rec) != Ok(Some(row)) {
          assert row in Collect(project, lc, replies[1..]).value;
          var i :| 0 <= i < |replies[1..]| && replies[1..][i].status < 2
                  && project(lc, replies[1..][i].rec) == Ok(Some(row));
          assert replies[i + 1] == replies[1..][i];
        }
      }
    }
  }

  lemma ReadCallsGrow(key: int, sub: int, n: nat)
    requires n >= 1
    ensures ReadCalls(key, sub, n + 1) == ReadCalls(key, sub, n) + [Call(key, sub, 1)]
  {
  }

  /** One record of a read, seen from the position reached so far. */
  lemma CollectStep<R>(project: Projection<R>, lc: int, s: seq<Reply<R>>, i: nat, data: seq<Row>)
    requires i < |s| && s[i].status < 2
    ensures project(lc, s[i].rec).Err? ==>
              Prepend(data, Collect(project, lc, s[i..])) == Err(project(lc, s[i].rec).failure)
              && Reads(project, lc, s[i..]) == 1
    ensures project(lc, s[i].rec) == Ok(None) ==>
              Prepend(data, Collect(project, lc, s[i..])) == Prepend(data, Collect(project, lc, s[i + 1..]))
              && Reads(project, lc, s[i..]) == 1 + Reads(project, lc, s[i + 1..])
    ensures project(lc, s[i].rec).Ok? && project(lc, s[i].rec).value.Some? ==>
              Prepend(data, Collect(project, lc, s[i..]))
                == Prepend(data + [project(lc, s[i].rec).value.value], Collect(project, lc, s[i + 1..]))
              && Reads(project, lc, s[i..]) == 1 + Reads(project, lc, s[i + 1..])
  {
    assert s[i..][0] == s[i];
    assert s[i..][1..] == s[i + 1..];
    match Collect(project, lc, s[i + 1..]) {
      case Ok(more) =>
        if project(lc, s[i].rec).Ok? && project(lc, s[i].rec).value.Some? {
          assert data + ([project(lc, s[i].rec).value.value] + more)
              == (data + [project(lc, s[i].rec).value.value]) + more;
        }
      case Err(_) =>
    }
  }

  lemma CollectStart<R>(project: Projection<R>, lc: int, s: seq<Reply<R>>)
    ensures Collect(project, lc, s) == Prepend([], Collect(project, lc, s[0..]))
  {
    assert s[0..] == s;
    match Collect(project, lc, s) {
      case Ok(rows) => assert [] + rows == rows;
      case Err(_) =>
    }
  }

  lemma CollectEnd<R>(project: Projection<R>, lc: int, s: seq<Reply<R>>, i: nat, data: seq<Row>)
    requires i <= |s| && (i == |s| || s[i].status >= 2)
    ensures Prepend(data, Collect(project, lc, s[i..])) == Ok(data)
    ensures Reads(project, lc, s[i..]) == 1
  {
    assert data + [] == data;
  }

  /** `_load`: reads (key, lc) record by record, with flag 0 on the first
      call and 1 afterwards, until a status of 2 or more, projecting each
      record; a failing projection ends the read. */
  method Fetch<R>(source: RecordSource<R>, key: int, lc: int, project: Projection<R>)
      returns (result: Result<seq<Row>>)
    modifies source
    ensures result == Collect(project, lc, source.db.Stream(key, lc))
    ensures source.calls == old(source.calls)
              + ReadCalls(key, lc, Reads(project, lc, source.db.Stream(key, lc)))
  {
    ghost var stream := source.db.Stream(key, lc);
    ghost var done: nat := 0;
    ghost var start := source.calls;
    var data: seq<Row> := [];
    var status := 0;
    var first := true;
    CollectStart(project, lc, stream);
    while status < 2
      invariant done <= |stream|
      invariant first <==> done == 0
      invariant !first ==> source.cursor == done
      invariant Collect(project, lc, stream) == Prepend(data, Collect(project, lc, stream[done..]))
      invariant Reads(project, lc, stream) == done + Reads(project, lc, stream[done..])
      invariant first ==> source.calls == start
      invariant !first ==> source.calls == start + ReadCalls(key, lc, done)
      decreases |stream| + 1 - done
    {
      var reply := source.Get(key, lc, if first then 0 else 1);
      if !first {
        ReadCallsGrow(key, lc, done);
      }
      first := false;
      status := reply.status;
      if status >= 2 {
        CollectEnd(project, lc, stream, done, data);
        break;
      }
      CollectStep(project, lc, stream, done, data);
      var projected := project(lc, reply.rec);
      match projected {
        case Err(f) =>
          return Err(f);
        case Ok(None) =>
        case Ok(Some(row)) =>
          data := data + [row];
      }
      done := done + 1;
    }
    result := Ok(data);
  }
}
