/** The C# client: stateless calls that take and return items. */
module CSharpChain {
  import opened AppendLog
  import opened EtcdStore
  import opened EtcdChain
  import opened EtcdRuns
  import opened EtcdCluster
  import opened Wrappers

  datatype Error =
    | NeedsDefault
    | NoRecord(key: Key)
    | BadRecord(key: Key)
    | NextAlreadySet

  class SharedChain {
    const cluster: Cluster
    const duplicateFromRedis: bool
    const automaticallyDuplicateToRedis: bool

    constructor (cluster: Cluster, duplicateFromRedis: bool, automaticallyDuplicateToRedis: bool)
      ensures this.cluster == cluster
    {
      this.cluster := cluster;
      this.duplicateFromRedis := duplicateFromRedis;
      this.automaticallyDuplicateToRedis := automaticallyDuplicateToRedis;
    }

    /** The cluster is consistent, and an inline chain was created by C#. */
    ghost predicate Valid()
      reads cluster
    {
      cluster.Valid() && (cluster.cfg.layout.Inline? ==> !cluster.cfg.layout.blankHead)
    }

    /** Nothing is lost while a call runs, and the call itself adds `mine` nodes. */
    twostate predicate Kept(mine: nat)
      reads cluster
    {
      && Valid()
      && Extends(old(cluster.W()), cluster.W())
      && |cluster.log| + cluster.future == old(|cluster.log| + cluster.future) + mine
    }

    method Head(defaultData: Data) returns (r: Result<Cursor, Error>)
      requires Valid()
      modifies cluster
      ensures Valid() && Extends(old(cluster.W()), cluster.W())
      ensures r.Failure? ==> cluster.cfg.layout.Inline? && defaultData.Null?
      ensures r.Success? ==>
                r.value in cluster.issued && Placed(cluster.log, cluster.births, r.value, 0)
                && r.value.data == defaultData
    {
      if duplicateFromRedis {
        var c := CachedHead(defaultData);
        if c.Some? {
          return Success(c.value);
        }
      }
      if cluster.cfg.layout.Inline? && defaultData.Null? {
        return Failure(NeedsDefault);
      }
      var c := StoredHead(defaultData);
      r := Success(c);
    }

    method CachedHead(defaultData: Data) returns (c: Option<Cursor>)
      requires Valid()
      modifies cluster
      ensures Kept(0)
      ensures c.Some? ==>
                c.value in cluster.issued && Placed(cluster.log, cluster.births, c.value, 0)
                && c.value.data == defaultData
      ensures var copy := Copied(cluster.cache, cluster.cfg.headKey);
              c == if copy.Some? then Some(copy.value.(data := defaultData)) else None
    {
      var head := cluster.cfg.headKey;
      cluster.Yield();
      var e := cluster.StringGet(head, Some(defaultData));
      if e.None? {
        return None;
      }
      ghost var i :| EntryAt(cluster.log, head, e.value, i);
      CacheReadIsPlaced(cluster.log, cluster.births, head, head, e.value, Some(defaultData), i);
      SamePosition(head, cluster.log, i, 0);
      c := Some(Cursor(e.value.revision, head, defaultData, e.value.next));
    }

    method StoredHead(defaultData: Data) returns (c: Cursor)
      requires Valid()
      modifies cluster
      ensures Valid() && Extends(old(cluster.W()), cluster.W())
      ensures c in cluster.issued && Placed(cluster.log, cluster.births, c, 0) && c.data == defaultData
    {
      var cfg := cluster.cfg;
      cluster.Yield();
      HeadOutcome(cfg, cluster.W(), defaultData);
      hide Represents;
      var reply := cluster.Transaction(HeadTxn(cfg, defaultData), FindHead(defaultData));
      if reply.succeeded {
        var kv := reply.responses[0].kv.value;
        var next := NextOf(cfg.layout, kv.value);
        c := Cursor(kv.mod, cfg.headKey, defaultData, if next.Some? then next.value else "");
      } else {
        c := Cursor(reply.responses[1].kv.value.mod, cfg.headKey, defaultData, "");
      }
    }

    method LoadUntil(id: string, defaultData: Data) returns (r: Result<Cursor, Error>)
      requires Valid()
      modifies cluster
      ensures Valid() && Extends(old(cluster.W()), cluster.W())
      ensures id != "" && OnItems(old(cluster.log), id) ==> r.Success?
      ensures r.Success? ==>
                && r.value in cluster.issued
                && CursorOk(cluster.log, cluster.births, r.value)
                && r.value.id == (if id == "" then cluster.cfg.headKey else id)
                && (id == "" ==> r.value.data == defaultData)
    {
      if id == "" {
        r := Head(defaultData);
        return;
      }
      var cfg := cluster.cfg;
      if duplicateFromRedis {
        cluster.Yield();
        var e := cluster.StringGet(id, None);
        if e.Some? {
          return Success(Cursor(e.value.revision, id, e.value.data, e.value.next));
        }
      }
      r := Load(id);
    }

    /** The etcd read that `LoadUntil` and `FetchNext` share. */
    method Load(id: string) returns (r: Result<Cursor, Error>)
      requires Valid()
      modifies cluster
      ensures Kept(0)
      ensures OnItems(old(cluster.log), id) ==> r.Success?
      ensures r.Success? ==>
                && r.value in cluster.issued && r.value.id == id
                && CursorOk(cluster.log, cluster.births, r.value)
    {
      var cfg := cluster.cfg;
      cluster.Yield();
      LoadReplies(cfg, CSharp, cluster.store, id);
      ghost var s := cluster.store;
      if OnItems(old(cluster.log), id) {
        ghost var i :| 1 <= i < |old(cluster.log)| && old(cluster.log)[i].id == id;
        ReadStep(cfg, CSharp, cluster.store, cluster.log, cluster.births, i);
      }
      var reply := cluster.Transaction(LoadTxn(cfg, CSharp, id), ReadItem(CSharp, id));
      var chain := reply.responses[0].kv;
      if chain.None? {
        return Failure(NoRecord(ChainKey(id)));
      }
      if cfg.layout.Separate? {
        var data := reply.responses[1].kv;
        if data.None? {
          return Failure(NoRecord(DataKey(id)));
        }
        if !data.value.value.Payload? || !chain.value.value.Text? {
          return Failure(BadRecord(DataKey(id)));
        }
        r := Success(Cursor(data.value.mod, id, data.value.value.data, chain.value.value.text));
      } else {
        if !chain.value.value.Cell? {
          return Failure(BadRecord(ChainKey(id)));
        }
        r := Success(Cursor(chain.value.mod, id, chain.value.value.data, chain.value.value.next));
      }
    }

    /** Moves from position `i` to position `i + 1`; None means that position `i` was the tail
        of the log `seen` at some moment of the call. There is never a missing record. */
    method FetchNext(current: Cursor, ghost i: nat)
      returns (r: Result<Option<Cursor>, Error>, ghost seen: seq<Node>)
      requires Valid() && current in cluster.issued
      requires Placed(cluster.log, cluster.births, current, i)
      modifies cluster
      ensures Kept(0)
      ensures r.Success?
      ensures r.value.Some? ==>
                r.value.value in cluster.issued && Placed(cluster.log, cluster.births, r.value.value, i + 1)
      ensures r.value.None? ==> old(cluster.log) <= seen <= cluster.log && |seen| == i + 1
    {
      hide Represents;
      seen := cluster.log;
      if duplicateFromRedis {
        var c, _ := CachedNext(current, i);
        if c.Some? {
          return Success(Some(c.value)), seen;
        }
      }
      r, seen := StoredNext(current, i);
    }

    method StoredNext(current: Cursor, ghost i: nat)
      returns (r: Result<Option<Cursor>, Error>, ghost seen: seq<Node>)
      requires Valid() && Placed(cluster.log, cluster.births, current, i)
      modifies cluster
      ensures Kept(0)
      ensures r.Success?
      ensures r.value.Some? ==>
                r.value.value in cluster.issued && Placed(cluster.log, cluster.births, r.value.value, i + 1)
      ensures r.value.None? ==> old(cluster.log) <= seen <= cluster.log && |seen| == i + 1
    {
      hide Represents;
      seen := cluster.log;
      var nextID := current.nextID;
      if nextID == "" {
        var peeked;
        peeked, seen := Peek(current, i);
        nextID := peeked.value;
      }
      if nextID == "" {
        return Success(None), seen;
      }
      r := LoadAt(nextID, i + 1);
    }

    /** Both ways through the Redis copy: the successor is known, or is itself read from there, at
        the moment `first`. */
    method CachedNext(current: Cursor, ghost i: nat) returns (c: Option<Cursor>, ghost first: World)
      requires Valid() && Placed(cluster.log, cluster.births, current, i)
      modifies cluster
      ensures Kept(0)
      ensures c.Some? ==> c.value in cluster.issued && Placed(cluster.log, cluster.births, c.value, i + 1)
      ensures Placed(cluster.log, cluster.births, current, i)
      ensures Extends(old(cluster.W()), first) && Inv(cluster.cfg, first) && Extends(first, cluster.W())
      ensures var next := if current.nextID != "" then current.nextID else CopiedNext(first.cache, current.id);
              c == if next != "" then Copied(cluster.cache, next) else None
    {
      hide EntryOk, CursorOk;
      first := cluster.W();
      var nextID := current.nextID;
      if nextID == "" {
        nextID := CachedSuccessor(current, i);
        first := cluster.W();
        if nextID == "" {
          return None, first;
        }
      }
      c := CachedAt(nextID, i + 1);
    }

    /** What the Redis copy of `current` names as its successor; empty if there is no copy. */
    method CachedSuccessor(current: Cursor, ghost i: nat) returns (nextID: string)
      requires Valid() && Placed(cluster.log, cluster.births, current, i)
      modifies cluster
      ensures Kept(0) && Placed(cluster.log, cluster.births, current, i)
      ensures nextID != "" ==> i + 1 < |cluster.log| && cluster.log[i + 1].id == nextID
      ensures nextID == CopiedNext(cluster.cache, current.id)
    {
      cluster.Yield();
      var e := cluster.StringGet(current.id, None);
      hide Represents, EntryOk, CursorOk;
      if e.None? {
        return "";
      }
      CachedHere(cluster.cfg, cluster.W(), current.id, i);
      nextID := e.value.next;
    }

    method CachedAt(id: string, ghost i: nat) returns (c: Option<Cursor>)
      requires Valid() && i < |cluster.log| && cluster.log[i].id == id
      modifies cluster
      ensures Kept(0)
      ensures c.Some? ==> c.value in cluster.issued && Placed(cluster.log, cluster.births, c.value, i)
      ensures c == Copied(cluster.cache, id)
    {
      cluster.Yield();
      var e := cluster.StringGet(id, None);
      hide Represents, EntryOk, CursorOk;
      if e.None? {
        return None;
      }
      CachedHere(cluster.cfg, cluster.W(), id, i);
      c := Some(Cursor(e.value.revision, id, e.value.data, e.value.next));
    }

    /** Rereads the chain key of position `i`: its successor, or empty when it is the tail. */
    method Peek(current: Cursor, ghost i: nat)
      returns (next: Result<string, Error>, ghost seen: seq<Node>)
      requires Valid() && Placed(cluster.log, cluster.births, current, i)
      modifies cluster
      ensures Kept(0)
      ensures old(cluster.log) <= seen == cluster.log
      ensures next.Success? && i < |seen|
      ensures if next.value == "" then |seen| == i + 1 else i + 1 < |seen| && seen[i + 1].id == next.value
    {
      cluster.Yield();
      seen := cluster.log;
      assert ChainNodeOk(cluster.cfg.layout, cluster.store, cluster.log, cluster.births, i);
      var kv := cluster.Get(ChainKey(current.id));
      if kv.None? {
        return Failure(NoRecord(ChainKey(current.id))), seen;
      }
      var v := NextOf(cluster.cfg.layout, kv.value.value);
      if v.None? {
        return Failure(BadRecord(ChainKey(current.id))), seen;
      }
      next := Success(v.value);
    }

    method LoadAt(id: string, ghost i: nat) returns (r: Result<Option<Cursor>, Error>)
      requires Valid() && 1 <= i < |cluster.log| && cluster.log[i].id == id
      modifies cluster
      ensures Kept(0)
      ensures r.Success? && r.value.Some?
      ensures r.value.value in cluster.issued && Placed(cluster.log, cluster.births, r.value.value, i)
    {
      assert OnItems(cluster.log, id);
      var c := Load(id);
      ghost var j :| Placed(cluster.log, cluster.births, c.value, j);
      SamePosition(cluster.cfg.headKey, cluster.log, i, j);
      r := Success(Some(c.value));
    }

    method IDIsAlreadyOnChain(id: string) returns (yes: bool, ghost seen: seq<Node>)
      requires Valid()
      modifies cluster
      ensures Kept(0)
      ensures old(cluster.log) <= seen <= cluster.log && yes == OnLog(seen, id)
    {
      cluster.Yield();
      ExistsReplies(cluster.store, id);
      KeyIsFresh(cluster.cfg, cluster.store, cluster.log, cluster.births, id);
      var reply := cluster.Transaction(ExistsTxn(id), ReadItem(CSharp, id));
      seen := cluster.log;
      yes := reply.succeeded;
    }

    /** Succeeds exactly when `current` is the tail of the log and the id is new at the moment of
        the transaction; then that log, `seen`, grew by exactly this item. */
    method AppendAfter(current: Cursor, toBeWritten: Cursor)
      returns (r: Result<bool, Error>, ghost seen: seq<Node>)
      requires Valid() && current in cluster.issued && toBeWritten.id != ""
      modifies cluster
      ensures Kept(if r == Success(true) then 1 else 0)
      ensures r.Failure? <==> current.nextID == "" && toBeWritten.nextID != ""
      ensures old(cluster.log) <= seen <= cluster.log
      ensures r.Success? ==> r.value == CanAppend(seen, current.id, toBeWritten.id)
      ensures r == Success(true) ==> seen + [Item(toBeWritten.id, toBeWritten.data)] <= cluster.log
      ensures r == Success(true) && automaticallyDuplicateToRedis ==>
                && current.id in cluster.cache
                && |seen| < |cluster.births|
                && cluster.cache[current.id] == CacheEntry(cluster.births[|seen|], current.data, toBeWritten.id)
    {
      seen := cluster.log;
      if current.nextID != "" {
        LinkedCannotBeTail(cluster.cfg.headKey, seen, cluster.births, current);
        return Success(false), seen;
      }
      if toBeWritten.nextID != "" {
        return Failure(NextAlreadySet), seen;
      }
      var ok, rev;
      ok, rev, seen := Commit(current, toBeWritten);
      hide Inv;
      if ok && automaticallyDuplicateToRedis {
        DuplicateToRedis(rev, current.id, current.data, toBeWritten.id);
      }
      r := Success(ok);
    }

    method DuplicateToRedis(rev: nat, id: string, data: Data, nextID: string)
      requires Valid() && (id, CacheEntry(rev, data, nextID)) in cluster.committed
      modifies cluster
      ensures Kept(0)
      ensures id in cluster.cache && cluster.cache[id] == CacheEntry(rev, data, nextID)
    {
      cluster.Yield();
      cluster.StringSet(id, CacheEntry(rev, data, nextID));
    }

    method Commit(current: Cursor, toBeWritten: Cursor)
      returns (ok: bool, rev: nat, ghost seen: seq<Node>)
      requires Valid() && current in cluster.issued && current.nextID == "" && toBeWritten.id != ""
      modifies cluster
      ensures Kept(if ok then 1 else 0)
      ensures old(cluster.log) <= seen <= cluster.log
      ensures ok == CanAppend(seen, current.id, toBeWritten.id)
      ensures ok ==> seen + [Item(toBeWritten.id, toBeWritten.data)] == cluster.log
      ensures ok ==> (current.id, CacheEntry(rev, current.data, toBeWritten.id)) in cluster.committed
      ensures ok ==> |seen| < |cluster.births| && rev == cluster.births[|seen|]
    {
      hide Represents, EntryOk, Step, Exec, AppendTxn;
      var cfg := cluster.cfg;
      cluster.Yield();
      seen := cluster.log;
      ghost var i :| Placed(seen, cluster.births, current, i);
      AppendOutcome(cfg, cluster.W(), CSharp, current, i, toBeWritten.id, toBeWritten.data);
      hide Inv, CursorOk;
      var reply := cluster.Transaction(AppendTxn(cfg, CSharp, current, toBeWritten.id, toBeWritten.data),
                                       TryAppend(CSharp, current, toBeWritten.id, toBeWritten.data));
      ok := reply.succeeded;
      rev := if ok then reply.responses[|reply.responses| - 1].rev else 0;
    }
  }

  /** A cursor that names a successor cannot be at the tail, so refusing it without asking etcd
      is what the transaction would have answered. */
  lemma LinkedCannotBeTail(head: string, log: seq<Node>, births: seq<nat>, c: Cursor)
    requires WellFormed(head, log) && CursorOk(log, births, c) && c.nextID != ""
    ensures forall id :: !CanAppend(log, c.id, id)
  {
    var i :| Placed(log, births, c, i);
    assert log[|log| - 1].id != c.id;
  }
}
