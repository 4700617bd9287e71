/** The TypeScript and Python client: an object that owns its current item, and whose appends
    first run to the tail and are retried until they succeed. */
module ScriptChain {
  import opened AppendLog
  import opened EtcdStore
  import opened EtcdChain
  import opened EtcdRuns
  import opened EtcdCluster
  import opened Wrappers

  /** An exception raised while decoding a reply. */
  datatype Raised = Raised(key: Key)

  class SharedChain {
    const cluster: Cluster
    const duplicateFromRedis: bool
    const automaticallyDuplicateToRedis: bool
    var current: Cursor
    // The position of `current` on the log.
    ghost var at: nat

    /** `current` is null until `Start` or `TryLoadUntil`; here it is a placeholder. */
    constructor (cluster: Cluster, duplicateFromRedis: bool, automaticallyDuplicateToRedis: bool)
      ensures this.cluster == cluster
    {
      this.cluster := cluster;
      this.duplicateFromRedis := duplicateFromRedis;
      this.automaticallyDuplicateToRedis := automaticallyDuplicateToRedis;
      current, at := Cursor(0, "", Null, ""), 0;
    }

    /** The cluster is consistent, and an inline chain was created by a script. */
    ghost predicate Ready()
      reads cluster
    {
      cluster.Valid() && (cluster.cfg.layout.Inline? ==> cluster.cfg.layout.blankHead)
    }

    ghost predicate Valid()
      reads this, cluster
    {
      && Ready()
      && current in cluster.issued
      && Placed(cluster.log, cluster.births, current, at)
    }

    /** Nothing is lost while a call runs, and the call itself adds `mine` nodes. */
    twostate predicate Kept(mine: nat)
      reads cluster
    {
      && Ready()
      && Extends(old(cluster.W()), cluster.W())
      && |cluster.log| + cluster.future == old(|cluster.log| + cluster.future) + mine
      && cluster.reserved == old(cluster.reserved)
    }

    /** Ids reserved for this client that were not on the chain still are not. */
    twostate predicate NoIntruder()
      reads cluster
    {
      && |old(cluster.log)| <= |cluster.log|
      && forall i :: |old(cluster.log)| <= i < |cluster.log| ==> cluster.log[i].id !in old(cluster.reserved)
    }

    /** If the Redis copy has the head, at the moment `seen` of the call, the item is that entry;
        otherwise the payload is the caller's. */
    method Start(defaultData: Data) returns (ghost hit: Option<CacheEntry>, ghost seen: World)
      requires Ready()
      modifies this, cluster
      ensures Valid() && at == 0 && Extends(old(cluster.W()), seen) && Extends(seen, cluster.W())
      ensures Inv(cluster.cfg, seen)
      ensures hit == if duplicateFromRedis then Entry(seen.cache, cluster.cfg.headKey) else None
      ensures hit.None? ==> current.data == defaultData
      ensures hit.Some? ==> current == Cursor(hit.value.revision, cluster.cfg.headKey, hit.value.data, hit.value.next)
    {
      var head := cluster.cfg.headKey;
      hit, seen := None, cluster.W();
      if duplicateFromRedis {
        cluster.Yield();
        seen := cluster.W();
        var e := cluster.StringGet(head, None);
        hit := e;
        if e.Some? {
          ghost var i :| EntryAt(cluster.log, head, e.value, i);
          CacheReadIsPlaced(cluster.log, cluster.births, head, head, e.value, None, i);
          SamePosition(head, cluster.log, i, 0);
          current, at := Cursor(e.value.revision, head, e.value.data, e.value.next), 0;
          return;
        }
      }
      StoredHead(defaultData);
    }

    method StoredHead(defaultData: Data)
      requires Ready()
      modifies this, cluster
      ensures Valid() && at == 0 && Extends(old(cluster.W()), cluster.W()) && current.data == defaultData
    {
      var cfg := cluster.cfg;
      cluster.Yield();
      HeadOutcome(cfg, cluster.W(), defaultData);
      hide Represents;
      var reply := cluster.Transaction(HeadTxn(cfg, defaultData), FindHead(defaultData));
      if reply.succeeded {
        var kv := reply.responses[0].kv.value;
        // A blank inline head has no bytes to decode.
        var next := NextOf(cfg.layout, kv.value);
        current := Cursor(kv.mod, cfg.headKey, defaultData, if next.Some? then next.value else "");
      } else {
        current := Cursor(reply.responses[1].kv.value.mod, cfg.headKey, defaultData, "");
      }
      at := 0;
    }

    /** Moves to the item `id`; false means that no such key was on the chain. Only the head's
        own id can raise: it has no data record, and a blank inline head does not decode. */
    method TryLoadUntil(id: string) returns (r: Result<bool, Raised>)
      requires Ready()
      modifies this, cluster
      ensures Kept(0)
      ensures r.Failure? ==> id == cluster.cfg.headKey
      ensures OnLog(old(cluster.log), id) && r.Success? ==> r.value
      ensures r == Success(true) ==> Valid() && current.id == id
      ensures r != Success(true) ==> current == old(current)
    {
      if duplicateFromRedis {
        cluster.Yield();
        var e := cluster.StringGet(id, None);
        if e.Some? {
          ghost var i :| EntryAt(cluster.log, id, e.value, i);
          CacheReadIsPlaced(cluster.log, cluster.births, cluster.cfg.headKey, id, e.value, None, i);
          current, at := Cursor(e.value.revision, id, e.value.data, e.value.next), i;
          return Success(true);
        }
      }
      r := Load(id);
    }

    method Load(id: string) returns (r: Result<bool, Raised>)
      requires Ready()
      modifies this, cluster
      ensures Kept(0) && NoIntruder()
      ensures r.Failure? ==> id == cluster.cfg.headKey
      ensures OnLog(old(cluster.log), id) && r.Success? ==> r.value
      ensures r == Success(true) ==> Valid() && current.id == id
      ensures r != Success(true) ==> current == old(current)
    {
      var cfg := cluster.cfg;
      cluster.Yield();
      LoadReplies(cfg, Script, cluster.store, id);
      KeyIsFresh(cfg, cluster.store, cluster.log, cluster.births, id);
      OnLogStays(old(cluster.log), cluster.log, id);
      ghost var i := WhereIs(id);
      var reply := cluster.Transaction(LoadTxn(cfg, Script, id), ReadItem(Script, id));
      if !reply.succeeded {
        return Success(false);
      }
      var chain := reply.responses[0].kv.value;
      if cfg.layout.Separate? {
        var data := reply.responses[1].kv;
        if data.None? {
          return Failure(Raised(DataKey(id)));
        }
        current := Cursor(chain.mod, id, data.value.value.data, chain.value.text);
      } else {
        if !chain.value.Cell? {
          return Failure(Raised(ChainKey(id)));
        }
        current := Cursor(chain.mod, id, chain.value.data, chain.value.next);
      }
      at := i;
      r := Success(true);
    }

    /** The position of an id, and what an atomic read of it returns. */
    ghost method WhereIs(id: string) returns (i: nat)
      requires Ready()
      ensures OnLog(cluster.log, id) ==> i < |cluster.log| && cluster.log[i].id == id
      ensures OnLog(cluster.log, id) && i > 0 ==>
                var c := ReadNode(cluster.cfg, Script, cluster.store, id);
                c.Some? && Placed(cluster.log, cluster.births, c.value, i)
      ensures OnLog(cluster.log, id) && i == 0 ==>
                id == cluster.cfg.headKey && DataKey(id) !in cluster.store.kvs
                && ChainNodeOk(cluster.cfg.layout, cluster.store, cluster.log, cluster.births, 0)
    {
      i := 0;
      if OnLog(cluster.log, id) {
        i :| 0 <= i < |cluster.log| && cluster.log[i].id == id;
        if i > 0 {
          ReadStep(cluster.cfg, Script, cluster.store, cluster.log, cluster.births, i);
        } else {
          assert ChainNodeOk(cluster.cfg.layout, cluster.store, cluster.log, cluster.births, 0);
          assert !OnItems(cluster.log, id);
        }
      }
    }

    /** Moves to the next position; false means that `current` was the tail of the log `seen`
        at some moment of the call, and then `current` stays. */
    method Next() returns (moved: bool, ghost seen: seq<Node>)
      requires Valid()
      modifies this, cluster
      ensures Valid() && Kept(0) && NoIntruder()
      ensures moved ==> at == old(at) + 1
      ensures !moved ==>
                at == old(at) && current == old(current) && current.nextID == ""
                && old(cluster.log) <= seen <= cluster.log && |seen| == at + 1
    {
      hide Represents;
      seen := cluster.log;
      if duplicateFromRedis {
        var hit, _ := CachedNext();
        if hit {
          return true, seen;
        }
      }
      moved, seen := StoredNext();
    }

    method StoredNext() returns (moved: bool, ghost seen: seq<Node>)
      requires Valid()
      modifies this, cluster
      ensures Valid() && Kept(0) && NoIntruder()
      ensures moved ==> at == old(at) + 1
      ensures !moved ==>
                at == old(at) && current == old(current) && current.nextID == ""
                && old(cluster.log) <= seen <= cluster.log && |seen| == at + 1
    {
      hide Represents;
      seen := cluster.log;
      var nextID := current.nextID;
      if nextID == "" {
        nextID, seen := Peek();
        if nextID == "" {
          return false, seen;
        }
      }
      moved := LoadNext(nextID);
    }

    /** The successor is known, or is read from the Redis copy at the moment `first`. */
    method CachedNext() returns (moved: bool, ghost first: World)
      requires Valid()
      modifies this, cluster
      ensures Valid() && Kept(0) && NoIntruder()
      ensures moved ==> at == old(at) + 1
      ensures !moved ==> at == old(at) && current == old(current)
      ensures Extends(old(cluster.W()), first) && Inv(cluster.cfg, first) && Extends(first, cluster.W())
      ensures var was := old(current);
              var next := if was.nextID != "" then was.nextID else CopiedNext(first.cache, was.id);
              var copy := if next != "" then Copied(cluster.cache, next) else None;
              moved == copy.Some? && (moved ==> Some(current) == copy)
    {
      hide Represents, CursorOk, EntryOk;
      first := cluster.W();
      var nextID := current.nextID;
      if nextID == "" {
        nextID := CachedSuccessor();
        first := cluster.W();
        if nextID == "" {
          return false, first;
        }
      }
      moved := CachedAt(nextID);
    }

    /** What the Redis copy of `current` names as its successor; empty if there is no copy. */
    method CachedSuccessor() returns (nextID: string)
      requires Valid()
      modifies cluster
      ensures Valid() && Kept(0) && NoIntruder()
      ensures nextID != "" ==> at + 1 < |cluster.log| && cluster.log[at + 1].id == nextID
      ensures nextID == CopiedNext(cluster.cache, current.id)
    {
      cluster.Yield();
      var e := cluster.StringGet(current.id, None);
      if e.None? {
        return "";
      }
      CachedHere(cluster.cfg, cluster.W(), current.id, at);
      hide Represents, EntryOk, CursorOk;
      nextID := e.value.next;
    }

    method CachedAt(nextID: string) returns (moved: bool)
      requires Valid() && at + 1 < |cluster.log| && cluster.log[at + 1].id == nextID
      modifies this, cluster
      ensures Valid() && Kept(0) && NoIntruder()
      ensures moved ==> at == old(at) + 1
      ensures !moved ==> at == old(at) && current == old(current)
      ensures var copy := Copied(cluster.cache, nextID);
              moved == copy.Some? && (moved ==> Some(current) == copy)
    {
      cluster.Yield();
      var e := cluster.StringGet(nextID, None);
      hide Represents, EntryOk, CursorOk;
      if e.None? {
        return false;
      }
      CachedHere(cluster.cfg, cluster.W(), nextID, at + 1);
      current, at := Cursor(e.value.revision, nextID, e.value.data, e.value.next), at + 1;
      moved := true;
    }

    /** Rereads the chain key of `current`; a blank inline head counts as a tail. */
    method Peek() returns (next: string, ghost seen: seq<Node>)
      requires Valid()
      modifies cluster
      ensures Valid() && Kept(0) && NoIntruder()
      ensures old(cluster.log) <= seen == cluster.log
      ensures at < |seen|
      ensures if next == "" then |seen| == at + 1 else at + 1 < |seen| && seen[at + 1].id == next
    {
      cluster.Yield();
      seen := cluster.log;
      assert ChainNodeOk(cluster.cfg.layout, cluster.store, cluster.log, cluster.births, at);
      var kv := cluster.Get(ChainKey(current.id));
      var v := NextOf(cluster.cfg.layout, kv.value.value);
      next := if v.None? then "" else v.value;
    }

    method LoadNext(nextID: string) returns (moved: bool)
      requires Valid() && at + 1 < |cluster.log| && cluster.log[at + 1].id == nextID
      modifies this, cluster
      ensures Valid() && Kept(0) && NoIntruder()
      ensures moved && at == old(at) + 1
    {
      ghost var i := at + 1;
      var cfg := cluster.cfg;
      cluster.Yield();
      LoadReplies(cfg, Script, cluster.store, nextID);
      KeyIsFresh(cfg, cluster.store, cluster.log, cluster.births, nextID);
      ReadStep(cfg, Script, cluster.store, cluster.log, cluster.births, i);
      var reply := cluster.Transaction(LoadTxn(cfg, Script, nextID), ReadItem(Script, nextID));
      moved := reply.succeeded;
      if moved {
        var chain := reply.responses[0].kv.value;
        if cfg.layout.Separate? {
          current := Cursor(chain.mod, nextID, reply.responses[1].kv.value.value.data, chain.value.text);
        } else {
          current := Cursor(chain.mod, nextID, chain.value.data, chain.value.next);
        }
        at := i;
      }
    }

    method IdIsAlreadyOnChain(id: string) returns (yes: bool, ghost seen: seq<Node>)
      requires Ready()
      modifies cluster
      ensures Kept(0)
      ensures old(cluster.log) <= seen <= cluster.log && yes == OnLog(seen, id)
    {
      cluster.Yield();
      ExistsReplies(cluster.store, id);
      KeyIsFresh(cluster.cfg, cluster.store, cluster.log, cluster.births, id);
      var reply := cluster.Transaction(ExistsTxn(id), ReadItem(Script, id));
      seen := cluster.log;
      yes := reply.succeeded;
    }

    /** Runs to the tail, then appends after it. Each round brings the cursor one position
        closer to the tail unless others append. Failure has one of two causes: the id was
        taken, or the log grew between the last read, of log `read`, and the transaction, on
        log `seen`. */
    method TryAppend(newID: string, newData: Data)
      returns (ok: bool, ghost read: seq<Node>, ghost seen: seq<Node>)
      requires Valid() && newID != ""
      modifies this, cluster
      ensures Valid() && Kept(if ok then 1 else 0)
      ensures old(cluster.log) <= read <= seen <= cluster.log
      ensures !ok ==> |read| == at + 1 && (OnLog(seen, newID) || |read| < |seen|)
      ensures ok ==> read == seen && !OnLog(seen, newID)
      ensures ok ==> seen + [Item(newID, newData)] <= cluster.log
                     && at == |seen| && current.id == newID && current.nextID == ""
      ensures !ok ==> NoIntruder()
    {
      hide Represents;
      read := cluster.log;
      var moved := true;
      while moved
        invariant Valid() && Kept(0) && NoIntruder()
        invariant !moved ==>
                    old(cluster.log) <= read <= cluster.log && |read| == at + 1 && current.nextID == ""
        decreases |cluster.log| + cluster.future - at, moved
      {
        moved, read := Next();
      }
      ok, seen := Commit(newID, newData);
    }

    method Commit(newID: string, newData: Data) returns (ok: bool, ghost seen: seq<Node>)
      requires Valid() && current.nextID == "" && newID != ""
      modifies this, cluster
      ensures Valid() && Kept(if ok then 1 else 0)
      ensures old(cluster.log) <= seen <= cluster.log
      ensures ok == (|seen| == old(at) + 1 && !OnLog(seen, newID))
      ensures ok ==> seen + [Item(newID, newData)] <= cluster.log
                     && at == |seen| && current.id == newID && current.nextID == ""
      ensures !ok ==> NoIntruder() && at == old(at) && current == old(current)
      ensures ok && automaticallyDuplicateToRedis ==> Duplicated(old(current), newID)
    {
      hide Represents, EntryOk, OnLog;
      var revision;
      ok, revision, seen := CommitTransaction(newID, newData);
      if ok {
        var mine := Cursor(revision, newID, newData, "");
        ghost var log, births := cluster.log, cluster.births;
        if automaticallyDuplicateToRedis {
          DuplicateToRedis(newID);
        }
        PlacedStays(log, births, cluster.log, cluster.births, mine, |seen|);
        hide Inv;
        current, at := mine, |seen|;
      }
    }

    /** The Redis copy shows the item that was the tail, now with its successor. */
    ghost predicate Duplicated(c: Cursor, newID: string)
      reads cluster
    {
      c.id in cluster.cache && cluster.cache[c.id] == CacheEntry(c.revision, c.data, newID)
    }

    method DuplicateToRedis(newID: string)
      requires Ready()
      requires (current.id, CacheEntry(current.revision, current.data, newID)) in cluster.committed
      modifies cluster
      ensures Kept(0) && Duplicated(current, newID)
    {
      cluster.Yield();
      cluster.StringSet(current.id, CacheEntry(current.revision, current.data, newID));
    }

    method CommitTransaction(newID: string, newData: Data)
      returns (ok: bool, revision: nat, ghost seen: seq<Node>)
      requires Valid() && current.nextID == "" && newID != ""
      modifies cluster
      ensures Valid() && Kept(if ok then 1 else 0)
      ensures old(cluster.log) <= seen <= cluster.log
      ensures ok == (|seen| == at + 1 && !OnLog(seen, newID))
      ensures ok ==>
                && cluster.log == seen + [Item(newID, newData)]
                && Cursor(revision, newID, newData, "") in cluster.issued
                && Placed(cluster.log, cluster.births, Cursor(revision, newID, newData, ""), |seen|)
                && (current.id, CacheEntry(current.revision, current.data, newID)) in cluster.committed
      ensures !ok ==> NoIntruder()
    {
      hide EntryOk, Step, Exec, AppendTxn, CursorOk;
      var cfg := cluster.cfg;
      cluster.Yield();
      seen := cluster.log;
      AppendOutcome(cfg, cluster.W(), Script, current, at, newID, newData);
      var reply := cluster.Transaction(AppendTxn(cfg, Script, current, newID, newData),
                                       EtcdRuns.TryAppend(Script, current, newID, newData));
      ok := reply.succeeded;
      revision := if ok then reply.responses[|reply.responses| - 1].rev else 0;
    }

    /** Retries until the item is on the chain. It ends because only finitely many nodes come
        from others, and because nobody else uses the id. */
    method Append(newID: string, newData: Data) returns (ghost seen: seq<Node>)
      requires Valid() && newID != "" && newID in cluster.reserved && !OnLog(cluster.log, newID)
      modifies this, cluster
      ensures Valid() && Kept(1)
      ensures old(cluster.log) <= seen && seen + [Item(newID, newData)] <= cluster.log
      ensures at == |seen| && current.id == newID && current.nextID == ""
    {
      var ok := false;
      seen := cluster.log;
      while !ok
        invariant Valid() && Kept(if ok then 1 else 0)
        invariant newID in cluster.reserved
        invariant !ok ==> !OnLog(cluster.log, newID)
        invariant ok ==> old(cluster.log) <= seen && seen + [Item(newID, newData)] <= cluster.log
                         && at == |seen| && current.id == newID && current.nextID == ""
        decreases cluster.future, !ok
      {
        ghost var read;
        ok, read, seen := TryAppend(newID, newData);
      }
    }
  }

  lemma OnLogStays(log: seq<Node>, log': seq<Node>, id: string)
    requires log <= log'
    ensures OnLog(log, id) ==> OnLog(log', id)
  {
    if OnLog(log, id) {
      var i :| 0 <= i < |log| && log[i].id == id;
      assert log'[i].id == id;
    }
  }
}
