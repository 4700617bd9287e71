/** The TypeScript and Python object for a Redis chain: it owns its current item, reads the data
    key and the chain key in separate steps, and retries appends at the tail. */
module RedisScriptChain {
  import opened AppendLog
  import opened EtcdStore
  import opened RedisChain
  import opened RedisClient

  class ScriptedChain {
    const server: Server
    var current: Cursor
    // The position of `current` on the log.
    ghost var at: nat

    /** `current` is null until `Start` or `TryLoadUntil`; here it is a placeholder. */
    constructor (server: Server)
      ensures this.server == server
    {
      this.server := server;
      current, at := Cursor("", Null, ""), 0;
    }

    ghost predicate Valid()
      reads this, server
    {
      server.Valid() && Placed(server.log, current, at)
    }

    /** Nothing is lost while a call runs, and the call itself adds `mine` nodes. */
    twostate predicate Kept(mine: nat)
      reads server
    {
      && server.Valid() && old(server.log) <= server.log
      && |server.log| + server.future == old(|server.log| + server.future) + mine
      && server.reserved == old(server.reserved)
    }

    /** Ids reserved for this client that were not on the chain still are not. */
    twostate predicate NoIntruder()
      reads server
    {
      && |old(server.log)| <= |server.log|
      && forall i :: |old(server.log)| <= i < |server.log| ==> server.log[i].id !in old(server.reserved)
    }

    method Start(defaultData: Data)
      requires server.Valid()
      modifies this, server
      ensures Valid() && at == 0 && UpToDate(server.log, current, 0) && old(server.log) <= server.log
      ensures current.id == server.head && current.data == defaultData
    {
      server.Yield();
      HeadStep(server.head, server.db, server.log);
      var reply := server.EvalHead();
      current, at := Cursor(server.head, defaultData, reply.text), 0;
    }

    /** Moves to the item `id`; false means that it was not on the chain when the call began. */
    method TryLoadUntil(id: string) returns (ok: bool)
      requires server.Valid()
      modifies this, server
      ensures Kept(0)
      ensures ok ==> at >= 1 && UpToDate(server.log, current, at) && current.id == id
      ensures !ok ==> current == old(current) && at == old(at)
      ensures !ok ==> forall i :: 1 <= i < |old(server.log)| ==> old(server.log)[i].id != id
    {
      ok := Read(id);
    }

    /** First the data key, then, after others may have run, the chain key. */
    method Read(id: string) returns (ok: bool)
      requires server.Valid()
      modifies this, server
      ensures Kept(0) && NoIntruder()
      ensures ok ==> at >= 1 && UpToDate(server.log, current, at) && current.id == id
      ensures !ok ==> current == old(current) && at == old(at)
      ensures forall i :: 1 <= i < |old(server.log)| && old(server.log)[i].id == id ==> ok && at == i
    {
      server.Yield();
      var data := server.StringGet(DataKey(id));
      DataIffItem(server.head, server.db, server.log, id);
      if data.None? {
        return false;
      }
      ghost var i :| IsItem(server.log, i, id, data.value);
      server.Yield();
      assert NodeOk(server.db, server.log, i);
      var chain := server.StringGet(ChainKey(id));
      if chain.None? {
        return false;
      }
      current, at := Cursor(id, data.value.data, chain.value.text), i;
      ok := true;
    }

    /** Moves to the next position; false means that `current` was the tail of the log `seen`
        at some moment of the call, and then `current` stays. */
    method Next() returns (moved: bool, ghost seen: seq<Node>)
      requires Valid()
      modifies this, server
      ensures Valid() && Kept(0) && NoIntruder()
      ensures moved ==> at == old(at) + 1 && UpToDate(server.log, current, at)
      ensures !moved ==>
                at == old(at) && current == old(current) && current.nextID == ""
                && old(server.log) <= seen <= server.log && |seen| == at + 1
    {
      seen := server.log;
      var nextID := current.nextID;
      if nextID == "" {
        nextID, seen := Peek();
        if nextID == "" {
          return false, seen;
        }
      }
      moved := Read(nextID);
    }

    /** Rereads the chain key of `current`. */
    method Peek() returns (next: string, ghost seen: seq<Node>)
      requires Valid()
      modifies server
      ensures Valid() && Kept(0) && NoIntruder()
      ensures old(server.log) <= seen == server.log && at < |seen|
      ensures if next == "" then |seen| == at + 1 else at + 1 < |seen| && seen[at + 1].id == next
    {
      server.Yield();
      seen := server.log;
      assert NodeOk(server.db, server.log, at);
      var x := server.StringGet(ChainKey(current.id));
      next := if x.Some? then x.value.text else "";
    }

    /** Runs to the tail, then appends after it; each round brings the cursor closer to the tail
        unless others append. Failure has one of two causes: the id was taken, or the log grew
        between the last read, of log `read`, and the script, on log `seen`. */
    method TryAppend(newID: string, newData: Data)
      returns (ok: bool, ghost read: seq<Node>, ghost seen: seq<Node>)
      requires Valid() && newID != ""
      modifies this, server
      ensures Valid() && Kept(if ok then 1 else 0)
      ensures old(server.log) <= read <= seen
      ensures ok == (read == seen && !OnLog(seen, newID))
      ensures !ok ==> |read| == at + 1
      ensures ok ==> server.log == seen + [Item(newID, newData)]
                     && at == |seen| && current == Cursor(newID, newData, "")
      ensures !ok ==> server.log == seen && NoIntruder()
    {
      read := server.log;
      var moved := true;
      while moved
        invariant Valid() && Kept(0) && NoIntruder()
        invariant !moved ==>
                    old(server.log) <= read <= server.log && |read| == at + 1 && current.nextID == ""
        decreases |server.log| + server.future - at, moved
      {
        moved, read := Next();
      }
      ok, seen := Commit(newID, newData);
    }

    /** The append script behind `current`. */
    method Commit(newID: string, newData: Data) returns (ok: bool, ghost seen: seq<Node>)
      requires Valid() && current.nextID == "" && newID != ""
      modifies this, server
      ensures Valid() && Kept(if ok then 1 else 0)
      ensures old(server.log) <= seen && ok == (|seen| == old(at) + 1 && !OnLog(seen, newID))
      ensures ok ==> server.log == seen + [Item(newID, newData)]
                     && at == |seen| && current == Cursor(newID, newData, "")
      ensures !ok ==> server.log == seen && NoIntruder() && at == old(at) && current == old(current)
    {
      server.Yield();
      seen := server.log;
      assert OnLog(seen, current.id) by { assert seen[at].id == current.id; }
      assert CanAppend(seen, current.id, newID) <==> |seen| == at + 1 && !OnLog(seen, newID);
      var reply := server.EvalAppend(current.id, newID, newData);
      ok := reply != 0;
      if ok {
        current, at := Cursor(newID, newData, ""), |seen|;
      }
    }

    /** Retries until the item is on the chain. It ends because only finitely many nodes come
        from others, and because nobody else uses the id. */
    method Append(newID: string, newData: Data) returns (ghost seen: seq<Node>)
      requires Valid() && newID != "" && newID in server.reserved && !OnLog(server.log, newID)
      modifies this, server
      ensures Valid() && Kept(1)
      ensures old(server.log) <= seen && server.log == seen + [Item(newID, newData)]
      ensures at == |seen| && current == Cursor(newID, newData, "")
    {
      var ok := false;
      seen := server.log;
      while !ok
        invariant Valid() && Kept(if ok then 1 else 0)
        invariant newID in server.reserved
        invariant !ok ==> !OnLog(server.log, newID)
        invariant ok ==> old(server.log) <= seen && server.log == seen + [Item(newID, newData)]
                         && at == |seen| && current == Cursor(newID, newData, "")
        decreases server.future, !ok
      {
        ghost var read;
        ok, read, seen := TryAppend(newID, newData);
      }
    }
  }
}
