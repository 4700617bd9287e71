/** The C# client of the Redis chain, whose reads fetch the data key and the chain key in
    separate steps while other clients run. */
module RedisClient {
  import opened AppendLog
  import opened EtcdStore
  import opened RedisChain
  import opened Wrappers

  datatype Error = NoRecord(key: Key) | BadRecord(key: Key) | NextAlreadySet

  class Server {
    const head: string
    var db: Db
    ghost var log: seq<Node>
    // How many nodes the other clients will still add, and the ids they will not use.
    ghost var future: nat
    ghost var reserved: set<string>

    ghost predicate Valid()
      reads this
    {
      Represents(head, db, log)
    }

    constructor (head: string, ghost others: nat, ghost mine: set<string>)
      ensures Valid() && this.head == head && db == map[] && log == [] && future == others && reserved == mine
    {
      this.head, db, log, future, reserved := head, map[], [], others, mine;
    }

    /** Any number of scripts of any other clients. */
    method Interfere()
      requires Valid()
      modifies this
      ensures exists cmds :: LegalRun(head, old(log), cmds)
                && db == Run(head, old(db), cmds) && log == LogRun(head, old(log), cmds)
      ensures |log| + future == old(|log| + future) && reserved == old(reserved)
      ensures forall i :: old(|log|) <= i < |log| ==> log[i].id !in reserved
    {
      assert LegalRun(head, log, []) && db == Run(head, db, []) && log == LogRun(head, log, []);
    }

    method Yield()
      requires Valid()
      modifies this
      ensures Valid() && old(log) <= log
      ensures |log| + future == old(|log| + future) && reserved == old(reserved)
      ensures forall i :: old(|log|) <= i < |log| ==> log[i].id !in reserved
    {
      Interfere();
      ghost var cmds :| LegalRun(head, old(log), cmds)
        && db == Run(head, old(db), cmds) && log == LogRun(head, old(log), cmds);
      RunRefinesLog(head, old(db), old(log), cmds);
    }

    method StringGet(k: Key) returns (v: Option<Value>)
      ensures v == if k in db then Some(db[k]) else None
    {
      v := if k in db then Some(db[k]) else None;
    }

    method EvalHead() returns (v: Value)
      requires Valid()
      modifies this
      ensures Valid() && (db, v) == HeadScript(old(db), ChainKey(head)) && log == Start(head, old(log))
      ensures future == old(future) && reserved == old(reserved)
    {
      HeadStep(head, db, log);
      var (d, x) := HeadScript(db, ChainKey(head));
      db, v := d, x;
      log := Start(head, log);
    }

    method EvalAppend(after: string, newID: string, newData: Data) returns (r: int)
      requires Valid() && OnLog(log, after) && newID != ""
      modifies this
      ensures Valid() && (db, r) == AppendAt(old(db), after, newID, newData)
      ensures log == Append(old(log), after, newID, newData)
      ensures future == old(future) && reserved == old(reserved)
      ensures r != 0 <==> CanAppend(old(log), after, newID)
    {
      AppendStep(head, db, log, after, newID, newData);
      var (d, x) := AppendAt(db, after, newID, newData);
      db, r := d, x;
      log := Append(log, after, newID, newData);
    }
  }

  class SharedChain {
    const server: Server

    constructor (server: Server)
      ensures this.server == server
    {
      this.server := server;
    }

    /** Nothing is lost while a call runs, and the call itself adds nothing. */
    twostate predicate Untouched()
      reads server
    {
      Kept() && |server.log| + server.future == old(|server.log| + server.future)
    }

    twostate predicate Kept()
      reads server
    {
      server.Valid() && old(server.log) <= server.log
    }

    method Head(defaultData: Data) returns (c: Cursor)
      requires server.Valid()
      modifies server
      ensures Kept() && UpToDate(server.log, c, 0) && c.id == server.head && c.data == defaultData
    {
      server.Yield();
      HeadStep(server.head, server.db, server.log);
      var reply := server.EvalHead();
      c := Cursor(server.head, defaultData, reply.text);
    }

    method LoadUntil(id: string, defaultData: Data) returns (r: Result<Cursor, Error>)
      requires server.Valid()
      modifies server
      ensures Kept()
      ensures id == "" ==> r.Success? && UpToDate(server.log, r.value, 0) && r.value.data == defaultData
      ensures id != "" ==>
                forall i :: 1 <= i < |old(server.log)| && old(server.log)[i].id == id ==>
                  r.Success? && UpToDate(server.log, r.value, i)
      ensures id != "" && r.Success? ==> exists i :: 1 <= i < |server.log| && UpToDate(server.log, r.value, i)
      ensures r.Success? ==> r.value.id == if id == "" then server.head else id
    {
      if id == "" {
        var c := Head(defaultData);
        return Success(c);
      }
      r := ReadBoth(id);
    }

    /** First the data key, then, after others may have run, the chain key. */
    method ReadBoth(id: string) returns (r: Result<Cursor, Error>)
      requires server.Valid()
      modifies server
      ensures Untouched()
      ensures r.Success? ==> r.value.id == id
      ensures r.Success? ==> exists i :: 1 <= i < |server.log| && UpToDate(server.log, r.value, i)
      ensures forall i :: 1 <= i < |old(server.log)| && old(server.log)[i].id == id ==>
                r.Success? && UpToDate(server.log, r.value, i)
    {
      server.Yield();
      var data := server.StringGet(DataKey(id));
      DataIffItem(server.head, server.db, server.log, id);
      if data.None? {
        return Failure(NoRecord(DataKey(id)));
      }
      ghost var i :| IsItem(server.log, i, id, data.value);
      server.Yield();
      assert NodeOk(server.db, server.log, i);
      hide Represents;
      var chain := server.StringGet(ChainKey(id));
      if chain.None? {
        return Failure(NoRecord(ChainKey(id)));
      }
      var c := Cursor(id, data.value.data, chain.value.text);
      assert UpToDate(server.log, c, i);
      r := Success(c);
    }

    /** Moves from position `i` to position `i + 1`; None means that position `i` was the tail
        of the log `seen` at some moment of the call. There is never a missing record. */
    method FetchNext(current: Cursor, ghost i: nat)
      returns (r: Result<Option<Cursor>, Error>, ghost seen: seq<Node>)
      requires server.Valid() && Placed(server.log, current, i)
      modifies server
      ensures Untouched()
      ensures r.Success?
      ensures r.value.Some? ==> UpToDate(server.log, r.value.value, i + 1)
      ensures r.value.None? ==> old(server.log) <= seen <= server.log && |seen| == i + 1
    {
      seen := server.log;
      var nextID := current.nextID;
      if nextID == "" {
        server.Yield();
        seen := server.log;
        assert NodeOk(server.db, server.log, i);
        var x := server.StringGet(ChainKey(current.id));
        if x.None? {
          return Failure(NoRecord(ChainKey(current.id))), seen;
        }
        nextID := x.value.text;
      }
      if nextID == "" {
        return Success(None), seen;
      }
      assert server.log[i + 1].id == nextID;
      var c := ReadBoth(nextID);
      if c.Failure? {
        return Failure(c.error), seen;
      }
      r := Success(Some(c.value));
    }

    /** Succeeds exactly when `current` is the tail of the log `seen` of the moment the script
        runs and the id is new; then that log grows by exactly this item. */
    method AppendAfter(current: Cursor, toBeWritten: Cursor, ghost i: nat)
      returns (r: Result<bool, Error>, ghost seen: seq<Node>)
      requires server.Valid() && Placed(server.log, current, i) && toBeWritten.id != ""
      modifies server
      ensures Kept() && old(server.log) <= seen
      ensures r.Failure? <==> current.nextID == "" && toBeWritten.nextID != ""
      ensures r.Success? ==> r.value == CanAppend(seen, current.id, toBeWritten.id)
      ensures server.log == if r == Success(true) then seen + [Item(toBeWritten.id, toBeWritten.data)] else seen
    {
      seen := server.log;
      if current.nextID != "" {
        assert seen[|seen| - 1].id != current.id;
        return Success(false), seen;
      }
      if toBeWritten.nextID != "" {
        return Failure(NextAlreadySet), seen;
      }
      server.Yield();
      seen := server.log;
      assert OnLog(seen, current.id) by { assert seen[i].id == current.id; }
      var ok := server.EvalAppend(current.id, toBeWritten.id, toBeWritten.data);
      r := Success(ok != 0);
    }
  }

  /** Position `i` is the item of this id, and `v` its stored payload. */
  ghost predicate IsItem(log: seq<Node>, i: nat, id: string, v: Value) {
    1 <= i < |log| && log[i].id == id && log[i].Item? && v == Payload(log[i].data)
  }

  /** A data key exists exactly for the id of an item, and tells which one it is. */
  lemma DataIffItem(head: string, db: Db, log: seq<Node>, id: string)
    requires Represents(head, db, log)
    ensures DataKey(id) in db ==> exists i :: IsItem(log, i, id, db[DataKey(id)])
    ensures DataKey(id) !in db ==> forall i :: 1 <= i < |log| ==> log[i].id != id
    ensures forall i, j :: 1 <= i < |log| && 1 <= j < |log| && log[i].id == id && log[j].id == id ==> i == j
  {
    forall i | 1 <= i < |log| && log[i].id == id
      ensures DataKey(id) in db && IsItem(log, i, id, db[DataKey(id)])
    {
      assert NodeOk(db, log, i);
    }
  }
}
