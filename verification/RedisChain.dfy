/** The shared chain on Redis: atomic Lua scripts for the head and the append, and reads that
    take several separate steps. */
module RedisChain {
  import opened AppendLog
  import opened EtcdStore

  type Db = map<Key, Value>

  datatype Cursor = Cursor(id: string, data: Data, nextID: string)

  // ------------------------------------------------------------------ scripts

  /** In Lua the empty string is true, so only a missing head is created. */
  function HeadScript(db: Db, head: Key): (Db, Value) {
    if head in db then (db, db[head]) else (db[head := Text("")], Text(""))
  }

  function AppendScript(db: Db, here: Key, data: Key, chain: Key, newID: string, newData: Data): (Db, int) {
    if here in db && db[here] == Text("") && data !in db && chain !in db then
      (db[here := Text(newID)][data := Payload(newData)][chain := Text("")], 1)
    else (db, 0)
  }

  function AppendAt(db: Db, after: string, newID: string, newData: Data): (Db, int) {
    AppendScript(db, ChainKey(after), DataKey(newID), ChainKey(newID), newID, newData)
  }

  // ------------------------------------------------------- database and log

  ghost predicate NodeOk(db: Db, log: seq<Node>, i: nat)
    requires i < |log|
  {
    && ChainKey(log[i].id) in db
    && db[ChainKey(log[i].id)] == Text(Successor(log, i))
    && (log[i].Item? ==> DataKey(log[i].id) in db && db[DataKey(log[i].id)] == Payload(log[i].data))
  }

  ghost predicate Represents(head: string, db: Db, log: seq<Node>) {
    && WellFormed(head, log)
    && (forall i :: 0 <= i < |log| ==> NodeOk(db, log, i))
    && (forall id :: ChainKey(id) in db ==> OnLog(log, id))
    && (forall id :: DataKey(id) in db ==> exists i :: 1 <= i < |log| && log[i].id == id)
  }

  ghost predicate Placed(log: seq<Node>, c: Cursor, i: nat) {
    && i < |log|
    && c.id == log[i].id
    && (log[i].Item? ==> c.data == log[i].data)
    && (c.nextID != "" ==> i + 1 < |log| && c.nextID == log[i + 1].id)
  }

  /** Placed, with the successor that the log has now. */
  ghost predicate UpToDate(log: seq<Node>, c: Cursor, i: nat) {
    Placed(log, c, i) && c.nextID == if i + 1 < |log| then log[i + 1].id else ""
  }

  lemma HeadStep(head: string, db: Db, log: seq<Node>)
    requires Represents(head, db, log)
    ensures var (db', x) := HeadScript(db, ChainKey(head));
            var log' := Start(head, log);
            Represents(head, db', log') && x == Text(Successor(log', 0))
  {
    var db' := HeadScript(db, ChainKey(head)).0;
    if log != [] {
      assert NodeOk(db, log, 0);
    } else {
      assert !OnLog(log, head);
      assert OnLog([Head(head)], head) by { assert [Head(head)][0].id == head; }
    }
  }

  /** The script returns 1 exactly when the abstract append succeeds, and then the database
      holds the log grown by that one item. */
  lemma AppendStep(head: string, db: Db, log: seq<Node>, after: string, newID: string, newData: Data)
    requires Represents(head, db, log) && OnLog(log, after) && newID != ""
    ensures var (db', r) := AppendAt(db, after, newID, newData);
            && (r != 0 <==> CanAppend(log, after, newID))
            && (r == 0 ==> db' == db)
            && Represents(head, db', Append(log, after, newID, newData))
  {
    var i :| 0 <= i < |log| && log[i].id == after;
    assert NodeOk(db, log, i);
    assert ChainKey(newID) in db <==> OnLog(log, newID) by {
      if OnLog(log, newID) {
        var j :| 0 <= j < |log| && log[j].id == newID;
        assert NodeOk(db, log, j);
      }
    }
    assert log[|log| - 1].id == after <==> i + 1 == |log|;
    if CanAppend(log, after, newID) {
      AppendEffect(head, db, log, after, newID, newData);
    }
  }

  lemma AppendEffect(head: string, db: Db, log: seq<Node>, after: string, newID: string, newData: Data)
    requires Represents(head, db, log) && CanAppend(log, after, newID) && newID != ""
    ensures Represents(head,
              db[ChainKey(after) := Text(newID)][DataKey(newID) := Payload(newData)][ChainKey(newID) := Text("")],
              log + [Item(newID, newData)])
  {
    var log' := log + [Item(newID, newData)];
    var db' := db[ChainKey(after) := Text(newID)][DataKey(newID) := Payload(newData)][ChainKey(newID) := Text("")];
    AppendKeepsWellFormed(head, log, after, newID, newData);
    forall j | 0 <= j < |log'| ensures NodeOk(db', log', j) {
      if j < |log| {
        assert NodeOk(db, log, j);
        assert log[j].id != newID by { assert !OnLog(log, newID); }
      }
    }
    assert log'[|log|].id == newID;
    forall id | ChainKey(id) in db' ensures OnLog(log', id) {
      if id != newID {
        assert OnLog(log, id);
        var j :| 0 <= j < |log| && log[j].id == id;
        assert log'[j].id == id;
      }
    }
    forall id | DataKey(id) in db' ensures exists j :: 1 <= j < |log'| && log'[j].id == id {
      if id != newID {
        var j :| 1 <= j < |log| && log[j].id == id;
        assert log'[j].id == id;
      }
    }
  }

  // --------------------------------------------------------------------- runs

  /** Each command is one script; the reply of an append is kept. */
  ghost function Step(head: string, db: Db, c: Command): (Db, bool) {
    match c
    case Begin => (HeadScript(db, ChainKey(head)).0, true)
    case Add(after, id, data) =>
      var (db', r) := AppendAt(db, after, id, data);
      (db', r != 0)
  }

  ghost function Run(head: string, db: Db, cmds: seq<Command>): Db
    decreases |cmds|
  {
    if cmds == [] then db else Run(head, Step(head, db, cmds[0]).0, cmds[1..])
  }

  /** An append names a node that some read returned, and a non-empty id. */
  ghost predicate LegalRun(head: string, log: seq<Node>, cmds: seq<Command>)
    decreases |cmds|
  {
    cmds != [] ==>
      && (cmds[0].Add? ==> OnLog(log, cmds[0].after) && cmds[0].id != "")
      && LegalRun(head, Obey(head, log, cmds[0]), cmds[1..])
  }

  lemma {:induction false} RunRefinesLog(head: string, db: Db, log: seq<Node>, cmds: seq<Command>)
    requires Represents(head, db, log) && LegalRun(head, log, cmds)
    ensures Represents(head, Run(head, db, cmds), LogRun(head, log, cmds))
    ensures log <= LogRun(head, log, cmds)
    decreases |cmds|
  {
    if cmds != [] {
      var c := cmds[0];
      if c.Begin? {
        HeadStep(head, db, log);
      } else {
        AppendStep(head, db, log, c.after, c.id, c.data);
      }
      RunRefinesLog(head, Step(head, db, c).0, Obey(head, log, c), cmds[1..]);
    }
  }
}
