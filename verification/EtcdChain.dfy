/** The shared chain on etcd as a state machine: what every atomic step of every client does
    to the store, the Redis copy and the cursors handed out, and what all runs keep. */
module EtcdChain {
  import opened AppendLog
  import opened EtcdStore
  import opened Wrappers

  /** Where payloads live. With inline data, C# creates the head as an encoded pair while
      TypeScript and Python create it blank. */
  datatype Layout = Separate | Inline(blankHead: bool)

  /** C# compares the predecessor's value on a separate layout; the scripts compare its revision. */
  datatype Language = CSharp | Script

  datatype Config = Config(headKey: string, layout: Layout)

  /** A chain item as a client holds it. */
  datatype Cursor = Cursor(revision: nat, id: string, data: Data, nextID: string)

  /** What Redis keeps under a chain key. */
  datatype CacheEntry = CacheEntry(revision: nat, data: Data, next: string)

  // ------------------------------------------------------------ transactions

  function HeadValue(layout: Layout, defaultData: Data): Value {
    if layout.Separate? || layout.blankHead then Text("") else Cell(defaultData, "")
  }

  function HeadTxn(cfg: Config, defaultData: Data): Txn {
    var h := ChainKey(cfg.headKey);
    Txn([VersionAbove(h, 0)], [Get(h)], [Put(h, HeadValue(cfg.layout, defaultData)), Get(h)])
  }

  function AppendTxn(cfg: Config, lang: Language, cur: Cursor, newID: string, newData: Data): Txn {
    var here, chain, data := ChainKey(cur.id), ChainKey(newID), DataKey(newID);
    if cfg.layout.Separate? then
      Txn(
        [if lang.CSharp? then ValueIs(here, Text("")) else ModIs(here, cur.revision),
         VersionIs(data, 0), VersionIs(chain, 0)],
        [Put(here, Text(newID)), Put(data, Payload(newData)), Put(chain, Text(""))],
        [])
    else
      Txn(
        [ModIs(here, cur.revision), VersionIs(chain, 0)],
        [Put(here, Cell(cur.data, newID)), Put(chain, Cell(newData, ""))],
        [])
  }

  /** The next id stored in a chain value; None when the bytes do not decode. */
  function NextOf(layout: Layout, v: Value): Option<string> {
    match v
    case Text(t) => if layout.Separate? then Some(t) else None
    case Cell(_, next) => if layout.Separate? then None else Some(next)
    case Payload(_) => None
  }

  /** The item stored under `id`, as one atomic read returns it. */
  function ReadNode(cfg: Config, lang: Language, s: Store, id: string): Option<Cursor> {
    var chain, data := ChainKey(id), DataKey(id);
    if chain !in s.kvs then None
    else
      var kv := s.kvs[chain];
      match kv.value
      case Cell(d, next) =>
        if cfg.layout.Inline? then Some(Cursor(kv.mod, id, d, next)) else None
      case Text(t) =>
        if cfg.layout.Separate? && data in s.kvs && s.kvs[data].value.Payload? then
          var rev := if lang.CSharp? then s.kvs[data].mod else kv.mod;
          Some(Cursor(rev, id, s.kvs[data].value.data, t))
        else None
      case Payload(_) => None
  }

  // -------------------------------------------------- store and log relation

  /** The chain value of position `i`. The head's payload belongs to no item, so an inline
      head may hold any. */
  ghost predicate ChainValue(layout: Layout, log: seq<Node>, i: nat, v: Value)
    requires i < |log|
  {
    if layout.Separate? then v == Text(Successor(log, i))
    else if log[i].Head? && layout.blankHead && |log| == 1 then v == Text("")
    else v.Cell? && v.next == Successor(log, i) && (log[i].Item? ==> v.data == log[i].data)
  }

  /** `births[i]` is the revision that created position `i`; appending the next position
      rewrites the chain key once more. */
  function ChainMod(births: seq<nat>, i: nat): nat
    requires i < |births|
  {
    if i + 1 < |births| then births[i + 1] else births[i]
  }

  ghost predicate Ascending(births: seq<nat>) {
    forall i, j :: 0 <= i < j < |births| ==> births[i] < births[j]
  }

  ghost predicate OnItems(log: seq<Node>, id: string) {
    exists i :: 1 <= i < |log| && log[i].id == id
  }

  ghost predicate ChainNodeOk(layout: Layout, s: Store, log: seq<Node>, births: seq<nat>, i: nat)
    requires i < |log| == |births|
  {
    var k := ChainKey(log[i].id);
    && k in s.kvs
    && ChainValue(layout, log, i, s.kvs[k].value)
    && s.kvs[k].mod == ChainMod(births, i)
    && s.kvs[k].version > 0
  }

  ghost predicate DataNodeOk(s: Store, log: seq<Node>, births: seq<nat>, i: nat)
    requires i < |log| == |births|
  {
    var k := DataKey(log[i].id);
    log[i].Item? ==> k in s.kvs && s.kvs[k] == KV(Payload(log[i].data), births[i], 1)
  }

  ghost predicate NoOtherKeys(layout: Layout, s: Store, log: seq<Node>) {
    && (forall id :: ChainKey(id) in s.kvs ==> OnLog(log, id))
    && (forall id :: DataKey(id) in s.kvs ==> layout.Separate? && OnItems(log, id))
  }

  /** The store holds exactly the chain described by `log`, and nothing else under chain and
      data keys. */
  ghost predicate Represents(cfg: Config, s: Store, log: seq<Node>, births: seq<nat>) {
    && WellFormed(cfg.headKey, log)
    && |births| == |log|
    && Ascending(births)
    && (forall i :: 0 <= i < |births| ==> births[i] <= s.rev)
    && (forall i :: 0 <= i < |log| ==> ChainNodeOk(cfg.layout, s, log, births, i))
    && (cfg.layout.Separate? ==> forall i :: 0 <= i < |log| ==> DataNodeOk(s, log, births, i))
    && NoOtherKeys(cfg.layout, s, log)
  }

  /** A cursor's claim about position `i`: immutable payload, true successor if it names one,
      and otherwise the revision that created the position. */
  ghost predicate Placed(log: seq<Node>, births: seq<nat>, c: Cursor, i: nat) {
    && i < |log| == |births|
    && c.id == log[i].id
    && (log[i].Item? ==> c.data == log[i].data)
    && (c.nextID == "" ==> c.revision == births[i])
    && (c.nextID != "" ==> i + 1 < |log| && c.nextID == log[i + 1].id)
  }

  ghost predicate CursorOk(log: seq<Node>, births: seq<nat>, c: Cursor) {
    exists i :: Placed(log, births, c, i)
  }

  // ---------------------------------------------------------- single steps

  /** Creating or finding the head always yields a log that starts at the head. */
  lemma HeadStep(cfg: Config, s: Store, log: seq<Node>, births: seq<nat>, d: Data)
    requires Represents(cfg, s, log, births)
    ensures var (s', r) := Exec(s, HeadTxn(cfg, d));
            var births' := if log == [] then [s.rev + 1] else births;
            && r.succeeded == (log != [])
            && Represents(cfg, s', Start(cfg.headKey, log), births')
            && (log != [] ==> s' == s && r.responses == [GetReply(Lookup(s.kvs, ChainKey(cfg.headKey)))])
            && (log == [] ==> r.responses == [PutReply(s.rev + 1),
                  GetReply(Some(KV(HeadValue(cfg.layout, d), s.rev + 1, 1)))])
  {
    var h, t := ChainKey(cfg.headKey), HeadTxn(cfg, d);
    RunOne(s.kvs, t.success[0], s.rev);
    RunTwo(s.kvs, t.failure[0], t.failure[1], s.rev + 1);
    assert t.compares[0] == VersionAbove(h, 0);
    if log == [] {
      assert t.failure[0].Put?;
    } else {
      assert ChainNodeOk(cfg.layout, s, log, births, 0);
    }
  }

  /** The append transaction succeeds exactly when the abstract append does, whichever of the
      two comparisons is used, and then the store holds the log grown by that one item. */
  lemma AppendStep(cfg: Config, lang: Language, s: Store, log: seq<Node>, births: seq<nat>,
                   cur: Cursor, i: nat, newID: string, newData: Data)
    requires Represents(cfg, s, log, births)
    requires Placed(log, births, cur, i) && cur.nextID == "" && newID != ""
    ensures var (s', r) := Exec(s, AppendTxn(cfg, lang, cur, newID, newData));
            var log' := Append(log, cur.id, newID, newData);
            var births' := if CanAppend(log, cur.id, newID) then births + [s.rev + 1] else births;
            && r.succeeded == CanAppend(log, cur.id, newID)
            && Represents(cfg, s', log', births')
            && (!r.succeeded ==> s' == s)
            && (r.succeeded ==>
                  && s'.rev == s.rev + 1
                  && r.responses != [] && r.responses[|r.responses| - 1] == PutReply(s.rev + 1))
  {
    hide Represents, Placed, Holds;
    var t := AppendTxn(cfg, lang, cur, newID, newData);
    AppendGuard(cfg, lang, s, log, births, cur, i, newID, newData);
    assert !Writes(t.failure);
    if CanAppend(log, cur.id, newID) {
      AppendEffect(cfg, lang, s, log, births, cur, i, newID, newData);
    } else {
      assert RunOps(s.kvs, [], s.rev) == (s.kvs, []);
    }
  }

  lemma AppendGuard(cfg: Config, lang: Language, s: Store, log: seq<Node>, births: seq<nat>,
                    cur: Cursor, i: nat, newID: string, newData: Data)
    requires Represents(cfg, s, log, births)
    requires Placed(log, births, cur, i) && cur.nextID == ""
    ensures Exec(s, AppendTxn(cfg, lang, cur, newID, newData)).1.succeeded == CanAppend(log, cur.id, newID)
  {
    var cmps := AppendTxn(cfg, lang, cur, newID, newData).compares;
    assert ChainNodeOk(cfg.layout, s, log, births, i);
    assert Holds(s, cmps[0]) == (i + 1 == |log|);
    assert (i + 1 == |log|) == (log[|log| - 1].id == cur.id);
    KeyIsFresh(cfg, s, log, births, newID);
    if cfg.layout.Separate? {
      assert cmps[1] == VersionIs(DataKey(newID), 0) && cmps[2] == VersionIs(ChainKey(newID), 0);
    } else {
      assert cmps[1] == VersionIs(ChainKey(newID), 0);
    }
  }

  /** A key has version 0 exactly when its id is not on the chain. */
  lemma KeyIsFresh(cfg: Config, s: Store, log: seq<Node>, births: seq<nat>, id: string)
    requires Represents(cfg, s, log, births)
    ensures Version(s, ChainKey(id)) == 0 <==> !OnLog(log, id)
    ensures ChainKey(id) in s.kvs <==> OnLog(log, id)
    ensures !OnLog(log, id) ==> DataKey(id) !in s.kvs
  {
    if OnLog(log, id) {
      var j :| 0 <= j < |log| && log[j].id == id;
      assert ChainNodeOk(cfg.layout, s, log, births, j);
    }
  }

  lemma OnLogGrows(log: seq<Node>, n: Node)
    ensures forall id :: OnLog(log + [n], id) <==> OnLog(log, id) || id == n.id
    ensures log != [] ==> forall id :: OnItems(log + [n], id) <==> OnItems(log, id) || id == n.id
  {
    var log' := log + [n];
    assert log'[|log|] == n;
    forall id | OnLog(log, id) ensures OnLog(log', id) {
      var j :| 0 <= j < |log| && log[j].id == id;
      assert log'[j].id == id;
    }
    forall id | OnItems(log, id) ensures OnItems(log', id) {
      var j :| 1 <= j < |log| && log[j].id == id;
      assert log'[j].id == id;
    }
  }

  lemma AppendEffect(cfg: Config, lang: Language, s: Store, log: seq<Node>, births: seq<nat>,
                     cur: Cursor, i: nat, newID: string, newData: Data)
    requires Represents(cfg, s, log, births)
    requires Placed(log, births, cur, i) && newID != "" && CanAppend(log, cur.id, newID)
    ensures var ops := AppendTxn(cfg, lang, cur, newID, newData).success;
            var (kvs, replies) := RunOps(s.kvs, ops, s.rev + 1);
            && Writes(ops)
            && Represents(cfg, Store(kvs, s.rev + 1), log + [Item(newID, newData)], births + [s.rev + 1])
            && replies != [] && replies[|replies| - 1] == PutReply(s.rev + 1)
  {
    var ops := AppendTxn(cfg, lang, cur, newID, newData).success;
    var r := s.rev + 1;
    var (kvs, replies) := RunOps(s.kvs, ops, r);
    assert ops[0].Put?;
    KeyIsFresh(cfg, s, log, births, newID);
    assert ChainNodeOk(cfg.layout, s, log, births, i);
    var here := ChainKey(cur.id);
    var v := s.kvs[here].version + 1;
    if cfg.layout.Separate? {
      RunThree(s.kvs, ops[0], ops[1], ops[2], r);
      assert kvs == s.kvs[here := KV(Text(newID), r, v)][DataKey(newID) := KV(Payload(newData), r, 1)]
                         [ChainKey(newID) := KV(Text(""), r, 1)];
    } else {
      RunTwo(s.kvs, ops[0], ops[1], r);
      assert kvs == s.kvs[here := KV(Cell(cur.data, newID), r, v)][ChainKey(newID) := KV(Cell(newData, ""), r, 1)];
    }
    LinkedStore(cfg, s, log, births, cur, i, newID, newData, Store(kvs, r));
  }

  /** The store with the tail relinked and the new keys added represents the grown log. */
  lemma LinkedStore(cfg: Config, s: Store, log: seq<Node>, births: seq<nat>,
                    cur: Cursor, i: nat, newID: string, newData: Data, s': Store)
    requires Represents(cfg, s, log, births)
    requires Placed(log, births, cur, i) && newID != "" && CanAppend(log, cur.id, newID)
    requires s'.rev == s.rev + 1
    requires var r, here := s'.rev, ChainKey(cur.id);
             && here in s.kvs
             && (var v := s.kvs[here].version + 1;
                 if cfg.layout.Separate? then
                   s'.kvs == s.kvs[here := KV(Text(newID), r, v)][DataKey(newID) := KV(Payload(newData), r, 1)]
                                  [ChainKey(newID) := KV(Text(""), r, 1)]
                 else
                   s'.kvs == s.kvs[here := KV(Cell(cur.data, newID), r, v)]
                                  [ChainKey(newID) := KV(Cell(newData, ""), r, 1)])
    ensures Represents(cfg, s', log + [Item(newID, newData)], births + [s'.rev])
  {
    var log', births' := log + [Item(newID, newData)], births + [s'.rev];
    AppendKeepsWellFormed(cfg.headKey, log, cur.id, newID, newData);
    OnLogGrows(log, Item(newID, newData));
    assert i + 1 == |log|;
    assert NoOtherKeys(cfg.layout, s', log');
    forall j | 0 <= j < |log'|
      ensures ChainNodeOk(cfg.layout, s', log', births', j)
    {
      if j < |log| {
        assert ChainNodeOk(cfg.layout, s, log, births, j);
        assert log[j].id != newID by { assert !OnLog(log, newID); }
      }
    }
    if cfg.layout.Separate? {
      forall j | 0 <= j < |log'|
        ensures DataNodeOk(s', log', births', j)
      {
        if j < |log| {
          assert DataNodeOk(s, log, births, j);
          assert log[j].id != newID by { assert !OnLog(log, newID); }
        }
      }
    }
  }

  // ------------------------------------------------------ what is written

  /** A missing head is created blank, or, for C# with inline data, as the pair of the caller's
      default data and no successor; nothing else changes. */
  lemma HeadWrites(cfg: Config, s: Store, d: Data)
    requires ChainKey(cfg.headKey) !in s.kvs
    ensures var v := if cfg.layout == Inline(false) then Cell(d, "") else Text("");
            Exec(s, HeadTxn(cfg, d)).0 == Store(s.kvs[ChainKey(cfg.headKey) := KV(v, s.rev + 1, 1)], s.rev + 1)
  {
    var t := HeadTxn(cfg, d);
    assert t.compares[0] == VersionAbove(ChainKey(cfg.headKey), 0) && t.failure[0].Put?;
    RunTwo(s.kvs, t.failure[0], t.failure[1], s.rev + 1);
  }

  /** A successful append writes the new id into the predecessor, next to the predecessor's data
      when data is inline, and the new item with no successor; no other key changes. */
  lemma AppendWrites(cfg: Config, lang: Language, s: Store, cur: Cursor, newID: string, newData: Data)
    requires newID != cur.id
    ensures var (s', r) := Exec(s, AppendTxn(cfg, lang, cur, newID, newData));
            var keys := {ChainKey(cur.id), ChainKey(newID)} + if cfg.layout.Separate? then {DataKey(newID)} else {};
            if !r.succeeded then s' == s
            else
              && s'.kvs.Keys == s.kvs.Keys + keys && s'.rev == s.rev + 1
              && (forall k <- keys :: s'.kvs[k].mod == s.rev + 1)
              && (forall k <- s.kvs | k !in keys :: s'.kvs[k] == s.kvs[k])
              && if cfg.layout.Separate? then
                   && s'.kvs[ChainKey(cur.id)].value == Text(newID)
                   && s'.kvs[DataKey(newID)].value == Payload(newData)
                   && s'.kvs[ChainKey(newID)].value == Text("")
                 else
                   && s'.kvs[ChainKey(cur.id)].value == Cell(cur.data, newID)
                   && s'.kvs[ChainKey(newID)].value == Cell(newData, "")
  {
    var t := AppendTxn(cfg, lang, cur, newID, newData);
    assert !Writes(t.failure) && t.success[0].Put?;
    assert RunOps(s.kvs, [], s.rev) == (s.kvs, []);
    if cfg.layout.Separate? {
      RunThree(s.kvs, t.success[0], t.success[1], t.success[2], s.rev + 1);
    } else {
      RunTwo(s.kvs, t.success[0], t.success[1], s.rev + 1);
    }
  }

  // ------------------------------------------------- consequences of a step

  /** The value comparison of C# and the revision comparison of the scripts give the same
      answer for every cursor with an empty next id: both ask whether it is still the tail. */
  lemma ComparisonsAgree(cfg: Config, s: Store, log: seq<Node>, births: seq<nat>, cur: Cursor, i: nat)
    requires cfg.layout.Separate? && Represents(cfg, s, log, births)
    requires Placed(log, births, cur, i) && cur.nextID == ""
    ensures Holds(s, ValueIs(ChainKey(cur.id), Text(""))) <==> Holds(s, ModIs(ChainKey(cur.id), cur.revision))
    ensures Holds(s, ValueIs(ChainKey(cur.id), Text(""))) <==> i + 1 == |log|
  {
    assert ChainNodeOk(cfg.layout, s, log, births, i);
  }

  /** An atomic read of an item on the chain returns a cursor placed at that item. */
  lemma ReadStep(cfg: Config, lang: Language, s: Store, log: seq<Node>, births: seq<nat>, i: nat)
    requires Represents(cfg, s, log, births) && 1 <= i < |log|
    ensures var c := ReadNode(cfg, lang, s, log[i].id);
            && c.Some?
            && Placed(log, births, c.value, i)
            && c.value.nextID == Successor(log, i)
            && (var k := if cfg.layout.Separate? && lang.CSharp? then DataKey(log[i].id) else ChainKey(log[i].id);
                k in s.kvs && c.value.revision == s.kvs[k].mod)
  {
    assert ChainNodeOk(cfg.layout, s, log, births, i);
    if cfg.layout.Separate? {
      assert DataNodeOk(s, log, births, i);
    }
  }

  /** Whatever an atomic read returns is placed. */
  lemma AnyReadStep(cfg: Config, lang: Language, s: Store, log: seq<Node>, births: seq<nat>, id: string)
    requires Represents(cfg, s, log, births) && ReadNode(cfg, lang, s, id).Some?
    ensures CursorOk(log, births, ReadNode(cfg, lang, s, id).value)
  {
    assert OnLog(log, id);
    var i :| 0 <= i < |log| && log[i].id == id;
    assert ChainNodeOk(cfg.layout, s, log, births, i);
    if cfg.layout.Separate? {
      assert OnItems(log, id);
      assert DataNodeOk(s, log, births, i);
    }
    assert Placed(log, births, ReadNode(cfg, lang, s, id).value, i);
  }

  // -------------------------------------------------- following the pointers

  /** The ids met when following next pointers from `id`, for at most `steps` nodes. */
  function Trail(cfg: Config, s: Store, id: string, steps: nat): seq<string>
    decreases steps
  {
    var k := ChainKey(id);
    if steps == 0 || k !in s.kvs then []
    else
      var next := NextOf(cfg.layout, s.kvs[k].value);
      [id] + if next.None? || next.value == "" then [] else Trail(cfg, s, next.value, steps - 1)
  }

  lemma {:induction false} TrailIsLog(cfg: Config, s: Store, log: seq<Node>, births: seq<nat>, i: nat, steps: nat)
    requires Represents(cfg, s, log, births) && i < |log| && steps >= |log| - i
    ensures Trail(cfg, s, log[i].id, steps) == Ids(log)[i..]
    decreases |log| - i
  {
    assert ChainNodeOk(cfg.layout, s, log, births, i);
    if i + 1 < |log| {
      TrailIsLog(cfg, s, log, births, i + 1, steps - 1);
    }
    assert Ids(log)[i..] == [Ids(log)[i]] + Ids(log)[i + 1..];
  }

  /** `ids` lists every chain key once, in pointer order: only the last has no successor, and
      with separate storage the data keys are exactly those of the ids after the head. */
  ghost predicate ListsChain(cfg: Config, s: Store, ids: seq<string>) {
    && (forall i, j :: 0 <= i < j < |ids| ==> ids[i] != ids[j])
    && (forall id :: ChainKey(id) in s.kvs <==> id in ids)
    && (forall i :: 0 <= i < |ids| ==> (i == |ids| - 1 <==> Unlinked(cfg, s, ids[i])))
    && (forall id :: DataKey(id) in s.kvs <==> cfg.layout.Separate? && ids != [] && id in ids[1..])
  }

  predicate Unlinked(cfg: Config, s: Store, id: string) {
    ChainKey(id) in s.kvs && NextOf(cfg.layout, s.kvs[ChainKey(id)].value) in {None, Some("")}
  }

  /** No fork, no cycle, no loss, said of the store alone: the pointers followed from the head
      key list the whole chain. */
  ghost predicate SingleList(cfg: Config, s: Store) {
    exists steps: nat :: ListsChain(cfg, s, Trail(cfg, s, cfg.headKey, steps))
  }

  lemma ChainKeysAreIds(cfg: Config, s: Store, log: seq<Node>, births: seq<nat>, id: string)
    requires Represents(cfg, s, log, births)
    ensures ChainKey(id) in s.kvs <==> id in Ids(log)
  {
    KeyIsFresh(cfg, s, log, births, id);
    var ids := Ids(log);
    if id in ids {
      var i :| 0 <= i < |ids| && ids[i] == id;
      assert log[i].id == id;
    }
  }

  lemma DataKeysAreItemIds(cfg: Config, s: Store, log: seq<Node>, births: seq<nat>, id: string)
    requires Represents(cfg, s, log, births)
    ensures DataKey(id) in s.kvs <==> cfg.layout.Separate? && log != [] && id in Ids(log)[1..]
  {
    if cfg.layout.Separate? && log != [] {
      var rest := Ids(log)[1..];
      if id in rest {
        var i :| 0 <= i < |rest| && rest[i] == id;
        assert DataNodeOk(s, log, births, i + 1);
      }
      if OnItems(log, id) {
        var i :| 1 <= i < |log| && log[i].id == id;
        assert rest[i - 1] == id;
      }
    }
  }

  lemma RepresentsIsSingleList(cfg: Config, s: Store, log: seq<Node>, births: seq<nat>)
    requires Represents(cfg, s, log, births)
    ensures SingleList(cfg, s)
  {
    var ids := Ids(log);
    forall id ensures ChainKey(id) in s.kvs <==> id in ids { ChainKeysAreIds(cfg, s, log, births, id); }
    forall id ensures DataKey(id) in s.kvs <==> cfg.layout.Separate? && ids != [] && id in ids[1..] {
      DataKeysAreItemIds(cfg, s, log, births, id);
    }
    forall i | 0 <= i < |ids| ensures i == |ids| - 1 <==> Unlinked(cfg, s, ids[i]) {
      assert ChainNodeOk(cfg.layout, s, log, births, i);
    }
    assert ListsChain(cfg, s, ids);
    if log == [] {
      assert Trail(cfg, s, cfg.headKey, 0) == ids;
    } else {
      TrailIsLog(cfg, s, log, births, 0, |log|);
      assert Trail(cfg, s, cfg.headKey, |log|) == ids;
    }
  }

  // ------------------------------------------------------------- the empty id

  /** An empty pointer ends the walk, so no walk from another key ever meets the empty id. */
  lemma {:induction false} TrailAvoidsEmptyId(cfg: Config, s: Store, id: string, steps: nat)
    requires id != ""
    ensures "" !in Trail(cfg, s, id, steps)
    decreases steps
  {
    var k := ChainKey(id);
    if steps > 0 && k in s.kvs {
      var next := NextOf(cfg.layout, s.kvs[k].value);
      if next.Some? && next.value != "" {
        TrailAvoidsEmptyId(cfg, s, next.value, steps - 1);
      }
    }
  }

  lemma EmptyIdBreaksList(cfg: Config, s: Store)
    requires cfg.headKey != "" && ChainKey("") in s.kvs
    ensures !SingleList(cfg, s)
  {
    forall steps: nat ensures !ListsChain(cfg, s, Trail(cfg, s, cfg.headKey, steps)) {
      TrailAvoidsEmptyId(cfg, s, cfg.headKey, steps);
    }
  }

  lemma EmptyIdIsStored(cfg: Config, lang: Language, s: Store, cur: Cursor, newData: Data)
    requires Exec(s, AppendTxn(cfg, lang, cur, "", newData)).1.succeeded
    ensures ChainKey("") in Exec(s, AppendTxn(cfg, lang, cur, "", newData)).0.kvs
  {
    var ops := AppendTxn(cfg, lang, cur, "", newData).success;
    assert ops[0].Put?;
    if cfg.layout.Separate? {
      RunThree(s.kvs, ops[0], ops[1], ops[2], s.rev + 1);
    } else {
      RunTwo(s.kvs, ops[0], ops[1], s.rev + 1);
    }
  }

  /** Appending an empty id is the one thing a caller must not do: when the chain's head key
      is not empty and the cursor is at the tail, the transaction reports success but leaves a
      key that no pointer leads to. In every other case the store is still one list, and holds
      a log. */
  lemma AppendKeepsChainIff(cfg: Config, lang: Language, s: Store, log: seq<Node>, births: seq<nat>,
                            cur: Cursor, i: nat, newID: string, newData: Data)
    requires Represents(cfg, s, log, births)
    requires Placed(log, births, cur, i) && cur.nextID == ""
    ensures var s' := Exec(s, AppendTxn(cfg, lang, cur, newID, newData)).0;
            && (SingleList(cfg, s') <==> !(newID == "" && cfg.headKey != "" && i + 1 == |log|))
            && (SingleList(cfg, s') <==> exists log', births' :: Represents(cfg, s', log', births'))
  {
    var s' := Exec(s, AppendTxn(cfg, lang, cur, newID, newData)).0;
    if newID == "" && cfg.headKey != "" && i + 1 == |log| {
      EmptyIdIsAccepted(cfg, lang, s, log, births, cur, i, newData);
      EmptyIdIsStored(cfg, lang, s, cur, newData);
      EmptyIdBreaksList(cfg, s');
      forall log', births' ensures !Represents(cfg, s', log', births') {
        if Represents(cfg, s', log', births') { RepresentsIsSingleList(cfg, s', log', births'); }
      }
    } else {
      var log', births' := OtherAppendsKeepLog(cfg, lang, s, log, births, cur, i, newID, newData);
      RepresentsIsSingleList(cfg, s', log', births');
    }
  }

  lemma EmptyIdIsAccepted(cfg: Config, lang: Language, s: Store, log: seq<Node>, births: seq<nat>,
                          cur: Cursor, i: nat, newData: Data)
    requires Represents(cfg, s, log, births) && cfg.headKey != ""
    requires Placed(log, births, cur, i) && cur.nextID == "" && i + 1 == |log|
    ensures Exec(s, AppendTxn(cfg, lang, cur, "", newData)).1.succeeded
  {
    AppendGuard(cfg, lang, s, log, births, cur, i, "", newData);
    assert forall j :: 0 <= j < |log| ==> log[j].id != "";
  }

  lemma OtherAppendsKeepLog(cfg: Config, lang: Language, s: Store, log: seq<Node>, births: seq<nat>,
                            cur: Cursor, i: nat, newID: string, newData: Data)
    returns (log': seq<Node>, births': seq<nat>)
    requires Represents(cfg, s, log, births)
    requires Placed(log, births, cur, i) && cur.nextID == ""
    requires !(newID == "" && cfg.headKey != "" && i + 1 == |log|)
    ensures Represents(cfg, Exec(s, AppendTxn(cfg, lang, cur, newID, newData)).0, log', births')
  {
    if newID != "" {
      AppendStep(cfg, lang, s, log, births, cur, i, newID, newData);
      log' := Append(log, cur.id, newID, newData);
      births' := if CanAppend(log, cur.id, newID) then births + [s.rev + 1] else births;
    } else {
      var t := AppendTxn(cfg, lang, cur, newID, newData);
      AppendGuard(cfg, lang, s, log, births, cur, i, newID, newData);
      assert (i + 1 == |log|) == (log[|log| - 1].id == cur.id);
      assert cfg.headKey == "" ==> OnLog(log, newID) by { assert cfg.headKey == "" ==> log[0].id == ""; }
      assert !Writes(t.failure);
      assert RunOps(s.kvs, [], s.rev) == (s.kvs, []);
      log', births' := log, births;
    }
  }
}
