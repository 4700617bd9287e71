/** Runs of any number of chain clients over one etcd cluster and one Redis copy. A step is one
    atomic transaction, read or cache access; a client may use any cursor ever handed out. */
module EtcdRuns {
  import opened AppendLog
  import opened EtcdStore
  import opened EtcdChain
  import opened Wrappers

  /** `log` and `births` are history: they are moved by the abstract log alone. `issued` holds
      every cursor returned so far, `committed` the cache writes that a successful append owes. */
  datatype World = World(
    store: Store,
    cache: map<string, CacheEntry>,
    log: seq<Node>,
    births: seq<nat>,
    issued: set<Cursor>,
    committed: set<(string, CacheEntry)>)

  ghost const FRESH: World := World(EMPTY, map[], [], [], {}, {})

  datatype Action =
    | FindHead(defaultData: Data)
    | ReadItem(lang: Language, id: string)
    | TryAppend(lang: Language, cur: Cursor, newID: string, newData: Data)
    | ReadCache(id: string, replaced: Option<Data>)
    | WriteCache(id: string, entry: CacheEntry)
    | Expire(id: string)
    | SaveExtra(key: string, data: Data)

  /** What callers promise: cursors come from the interface and sit at a node without known
      successor, and new ids are not empty. Cache writes follow a committed append. */
  ghost predicate Legal(cfg: Config, w: World, a: Action) {
    match a
    case TryAppend(_, cur, newID, _) => cur in w.issued && cur.nextID == "" && newID != ""
    case WriteCache(id, entry) => (id, entry) in w.committed
    case ReadCache(id, replaced) => replaced.Some? ==> id == cfg.headKey
    case _ => true
  }

  function HeadCursor(cfg: Config, defaultData: Data, kv: KV): Cursor {
    var next := NextOf(cfg.layout, kv.value);
    Cursor(kv.mod, cfg.headKey, defaultData, if next.Some? then next.value else "")
  }

  function CachedCursor(id: string, replaced: Option<Data>, e: CacheEntry): Cursor {
    Cursor(e.revision, id, if replaced.Some? then replaced.value else e.data, e.next)
  }

  function ExtraTxn(key: string, data: Data): Txn {
    Txn([], [Put(ExtraKey(key), Payload(data))], [])
  }

  ghost function Step(cfg: Config, w: World, a: Action): World {
    match a
    case FindHead(d) =>
      var s := Exec(w.store, HeadTxn(cfg, d)).0;
      var h := ChainKey(cfg.headKey);
      w.(store := s,
         log := Start(cfg.headKey, w.log),
         births := if w.log == [] then [w.store.rev + 1] else w.births,
         issued := w.issued + if h in s.kvs then {HeadCursor(cfg, d, s.kvs[h])} else {})
    case ReadItem(lang, id) =>
      var c := ReadNode(cfg, lang, w.store, id);
      w.(issued := w.issued + if c.Some? then {c.value} else {})
    case TryAppend(lang, cur, newID, d) =>
      var (s, r) := Exec(w.store, AppendTxn(cfg, lang, cur, newID, d));
      AfterAppend(w, lang, cur, newID, d, s, r.succeeded)
    case ReadCache(id, replaced) =>
      w.(issued := w.issued + if id in w.cache then {CachedCursor(id, replaced, w.cache[id])} else {})
    case WriteCache(id, entry) => w.(cache := w.cache[id := entry])
    case Expire(id) => w.(cache := w.cache - {id})
    case SaveExtra(key, d) => w.(store := Exec(w.store, ExtraTxn(key, d)).0)
  }

  /** The world after an append transaction that left store `s` and reported `ok`. */
  ghost function AfterAppend(w: World, lang: Language, cur: Cursor, newID: string, d: Data, s: Store, ok: bool): World {
    var entry := CacheEntry(if lang.CSharp? then s.rev else cur.revision, cur.data, newID);
    w.(store := s,
       log := Append(w.log, cur.id, newID, d),
       births := if CanAppend(w.log, cur.id, newID) then w.births + [w.store.rev + 1] else w.births,
       issued := w.issued + if ok then {Cursor(s.rev, newID, d, "")} else {},
       committed := w.committed + if ok then {(cur.id, entry)} else {})
  }

  // --------------------------------------------------------------- invariant

  /** A cache entry tells the true successor, and the true payload of an item. */
  ghost predicate EntryAt(log: seq<Node>, id: string, e: CacheEntry, i: nat) {
    && i + 1 < |log|
    && log[i].id == id
    && e.next == log[i + 1].id
    && (log[i].Item? ==> e.data == log[i].data)
  }

  ghost predicate EntryOk(log: seq<Node>, id: string, e: CacheEntry) {
    exists i :: EntryAt(log, id, e, i)
  }

  ghost predicate Inv(cfg: Config, w: World) {
    && Represents(cfg, w.store, w.log, w.births)
    && (forall c <- w.issued :: CursorOk(w.log, w.births, c))
    && (forall id <- w.cache :: EntryOk(w.log, id, w.cache[id]))
    && (forall p <- w.committed :: EntryOk(w.log, p.0, p.1))
  }

  /** The log and everything handed out only ever grow. */
  ghost predicate Extends(w: World, w': World) {
    w.log <= w'.log && w.births <= w'.births && w.issued <= w'.issued && w.committed <= w'.committed
  }

  lemma PlacedStays(log: seq<Node>, births: seq<nat>, log': seq<Node>, births': seq<nat>, c: Cursor, i: nat)
    requires Placed(log, births, c, i) && log <= log' && births <= births' && |log'| == |births'|
    ensures Placed(log', births', c, i)
  {
    assert log' == log + log'[|log|..];
    assert births' == births + births'[|births|..];
  }

  lemma EntriesStay(log: seq<Node>, log': seq<Node>)
    requires log <= log'
    ensures forall id, e :: EntryOk(log, id, e) ==> EntryOk(log', id, e)
  {
    forall id, e | EntryOk(log, id, e) ensures EntryOk(log', id, e) {
      var i :| EntryAt(log, id, e, i);
      assert EntryAt(log', id, e, i);
    }
  }

  lemma CursorsStay(log: seq<Node>, births: seq<nat>, log': seq<Node>, births': seq<nat>)
    requires log <= log' && births <= births' && |log'| == |births'|
    ensures forall c :: CursorOk(log, births, c) ==> CursorOk(log', births', c)
  {
    forall c | CursorOk(log, births, c) ensures CursorOk(log', births', c) {
      var i :| Placed(log, births, c, i);
      PlacedStays(log, births, log', births', c, i);
    }
  }

  lemma FindHeadKeepsInv(cfg: Config, w: World, d: Data)
    requires Inv(cfg, w)
    ensures var w' := Step(cfg, w, FindHead(d));
            && Inv(cfg, w') && Extends(w, w')
            && ChainKey(cfg.headKey) in w'.store.kvs
            && Placed(w'.log, w'.births, HeadCursor(cfg, d, w'.store.kvs[ChainKey(cfg.headKey)]), 0)
  {
    var w' := Step(cfg, w, FindHead(d));
    HeadStep(cfg, w.store, w.log, w.births, d);
    CursorsStay(w.log, w.births, w'.log, w'.births);
    EntriesStay(w.log, w'.log);
    assert ChainNodeOk(cfg.layout, w'.store, w'.log, w'.births, 0);
    assert Placed(w'.log, w'.births, HeadCursor(cfg, d, w'.store.kvs[ChainKey(cfg.headKey)]), 0);
  }

  lemma AppendKeepsInv(cfg: Config, w: World, lang: Language, cur: Cursor, newID: string, d: Data)
    requires Inv(cfg, w) && Legal(cfg, w, TryAppend(lang, cur, newID, d))
    ensures var w' := Step(cfg, w, TryAppend(lang, cur, newID, d));
            Inv(cfg, w') && Extends(w, w')
  {
    var (s, r) := Exec(w.store, AppendTxn(cfg, lang, cur, newID, d));
    assert CursorOk(w.log, w.births, cur);
    var i :| Placed(w.log, w.births, cur, i);
    AppendStep(cfg, lang, w.store, w.log, w.births, cur, i, newID, d);
    ReplyKeepsInv(cfg, w, lang, cur, i, newID, d, s, r.succeeded);
  }

  lemma ReplyKeepsInv(cfg: Config, w: World, lang: Language, cur: Cursor, i: nat, newID: string, d: Data,
                      s: Store, ok: bool)
    requires Inv(cfg, w) && Placed(w.log, w.births, cur, i)
    requires ok == CanAppend(w.log, cur.id, newID)
    requires if ok then s.rev == w.store.rev + 1 && Represents(cfg, s, w.log + [Item(newID, d)], w.births + [s.rev])
             else s == w.store
    ensures var w' := AfterAppend(w, lang, cur, newID, d, s, ok);
            Inv(cfg, w') && Extends(w, w')
  {
    if ok {
      SuccessKeepsInv(cfg, w, lang, cur, i, newID, d, s);
    } else {
      assert AfterAppend(w, lang, cur, newID, d, s, false) == w;
    }
  }

  lemma SuccessKeepsInv(cfg: Config, w: World, lang: Language, cur: Cursor, i: nat, newID: string, d: Data, s: Store)
    requires Inv(cfg, w) && Placed(w.log, w.births, cur, i) && CanAppend(w.log, cur.id, newID)
    requires s.rev == w.store.rev + 1
    requires Represents(cfg, s, w.log + [Item(newID, d)], w.births + [s.rev])
    ensures var w' := AfterAppend(w, lang, cur, newID, d, s, true);
            Inv(cfg, w') && Extends(w, w')
  {
    var w' := AfterAppend(w, lang, cur, newID, d, s, true);
    var owed := CacheEntry(if lang.CSharp? then s.rev else cur.revision, cur.data, newID);
    AppendHandsOut(cfg.headKey, w.log, w.births, cur, i, newID, d, s.rev);
    assert EntryAt(w'.log, cur.id, owed, i);
    InvGrows(cfg, w, w', Cursor(s.rev, newID, d, ""), (cur.id, owed));
  }

  /** The new cursor and the owed cache write of a successful append are true. */
  lemma AppendHandsOut(head: string, log: seq<Node>, births: seq<nat>, cur: Cursor, i: nat,
                       newID: string, d: Data, rev: nat)
    requires WellFormed(head, log) && Placed(log, births, cur, i) && CanAppend(log, cur.id, newID)
    ensures var log', births' := log + [Item(newID, d)], births + [rev];
            && i + 1 == |log|
            && Placed(log', births', Cursor(rev, newID, d, ""), |log|)
            && forall r :: EntryAt(log', cur.id, CacheEntry(r, cur.data, newID), i)
  {
  }

  lemma InvGrows(cfg: Config, w: World, w': World, c: Cursor, p: (string, CacheEntry))
    requires Inv(cfg, w) && Represents(cfg, w'.store, w'.log, w'.births)
    requires w.log <= w'.log && w.births <= w'.births && w'.cache == w.cache
    requires w'.issued == w.issued + {c} && CursorOk(w'.log, w'.births, c)
    requires w'.committed == w.committed + {p} && EntryOk(w'.log, p.0, p.1)
    ensures Inv(cfg, w') && Extends(w, w')
  {
    CursorsStay(w.log, w.births, w'.log, w'.births);
    EntriesStay(w.log, w'.log);
  }

  /** What the client that runs the append learns from the reply. */
  lemma AppendOutcome(cfg: Config, w: World, lang: Language, cur: Cursor, i: nat, newID: string, d: Data)
    requires Inv(cfg, w) && Legal(cfg, w, TryAppend(lang, cur, newID, d)) && Placed(w.log, w.births, cur, i)
    ensures var (s, r) := Exec(w.store, AppendTxn(cfg, lang, cur, newID, d));
            var w' := Step(cfg, w, TryAppend(lang, cur, newID, d));
            && s == w'.store
            && r.succeeded == CanAppend(w.log, cur.id, newID)
            && (r.succeeded <==> |w.log| == i + 1 && !OnLog(w.log, newID))
            && (!r.succeeded ==> w'.log == w.log)
            && (r.succeeded ==>
                  && w'.log == w.log + [Item(newID, d)] && w'.births == w.births + [s.rev]
                  && r.responses != [] && r.responses[|r.responses| - 1] == PutReply(s.rev)
                  && Cursor(s.rev, newID, d, "") in w'.issued
                  && Placed(w'.log, w'.births, Cursor(s.rev, newID, d, ""), |w.log|)
                  && var owed := CacheEntry(if lang.CSharp? then s.rev else cur.revision, cur.data, newID);
                     (cur.id, owed) in w'.committed)
  {
    AppendStep(cfg, lang, w.store, w.log, w.births, cur, i, newID, d);
    if |w.log| != i + 1 {
      assert w.log[|w.log| - 1].id != w.log[i].id;
    }
    hide Represents, AppendTxn, Exec, CursorOk;
  }

  /** What the client that finds or creates the head learns from the reply. */
  lemma HeadOutcome(cfg: Config, w: World, d: Data)
    requires Inv(cfg, w)
    ensures var (s, r) := Exec(w.store, HeadTxn(cfg, d));
            var w' := Step(cfg, w, FindHead(d));
            var at := if r.succeeded then 0 else 1;
            && s == w'.store
            && at < |r.responses| && r.responses[at].GetReply? && r.responses[at].kv.Some?
            && (var kv := r.responses[at].kv.value;
                && (!r.succeeded ==> HeadCursor(cfg, d, kv).nextID == "")
                && HeadCursor(cfg, d, kv) in w'.issued
                && Placed(w'.log, w'.births, HeadCursor(cfg, d, kv), 0))
  {
    HeadStep(cfg, w.store, w.log, w.births, d);
    FindHeadKeepsInv(cfg, w, d);
    if w.log != [] { assert ChainNodeOk(cfg.layout, w.store, w.log, w.births, 0); }
    hide Represents, Inv, CursorOk, HeadTxn;
  }

  lemma CacheReadIsPlaced(log: seq<Node>, births: seq<nat>, head: string, id: string, e: CacheEntry,
                          replaced: Option<Data>, i: nat)
    requires WellFormed(head, log) && |log| == |births| && EntryAt(log, id, e, i)
    requires replaced.Some? ==> id == head
    ensures Placed(log, births, CachedCursor(id, replaced, e), i)
  {
    assert replaced.Some? ==> log[0].id == id;
  }

  lemma ExtraKeepsChain(cfg: Config, s: Store, log: seq<Node>, births: seq<nat>, key: string, d: Data)
    requires Represents(cfg, s, log, births)
    ensures var s' := Exec(s, ExtraTxn(key, d)).0;
            && Represents(cfg, s', log, births)
            && s'.kvs.Keys == s.kvs.Keys + {ExtraKey(key)} && s'.kvs[ExtraKey(key)].value == Payload(d)
            && forall k <- s.kvs :: k != ExtraKey(key) ==> s'.kvs[k] == s.kvs[k]
  {
    var t := ExtraTxn(key, d);
    var s' := Exec(s, t).0;
    assert t.success[0].Put?;
    RunOne(s.kvs, t.success[0], s.rev + 1);
    assert forall k: Key :: !k.ExtraKey? ==> (k in s'.kvs <==> k in s.kvs) && (k in s.kvs ==> s'.kvs[k] == s.kvs[k]);
    forall i | 0 <= i < |log|
      ensures ChainNodeOk(cfg.layout, s', log, births, i)
      ensures cfg.layout.Separate? ==> DataNodeOk(s', log, births, i)
    {
      assert ChainNodeOk(cfg.layout, s, log, births, i);
      if cfg.layout.Separate? { assert DataNodeOk(s, log, births, i); }
    }
  }

  lemma StepKeepsInv(cfg: Config, w: World, a: Action)
    requires Inv(cfg, w) && Legal(cfg, w, a)
    ensures Inv(cfg, Step(cfg, w, a)) && Extends(w, Step(cfg, w, a))
  {
    match a
    case FindHead(d) => FindHeadKeepsInv(cfg, w, d);
    case TryAppend(lang, cur, newID, d) => AppendKeepsInv(cfg, w, lang, cur, newID, d);
    case ReadItem(lang, id) =>
      if ReadNode(cfg, lang, w.store, id).Some? {
        AnyReadStep(cfg, lang, w.store, w.log, w.births, id);
      }
    case ReadCache(id, replaced) =>
      if id in w.cache {
        var i :| EntryAt(w.log, id, w.cache[id], i);
        CacheReadIsPlaced(w.log, w.births, cfg.headKey, id, w.cache[id], replaced, i);
      }
    case WriteCache(_, _) =>
    case Expire(_) =>
    case SaveExtra(key, d) => ExtraKeepsChain(cfg, w.store, w.log, w.births, key, d);
  }

  // --------------------------------------------------------------------- runs

  ghost predicate LegalRun(cfg: Config, w: World, acts: seq<Action>)
    decreases |acts|
  {
    acts != [] ==> Legal(cfg, w, acts[0]) && LegalRun(cfg, Step(cfg, w, acts[0]), acts[1..])
  }

  ghost function Run(cfg: Config, w: World, acts: seq<Action>): World
    decreases |acts|
  {
    if acts == [] then w else Run(cfg, Step(cfg, w, acts[0]), acts[1..])
  }

  lemma {:induction false} RunKeepsInv(cfg: Config, w: World, acts: seq<Action>)
    requires Inv(cfg, w) && LegalRun(cfg, w, acts)
    ensures Inv(cfg, Run(cfg, w, acts)) && Extends(w, Run(cfg, w, acts))
    decreases |acts|
  {
    if acts != [] {
      StepKeepsInv(cfg, w, acts[0]);
      RunKeepsInv(cfg, Step(cfg, w, acts[0]), acts[1..]);
    }
  }

  /** In every reachable state the store is one list that starts at the head key. */
  lemma EveryRunIsSingleList(cfg: Config, acts: seq<Action>)
    requires LegalRun(cfg, FRESH, acts)
    ensures SingleList(cfg, Run(cfg, FRESH, acts).store)
  {
    assert Inv(cfg, FRESH);
    RunKeepsInv(cfg, FRESH, acts);
    var w := Run(cfg, FRESH, acts);
    RepresentsIsSingleList(cfg, w.store, w.log, w.births);
  }

  /** The commands of a run as the abstract log sees them. */
  function Commands(acts: seq<Action>): seq<Command>
    decreases |acts|
  {
    if acts == [] then []
    else
      var first := match acts[0]
        case FindHead(_) => [Begin]
        case TryAppend(_, cur, newID, d) => [Add(cur.id, newID, d)]
        case _ => [];
      first + Commands(acts[1..])
  }

  /** Refinement: whatever the layout, the languages and the interleaving, the store after a run
      holds exactly the log that the abstract commands alone produce. */
  lemma {:induction false} RunRefinesLog(cfg: Config, w: World, acts: seq<Action>)
    requires Inv(cfg, w) && LegalRun(cfg, w, acts)
    ensures var w' := Run(cfg, w, acts);
            w'.log == LogRun(cfg.headKey, w.log, Commands(acts)) && Represents(cfg, w'.store, w'.log, w'.births)
    decreases |acts|
  {
    if acts != [] {
      StepKeepsInv(cfg, w, acts[0]);
      RunRefinesLog(cfg, Step(cfg, w, acts[0]), acts[1..]);
      if acts[0].FindHead? || acts[0].TryAppend? {
        assert Commands(acts)[1..] == Commands(acts[1..]);
      } else {
        assert Commands(acts) == Commands(acts[1..]);
      }
    }
  }

  lemma {:induction false} LegalPrefix(cfg: Config, w: World, acts: seq<Action>, k: nat)
    requires k < |acts| && LegalRun(cfg, w, acts)
    ensures LegalRun(cfg, w, acts[..k]) && Legal(cfg, Run(cfg, w, acts[..k]), acts[k])
    decreases k
  {
    if k > 0 {
      LegalPrefix(cfg, Step(cfg, w, acts[0]), acts[1..], k - 1);
      assert acts[..k][1..] == acts[1..][..k - 1];
    }
  }

  /** Each append of a run reports what the abstract append reports at that point. */
  lemma RunReportsLog(cfg: Config, w: World, acts: seq<Action>, k: nat)
    requires Inv(cfg, w) && LegalRun(cfg, w, acts) && k < |acts| && acts[k].TryAppend?
    ensures AppendReportsLog(cfg, w, acts, k)
  {
    LegalPrefix(cfg, w, acts, k);
    RunKeepsInv(cfg, w, acts[..k]);
    RunRefinesLog(cfg, w, acts[..k]);
    var v, a := Run(cfg, w, acts[..k]), acts[k];
    var i :| Placed(v.log, v.births, a.cur, i);
    AppendGuard(cfg, a.lang, v.store, v.log, v.births, a.cur, i, a.newID, a.newData);
  }

  /** The k-th action's transaction succeeds iff the log at that moment accepts the item. */
  ghost predicate AppendReportsLog(cfg: Config, w: World, acts: seq<Action>, k: nat)
    requires k < |acts| && acts[k].TryAppend?
  {
    var a, v := acts[k], Run(cfg, w, acts[..k]);
    Exec(v.store, AppendTxn(cfg, a.lang, a.cur, a.newID, a.newData)).1.succeeded
    <==> CanAppend(LogRun(cfg.headKey, w.log, Commands(acts[..k])), a.cur.id, a.newID)
  }

  // -------------------------------------------------------------------- cache

  /** Moving through the cache and reading etcd agree on everything but the revision, and the
      cached cursor knows its successor, so it is never one that sits at the tail. */
  lemma CacheIsTransparent(cfg: Config, w: World, lang: Language, id: string)
    requires Inv(cfg, w) && id in w.cache && id != cfg.headKey
    ensures var cached := CachedCursor(id, None, w.cache[id]);
            var read := ReadNode(cfg, lang, w.store, id);
            && read.Some?
            && cached == read.value.(revision := cached.revision)
            && cached.nextID != ""
            && w.log[|w.log| - 1].id != id
  {
    var i :| EntryAt(w.log, id, w.cache[id], i);
    assert i >= 1;
    ReadStep(cfg, lang, w.store, w.log, w.births, i);
  }

  // ------------------------------------------------------------- the empty id

  /** It takes two calls to get there: find the head, and append an empty id after it. */
  lemma EmptyIdOnFreshChain(cfg: Config, lang: Language, d: Data, newData: Data)
    requires cfg.headKey != ""
    ensures var w := Step(cfg, FRESH, FindHead(d));
            var cur := HeadCursor(cfg, d, KV(HeadValue(cfg.layout, d), 1, 1));
            && w.issued == {cur} && SingleList(cfg, w.store)
            && Exec(w.store, AppendTxn(cfg, lang, cur, "", newData)).1.succeeded
            && !SingleList(cfg, Exec(w.store, AppendTxn(cfg, lang, cur, "", newData)).0)
  {
    assert Inv(cfg, FRESH);
    var w := Step(cfg, FRESH, FindHead(d));
    HeadStep(cfg, EMPTY, [], [], d);
    FindHeadKeepsInv(cfg, FRESH, d);
    RepresentsIsSingleList(cfg, w.store, w.log, w.births);
    HeadWrites(cfg, EMPTY, d);
    var cur := HeadCursor(cfg, d, KV(HeadValue(cfg.layout, d), 1, 1));
    AppendKeepsChainIff(cfg, lang, w.store, w.log, w.births, cur, 0, "", newData);
    EmptyIdIsAccepted(cfg, lang, w.store, w.log, w.births, cur, 0, newData);
  }
}
