/** The shared services a chain client talks to, with every other client behind `Interfere`. */
module EtcdCluster {
  import opened AppendLog
  import opened EtcdStore
  import opened EtcdChain
  import opened EtcdRuns
  import opened Wrappers

  function Entry(cache: map<string, CacheEntry>, id: string): Option<CacheEntry> {
    if id in cache then Some(cache[id]) else None
  }

  /** The item that the Redis copy holds under this id. */
  function Copied(cache: map<string, CacheEntry>, id: string): Option<Cursor> {
    if id in cache then Some(Cursor(cache[id].revision, id, cache[id].data, cache[id].next)) else None
  }

  /** The successor that the Redis copy names for this id; empty if there is no copy. */
  function CopiedNext(cache: map<string, CacheEntry>, id: string): string {
    if id in cache then cache[id].next else ""
  }

  class Cluster {
    const cfg: Config
    var store: Store
    var cache: map<string, CacheEntry>
    // History of the whole system, see EtcdRuns.World.
    ghost var log: seq<Node>
    ghost var births: seq<nat>
    ghost var issued: set<Cursor>
    ghost var committed: set<(string, CacheEntry)>
    // How many nodes the other clients will still add, and the ids they will not use.
    ghost var future: nat
    ghost var reserved: set<string>

    ghost function W(): World
      reads this
    {
      World(store, cache, log, births, issued, committed)
    }

    ghost predicate Valid()
      reads this
    {
      Inv(cfg, W())
    }

    /** A fresh cluster; `others` bounds what the other clients will add. */
    constructor (cfg: Config, ghost others: nat, ghost mine: set<string>)
      ensures Valid() && this.cfg == cfg && W() == FRESH && future == others && reserved == mine
    {
      this.cfg := cfg;
      store, cache := EMPTY, map[];
      log, births, issued, committed := [], [], {}, {};
      future, reserved := others, mine;
    }

    /** Any number of steps of any other clients. */
    method Interfere()
      requires Valid()
      modifies this
      ensures exists acts :: LegalRun(cfg, old(W()), acts) && W() == Run(cfg, old(W()), acts)
      ensures |log| + future == old(|log| + future) && reserved == old(reserved)
      ensures forall i :: old(|log|) <= i < |log| ==> log[i].id !in reserved
    {
      assert LegalRun(cfg, W(), []) && W() == Run(cfg, W(), []);
    }

    /** What this client may still rely on after the others ran. */
    method Yield()
      requires Valid()
      modifies this
      ensures Valid() && Extends(old(W()), W())
      ensures |log| + future == old(|log| + future) && reserved == old(reserved)
      ensures forall i :: old(|log|) <= i < |log| ==> log[i].id !in reserved
    {
      Interfere();
      ghost var acts :| LegalRun(cfg, old(W()), acts) && W() == Run(cfg, old(W()), acts);
      RunKeepsInv(cfg, old(W()), acts);
    }

    /** One etcd transaction, which has the effect of action `a`. */
    method Transaction(t: Txn, ghost a: Action) returns (r: TxnReply)
      requires Valid() && Legal(cfg, W(), a) && (a.FindHead? || a.ReadItem? || a.TryAppend?)
      requires Exec(store, t).0 == Step(cfg, W(), a).store
      modifies this
      ensures Valid() && W() == Step(cfg, old(W()), a) && Extends(old(W()), W())
      ensures r == Exec(old(store), t).1
      ensures future == old(future) && reserved == old(reserved)
    {
      StepKeepsInv(cfg, W(), a);
      ghost var w := Step(cfg, W(), a);
      var (s, reply) := Exec(store, t);
      store, r := s, reply;
      log, births, issued, committed := w.log, w.births, w.issued, w.committed;
    }

    /** A plain read of one etcd key. */
    method Get(k: Key) returns (kv: Option<KV>)
      ensures kv == Lookup(store.kvs, k)
    {
      kv := Lookup(store.kvs, k);
    }

    /** A read of the Redis copy; what it shows may be used as a cursor. */
    method StringGet(id: string, ghost replaced: Option<Data>) returns (e: Option<CacheEntry>)
      requires Valid() && Legal(cfg, W(), ReadCache(id, replaced))
      modifies this
      ensures Valid() && Extends(old(W()), W()) && log == old(log) && births == old(births)
      ensures cache == old(cache) && e == Entry(cache, id)
      ensures e.Some? ==> CachedCursor(id, replaced, e.value) in issued && EntryOk(log, id, e.value)
      ensures future == old(future) && reserved == old(reserved)
    {
      StepKeepsInv(cfg, W(), ReadCache(id, replaced));
      ghost var w := Step(cfg, W(), ReadCache(id, replaced));
      e := if id in cache then Some(cache[id]) else None;
      issued := w.issued;
    }

    method StringSet(id: string, e: CacheEntry)
      requires Valid() && (id, e) in committed
      modifies this
      ensures Valid() && W() == Step(cfg, old(W()), WriteCache(id, e)) && Extends(old(W()), W())
      ensures future == old(future) && reserved == old(reserved)
    {
      StepKeepsInv(cfg, W(), WriteCache(id, e));
      cache := cache[id := e];
    }
  }

  // ------------------------------------------- the transactions of the clients

  /** Reading an item: C# sends no comparison, the scripts first compare the version. */
  function LoadTxn(cfg: Config, lang: Language, id: string): Txn {
    Txn(if lang.CSharp? then [] else [VersionAbove(ChainKey(id), 0)],
        if cfg.layout.Separate? then [Get(ChainKey(id)), Get(DataKey(id))] else [Get(ChainKey(id))],
        [])
  }

  function ExistsTxn(id: string): Txn {
    Txn([VersionAbove(ChainKey(id), 0)], [], [])
  }

  lemma LoadReplies(cfg: Config, lang: Language, s: Store, id: string)
    ensures var (s', r) := Exec(s, LoadTxn(cfg, lang, id));
            && s' == s
            && r.succeeded == (lang.CSharp? || Version(s, ChainKey(id)) > 0)
            && (r.succeeded ==> |r.responses| == if cfg.layout.Separate? then 2 else 1)
            && (r.succeeded ==> r.responses[0] == GetReply(Lookup(s.kvs, ChainKey(id))))
            && (r.succeeded && cfg.layout.Separate? ==> r.responses[1] == GetReply(Lookup(s.kvs, DataKey(id))))
  {
    var t := LoadTxn(cfg, lang, id);
    assert !Writes(t.success) && !Writes(t.failure);
    assert RunOps(s.kvs, [], s.rev) == (s.kvs, []);
    if cfg.layout.Separate? {
      RunTwo(s.kvs, Get(ChainKey(id)), Get(DataKey(id)), s.rev);
    } else {
      RunOne(s.kvs, Get(ChainKey(id)), s.rev);
    }
    if lang.Script? { assert t.compares[0] == VersionAbove(ChainKey(id), 0); }
  }

  lemma ExistsReplies(s: Store, id: string)
    ensures Exec(s, ExistsTxn(id)) == (s, TxnReply(Version(s, ChainKey(id)) > 0, []))
  {
    var t := ExistsTxn(id);
    assert t.compares[0] == VersionAbove(ChainKey(id), 0);
    assert RunOps(s.kvs, [], s.rev) == (s.kvs, []);
  }

  /** Positions are determined by ids. */
  lemma SamePosition(head: string, log: seq<Node>, i: nat, j: nat)
    requires WellFormed(head, log) && i < |log| && j < |log| && log[i].id == log[j].id
    ensures i == j
  {
  }
  /** A cache entry for the id at position `i` is true of that position. */
  lemma CachedHere(cfg: Config, w: World, id: string, i: nat)
    requires Inv(cfg, w) && id in w.cache && i < |w.log| && w.log[i].id == id
    ensures var e := w.cache[id];
            EntryAt(w.log, id, e, i) && Placed(w.log, w.births, Cursor(e.revision, id, e.data, e.next), i)
  {
    var j :| EntryAt(w.log, id, w.cache[id], j);
    SamePosition(cfg.headKey, w.log, i, j);
    CacheReadIsPlaced(w.log, w.births, cfg.headKey, id, w.cache[id], None, i);
  }
}
