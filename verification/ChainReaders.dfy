/** What a program sees that finds an item and then asks for the next one until there is none,
    while others append all the time: a contiguous piece of the log. */
module ChainReaders {
  import opened AppendLog
  import E = EtcdChain
  import C = CSharpChain
  import R = RedisChain
  import RC = RedisClient

  /** An item as a reader keeps it. */
  datatype Seen = Seen(id: string, data: Data)

  /** The items are those of the log from position `i` on; the head's payload is the reader's own. */
  ghost predicate Segment(log: seq<Node>, i: nat, items: seq<Seen>) {
    && i + |items| <= |log|
    && forall k :: 0 <= k < |items| ==> Shows(log[i + k], items[k])
  }

  predicate Shows(n: Node, x: Seen) {
    x.id == n.id && (n.Item? ==> x.data == n.data)
  }

  lemma SegmentGrows(log: seq<Node>, log': seq<Node>, i: nat, items: seq<Seen>)
    requires Segment(log, i, items) && log <= log'
    ensures Segment(log', i, items)
  {
    forall k | 0 <= k < |items| ensures Shows(log'[i + k], items[k]) {
      assert log'[i + k] == log[i + k];
    }
  }

  lemma SegmentExtends(log: seq<Node>, log': seq<Node>, i: nat, items: seq<Seen>, x: Seen)
    requires Segment(log, i, items) && log <= log'
    requires i + |items| < |log'| && Shows(log'[i + |items|], x)
    ensures Segment(log', i, items + [x])
  {
    SegmentGrows(log, log', i, items);
  }

  lemma SegmentJoins(log: seq<Node>, i: nat, first: Seen, rest: seq<Seen>)
    requires Segment(log, i + 1, rest) && i < |log| && Shows(log[i], first)
    ensures Segment(log, i, [first] + rest)
  {
    forall k | 0 <= k < |rest| + 1 ensures Shows(log[i + k], ([first] + rest)[k]) {
      if k > 0 { assert Shows(log[i + 1 + (k - 1)], rest[k - 1]); }
    }
  }

  lemma PlacedShows(log: seq<Node>, births: seq<nat>, c: E.Cursor, i: nat)
    requires E.Placed(log, births, c, i)
    ensures i < |log| && Shows(log[i], Seen(c.id, c.data))
  {
  }

  // --------------------------------------------------------------------- etcd

  /** All that follows the position `at`, up to the tail of the log `seen` of some moment. */
  method FollowEtcd(chain: C.SharedChain, start: E.Cursor, ghost at: nat)
    returns (items: seq<Seen>, ghost seen: seq<Node>)
    requires chain.Valid() && start in chain.cluster.issued
    requires E.Placed(chain.cluster.log, chain.cluster.births, start, at)
    modifies chain.cluster
    ensures chain.Valid() && old(chain.cluster.log) <= seen <= chain.cluster.log
    ensures Segment(chain.cluster.log, at + 1, items) && |seen| == at + 1 + |items|
  {
    hide Segment, Shows, E.Represents;
    EmptySegment(chain.cluster.log, at);
    items, seen := [], chain.cluster.log;
    var current := start;
    ghost var all := |chain.cluster.log| + chain.cluster.future;
    while true
      invariant chain.Valid() && current in chain.cluster.issued
      invariant E.Placed(chain.cluster.log, chain.cluster.births, current, at + |items|)
      invariant Segment(chain.cluster.log, at + 1, items) && old(chain.cluster.log) <= chain.cluster.log
      invariant |chain.cluster.log| + chain.cluster.future == all
      decreases all - |items| - at
    {
      ghost var log := chain.cluster.log;
      var next;
      next, seen := chain.FetchNext(current, at + |items|);
      SegmentGrows(log, chain.cluster.log, at + 1, items);
      if next.value.None? {
        return;
      }
      current := next.value.value;
      var x := Seen(current.id, current.data);
      PlacedShows(chain.cluster.log, chain.cluster.births, current, at + |items| + 1);
      SegmentExtends(log, chain.cluster.log, at + 1, items, x);
      items := items + [x];
    }
  }

  lemma EmptySegment(log: seq<Node>, at: nat)
    requires at < |log|
    ensures Segment(log, at + 1, [])
  {
  }

  /** With or without the Redis copy. Nothing is read only if the id is not found. The items are
      a piece of the final log, and reach to the tail of the log `seen` of some moment. */
  method ReadEtcd(chain: C.SharedChain, id: string, defaultData: Data)
    returns (items: seq<Seen>, ghost i: nat, ghost seen: seq<Node>)
    requires chain.Valid()
    modifies chain.cluster
    ensures chain.Valid() && old(chain.cluster.log) <= chain.cluster.log
    ensures E.OnItems(old(chain.cluster.log), id) && id != "" ==> items != []
    ensures items != [] ==>
              && items[0].id == (if id == "" then chain.cluster.cfg.headKey else id)
              && Segment(chain.cluster.log, i, items)
              && old(chain.cluster.log) <= seen <= chain.cluster.log && |seen| == i + |items|
  {
    hide Segment, Shows, E.Represents;
    items, i, seen := [], 0, chain.cluster.log;
    var found := chain.LoadUntil(id, defaultData);
    if found.Success? {
      var c := found.value;
      i :| E.Placed(chain.cluster.log, chain.cluster.births, c, i);
      ghost var log := chain.cluster.log;
      var first := Seen(c.id, c.data);
      PlacedShows(log, chain.cluster.births, c, i);
      items, seen := FollowEtcd(chain, c, i);
      assert chain.cluster.log[i] == log[i];
      SegmentJoins(chain.cluster.log, i, first, items);
      items := [first] + items;
    }
  }

  // -------------------------------------------------------------------- Redis

  /** The same on Redis, where each item takes several reads. */
  method FollowRedis(chain: RC.SharedChain, start: R.Cursor, ghost at: nat)
    returns (items: seq<Seen>, ghost seen: seq<Node>)
    requires chain.server.Valid() && R.Placed(chain.server.log, start, at)
    modifies chain.server
    ensures chain.server.Valid() && old(chain.server.log) <= seen <= chain.server.log
    ensures Segment(chain.server.log, at + 1, items) && |seen| == at + 1 + |items|
  {
    hide Segment, Shows, R.Represents;
    EmptySegment(chain.server.log, at);
    items, seen := [], chain.server.log;
    var current := start;
    ghost var all := |chain.server.log| + chain.server.future;
    while true
      invariant chain.server.Valid() && R.Placed(chain.server.log, current, at + |items|)
      invariant Segment(chain.server.log, at + 1, items) && old(chain.server.log) <= chain.server.log
      invariant |chain.server.log| + chain.server.future == all
      decreases all - |items| - at
    {
      ghost var log := chain.server.log;
      var next;
      next, seen := chain.FetchNext(current, at + |items|);
      SegmentGrows(log, chain.server.log, at + 1, items);
      if next.value.None? {
        return;
      }
      current := next.value.value;
      var x := Seen(current.id, current.data);
      RedisShows(chain.server.log, current, at + |items| + 1);
      SegmentExtends(log, chain.server.log, at + 1, items, x);
      items := items + [x];
    }
  }

  lemma RedisShows(log: seq<Node>, c: R.Cursor, i: nat)
    requires R.Placed(log, c, i)
    ensures i < |log| && Shows(log[i], Seen(c.id, c.data))
  {
  }

  method ReadRedis(chain: RC.SharedChain, id: string, defaultData: Data)
    returns (items: seq<Seen>, ghost i: nat, ghost seen: seq<Node>)
    requires chain.server.Valid()
    modifies chain.server
    ensures chain.server.Valid() && old(chain.server.log) <= chain.server.log
    ensures E.OnItems(old(chain.server.log), id) || id == "" ==> items != []
    ensures items != [] ==>
              && items[0].id == (if id == "" then chain.server.head else id)
              && Segment(chain.server.log, i, items)
              && old(chain.server.log) <= seen <= chain.server.log && |seen| == i + |items|
  {
    hide Segment, Shows, R.Represents;
    items, i, seen := [], 0, chain.server.log;
    var found := chain.LoadUntil(id, defaultData);
    if found.Success? {
      var c := found.value;
      if id != "" {
        i :| 1 <= i < |chain.server.log| && R.Placed(chain.server.log, c, i);
      }
      ghost var log := chain.server.log;
      var first := Seen(c.id, c.data);
      RedisShows(log, c, i);
      items, seen := FollowRedis(chain, c, i);
      assert chain.server.log[i] == log[i];
      SegmentJoins(chain.server.log, i, first, items);
      items := [first] + items;
    }
  }
}
