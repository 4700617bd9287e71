/** The list of subscribed clients in shared memory. Its links are relative: a node stores the
    distance to its successor, and 0 at the end. Publishing appends to every live client and
    then unlinks the dead ones. */
module ClientList {

  datatype Client = Client(id: string, active: bool, next: int)

  datatype Record = Record(heartbeat: int, queue: seq<string>)

  type Heap = map<int, Client>

  const STALE_AFTER_MS := 3000

  /** Node `i` is in memory and its offset leads to node `i + 1`. */
  ghost predicate NodeAt(heap: Heap, xs: seq<int>, i: nat)
    requires i < |xs|
  {
    xs[i] in heap && heap[xs[i]].next == (if i + 1 < |xs| then xs[i + 1] - xs[i] else 0)
  }

  /** `xs` is the whole list, without repetition, so no inner offset is 0. */
  ghost predicate Linked(heap: Heap, xs: seq<int>) {
    && (forall i :: 0 <= i < |xs| ==> NodeAt(heap, xs, i))
    && (forall x <- xs :: x in heap)
    && (forall i, j :: 0 <= i < j < |xs| ==> xs[i] != xs[j])
  }

  /** A client that a publisher serves: marked active, with a record and a fresh heartbeat. */
  predicate Live(c: Client, records: map<string, Record>, now: int) {
    c.active && c.id in records && records[c.id].heartbeat + STALE_AFTER_MS >= now
  }

  function KeepLive(heap: Heap, records: map<string, Record>, now: int, xs: seq<int>): seq<int> {
    if xs == [] then []
    else
      (if xs[0] in heap && Live(heap[xs[0]], records, now) then [xs[0]] else [])
      + KeepLive(heap, records, now, xs[1..])
  }

  function KeepActive(heap: Heap, xs: seq<int>): seq<int> {
    if xs == [] then []
    else (if xs[0] in heap && heap[xs[0]].active then [xs[0]] else []) + KeepActive(heap, xs[1..])
  }

  lemma {:induction false} KeepAgrees(heap: Heap, records: map<string, Record>, now: int, heap': Heap, xs: seq<int>)
    requires forall x <- xs :: x in heap && x in heap' && heap'[x].active == Live(heap[x], records, now)
    ensures KeepActive(heap', xs) == KeepLive(heap, records, now, xs)
    decreases |xs|
  {
    if xs != [] {
      var x := xs[0];
      assert x in xs;
      assert xs == [xs[0]] + xs[1..];
      KeepAgrees(heap, records, now, heap', xs[1..]);
    }
  }

  lemma {:induction false} KeepAll(heap: Heap, xs: seq<int>)
    requires forall x <- xs :: x in heap && heap[x].active
    ensures KeepActive(heap, xs) == xs
    decreases |xs|
  {
    if xs != [] {
      var x := xs[0];
      assert x in xs;
      assert xs == [xs[0]] + xs[1..];
      KeepAll(heap, xs[1..]);
    }
  }

  lemma {:induction false} KeepFrame(heap: Heap, heap': Heap, xs: seq<int>)
    requires forall x <- xs :: x in heap && x in heap' && heap'[x].active == heap[x].active
    ensures KeepActive(heap', xs) == KeepActive(heap, xs)
    decreases |xs|
  {
    if xs != [] {
      var x := xs[0];
      assert x in xs;
      assert xs == [xs[0]] + xs[1..];
      KeepFrame(heap, heap', xs[1..]);
    }
  }

  lemma KeepFirst(heap: Heap, xs: seq<int>)
    requires xs != []
    ensures xs[0] in heap && heap[xs[0]].active ==> KeepActive(heap, xs) == [xs[0]] + KeepActive(heap, xs[1..])
    ensures !(xs[0] in heap && heap[xs[0]].active) ==> KeepActive(heap, xs) == KeepActive(heap, xs[1..])
    ensures |xs| == 1 ==> KeepActive(heap, xs[1..]) == []
  {
  }

  /** `ys` is `xs` with some of its nodes dropped. */
  predicate Within(ys: seq<int>, xs: seq<int>)
    decreases |xs|
  {
    ys == [] || (xs != [] && if ys[0] == xs[0] then Within(ys[1..], xs[1..]) else Within(ys, xs[1..]))
  }

  lemma {:induction false} KeepActiveIff(heap: Heap, xs: seq<int>)
    requires forall i, j :: 0 <= i < j < |xs| ==> xs[i] != xs[j]
    ensures forall x :: x in KeepActive(heap, xs) <==> x in xs && x in heap && heap[x].active
    ensures Within(KeepActive(heap, xs), xs)
    decreases |xs|
  {
    if xs != [] {
      assert xs == [xs[0]] + xs[1..];
      KeepActiveIff(heap, xs[1..]);
      if xs[0] in heap && heap[xs[0]].active {
        assert KeepActive(heap, xs)[1..] == KeepActive(heap, xs[1..]);
      } else {
        assert xs[0] !in xs[1..];
        assert KeepActive(heap, xs) == KeepActive(heap, xs[1..]);
        assert KeepActive(heap, xs) != [] ==> KeepActive(heap, xs)[0] in KeepActive(heap, xs);
      }
    }
  }

  /** The client of some node behind the head is active and has this id. */
  ghost predicate Listed(heap: Heap, xs: seq<int>, id: string)
    requires xs != []
  {
    exists x <- xs[1..] :: x in heap && heap[x].active && heap[x].id == id
  }

  lemma ServedIsListed(h: Heap, r: map<string, Record>, now: int, heap: Heap, xs: seq<int>, id: string)
    requires xs != []
    requires forall x <- xs[1..] :: x in h && x in heap && heap[x] == h[x].(active := Live(h[x], r, now))
    ensures Served(h, r, now, xs, |xs| - 1, id) <==> Listed(heap, xs, id)
  {
    forall j | 1 <= j < |xs| && ServedAt(h, r, now, xs, j, id) ensures Listed(heap, xs, id) {
      assert xs[1..][j - 1] == xs[j];
    }
    forall x <- xs[1..] | heap[x].active && heap[x].id == id ensures Served(h, r, now, xs, |xs| - 1, id) {
      var j: nat :| j < |xs| - 1 && xs[1..][j] == x;
      assert ServedAt(h, r, now, xs, j + 1, id);
    }
  }

  /** Dropping inactive nodes keeps the same clients listed. */
  lemma StillListed(heap: Heap, xs: seq<int>, heap': Heap, ys: seq<int>, id: string)
    requires xs != [] && Linked(heap, xs) && ys == [xs[0]] + KeepActive(heap, xs[1..])
    requires SameClients(heap, heap') && forall y <- ys :: y in heap'
    ensures Listed(heap', ys, id) <==> Listed(heap, xs, id)
  {
    KeepActiveIff(heap, xs[1..]);
    assert ys[1..] == KeepActive(heap, xs[1..]);
    forall x <- xs[1..] | x in heap && heap[x].active
      ensures x in heap' && heap'[x].active && heap'[x].id == heap[x].id
    {
      assert x in ys[1..];
      assert x in ys;
    }
  }

  // -------------------------------------------------------------- list edits

  /** Writing the sum of the two offsets into the predecessor unlinks the node between. */
  lemma Unlink(heap: Heap, kept: seq<int>, rest: seq<int>)
    requires Linked(heap, kept + rest) && kept != [] && |rest| > 1
    ensures var p, q := kept[|kept| - 1], rest[0];
            && p in heap && q in heap
            && heap[p].next + heap[q].next != 0
            && p + heap[p].next + heap[q].next == rest[1]
            && Linked(heap[p := heap[p].(next := heap[p].next + heap[q].next)] - {q}, kept + rest[1..])
  {
    var xs, k := kept + rest, |kept|;
    var p, q := kept[k - 1], rest[0];
    assert xs[k - 1] == p && xs[k] == q && xs[k + 1] == rest[1];
    assert NodeAt(heap, xs, k - 1) && NodeAt(heap, xs, k);
    var heap' := heap[p := heap[p].(next := heap[p].next + heap[q].next)] - {q};
    EditedLinks(heap, heap', xs, k, kept + rest[1..]);
  }

  /** Unlinking the last node leaves a list that ends at its predecessor. */
  lemma UnlinkLast(heap: Heap, kept: seq<int>, q: int)
    requires Linked(heap, kept + [q]) && kept != []
    ensures var p := kept[|kept| - 1];
            p in heap && q in heap && Linked(heap[p := heap[p].(next := 0)] - {q}, kept)
  {
    var xs, k := kept + [q], |kept|;
    var p := kept[k - 1];
    assert xs[k - 1] == p && xs[k] == q;
    assert NodeAt(heap, xs, k - 1) && NodeAt(heap, xs, k);
    EditedLinks(heap, heap[p := heap[p].(next := 0)] - {q}, xs, k, kept);
  }

  /** Dropping position `k` from the list, with the link before it corrected. */
  lemma EditedLinks(heap: Heap, heap': Heap, xs: seq<int>, k: nat, ys: seq<int>)
    requires Linked(heap, xs) && 0 < k < |xs| && ys == xs[..k] + xs[k + 1..]
    requires forall x <- xs :: x != xs[k] ==> x in heap'
    requires forall x <- xs :: x != xs[k] && x != xs[k - 1] ==> x in heap && heap'[x] == heap[x]
    requires xs[k - 1] in heap' && heap'[xs[k - 1]].next == if k + 1 < |xs| then xs[k + 1] - xs[k - 1] else 0
    ensures Linked(heap', ys)
  {
    forall i | 0 <= i < |ys| ensures NodeAt(heap', ys, i) {
      if i < k {
        assert ys[i] == xs[i] && NodeAt(heap, xs, i);
      } else {
        assert ys[i] == xs[i + 1] && NodeAt(heap, xs, i + 1);
      }
    }
    forall i, j | 0 <= i < j < |ys| ensures ys[i] != ys[j] {
      assert xs[if i < k then i else i + 1] != xs[if j < k then j else j + 1];
    }
  }

  lemma Extend(heap: Heap, xs: seq<int>, x: int, c: Client)
    requires Linked(heap, xs) && xs != [] && x !in heap && c.next == 0
    ensures var p := xs[|xs| - 1];
            p in heap && Linked(heap[x := c][p := heap[p].(next := x - p)], xs + [x])
  {
    var p, ys := xs[|xs| - 1], xs + [x];
    assert NodeAt(heap, xs, |xs| - 1);
    var heap' := heap[x := c][p := heap[p].(next := x - p)];
    forall i | 0 <= i < |ys| ensures NodeAt(heap', ys, i) {
      if i < |xs| { assert NodeAt(heap, xs, i); }
    }
  }

  /** Client ids are random and never repeat; the head is no client. */
  ghost predicate UniqueIds(heap: Heap, head: int) {
    forall x <- heap, y <- heap :: x != head && y != head && heap[x].id == heap[y].id ==> x == y
  }

  /** Some node among positions 1 to `upTo` has this id and is served. */
  ghost predicate Served(heap: Heap, records: map<string, Record>, now: int, xs: seq<int>, upTo: nat, id: string) {
    exists j :: 1 <= j <= upTo && j < |xs| && ServedAt(heap, records, now, xs, j, id)
  }

  ghost predicate ServedAt(heap: Heap, records: map<string, Record>, now: int, xs: seq<int>, j: nat, id: string)
    requires j < |xs|
  {
    xs[j] in heap && heap[xs[j]].id == id && Live(heap[xs[j]], records, now)
  }

  lemma ServedNext(heap: Heap, records: map<string, Record>, now: int, xs: seq<int>, upTo: nat, id: string)
    requires upTo + 1 < |xs|
    ensures Served(heap, records, now, xs, upTo + 1, id)
            <==> Served(heap, records, now, xs, upTo, id) || ServedAt(heap, records, now, xs, upTo + 1, id)
  {
  }

  /** With unique ids a client is served by its own node only. */
  lemma ServedOnce(heap: Heap, records: map<string, Record>, now: int, xs: seq<int>, upTo: nat)
    requires upTo + 1 < |xs| && Linked(heap, xs) && UniqueIds(heap, xs[0]) && xs[upTo + 1] in heap
    ensures !Served(heap, records, now, xs, upTo, heap[xs[upTo + 1]].id)
  {
  }

  class Segment {
    const head: int
    var heap: Heap
    var records: map<string, Record>
    // The nodes in list order, head first.
    ghost var nodes: seq<int>

    ghost predicate Valid()
      reads this
    {
      WholeList(heap, nodes, head)
    }

    constructor (head: int)
      ensures Valid() && this.head == head && nodes == [head] && records == map[]
    {
      this.head := head;
      heap, records, nodes := map[head := Client("", true, 0)], map[], [head];
    }

    /** A new subscription walks to the end of the list and links itself there. */
    method Insert(at: int, id: string, heartbeat: int)
      requires Valid() && at !in heap && id !in records
      requires forall x <- heap :: x != head ==> heap[x].id != id
      modifies this
      ensures Valid() && nodes == old(nodes) + [at]
      ensures heap.Keys == old(heap.Keys) + {at} && heap[at] == Client(id, true, 0)
      ensures forall x <- old(heap) :: heap[x].id == old(heap)[x].id && heap[x].active == old(heap)[x].active
      ensures records == old(records)[id := Record(heartbeat, [])]
    {
      records := records[id := Record(heartbeat, [])];
      var p := FindLast();
      var c := Client(id, true, 0);
      InsertKeepsWhole(heap, nodes, head, at, c);
      hide WholeList;
      heap := heap[at := c][p := heap[p].(next := at - p)];
      nodes := nodes + [at];
    }

    /** Follows the offsets until one is 0. */
    method FindLast() returns (p: int)
      requires Valid()
      ensures nodes != [] && p == nodes[|nodes| - 1] && p in heap
    {
      p := head;
      ghost var i := 0;
      assert NodeAt(heap, nodes, 0);
      while heap[p].next != 0
        invariant 0 <= i < |nodes| && p == nodes[i] && NodeAt(heap, nodes, i)
        decreases |nodes| - i
      {
        p, i := p + heap[p].next, i + 1;
        assert NodeAt(heap, nodes, i);
      }
      LastIffZero(heap, nodes, i);
    }

    /** Serves every live client once, marks the others dead, and unlinks the dead: the list
        that remains is the old one filtered to its live clients, in the same order. */
    method Publish(msg: string, now: int)
      requires Valid()
      modifies this
      ensures Valid()
      ensures nodes == [head] + KeepLive(old(heap), old(records), now, old(nodes)[1..])
      ensures forall x <- heap :: x in old(heap) && heap[x].id == old(heap)[x].id
      ensures nodes != [] && nodes[0] == head && Within(nodes, old(nodes))
      ensures forall x <- old(nodes)[1..] :: x in old(heap)
      ensures forall x <- old(nodes)[1..] ::
                x in nodes <==> && old(heap)[x].active && old(heap)[x].id in old(records)
                                && old(records)[old(heap)[x].id].heartbeat >= now - 3000
      ensures forall x <- nodes[1..] :: x in heap && heap[x].active
      ensures records.Keys == old(records.Keys)
      ensures forall id <- records ::
                && records[id].heartbeat == old(records)[id].heartbeat
                && records[id].queue
                   == old(records)[id].queue
                      + if exists x <- nodes[1..] :: x in heap && heap[x].active && heap[x].id == id then [msg] else []
    {
      LastIffZero(heap, nodes, 0);
      if heap[head].next == 0 {
        assert nodes == [head];
        return;
      }
      var hasInactive := Serve(msg, now);
      ghost var served := heap;
      KeepAgrees(old(heap), old(records), now, heap, nodes[1..]);
      if hasInactive {
        Sweep();
      } else {
        KeepAll(heap, nodes[1..]);
        assert nodes == [head] + nodes[1..];
      }
      PublishedNodes(served, old(nodes), heap, nodes);
    }

    /** The first pass: every client is either served or marked dead. */
    method Serve(msg: string, now: int) returns (hasInactive: bool)
      requires Valid()
      modifies this`heap, this`records
      ensures Valid() && forall x <- heap :: x in old(heap) && heap[x].id == old(heap)[x].id
      ensures forall x <- nodes[1..] ::
                && x in old(heap)
                && heap[x] == old(heap)[x].(active := Live(old(heap)[x], old(records), now))
      ensures forall x <- nodes[1..] ::
                heap[x].active <==> && old(heap)[x].active && old(heap)[x].id in old(records)
                                    && old(records)[old(heap)[x].id].heartbeat >= now - 3000
      ensures records.Keys == old(records.Keys)
      ensures forall id <- records ::
                && records[id].heartbeat == old(records)[id].heartbeat
                && records[id].queue
                   == old(records)[id].queue
                      + if exists x <- nodes[1..] :: x in heap && heap[x].active && heap[x].id == id then [msg] else []
      ensures !hasInactive ==> forall x <- nodes[1..] :: x in heap && heap[x].active
    {
      hide Pass, WholeList, Linked;
      ghost var h, r := heap, records;
      PassStart(heap, records, now, nodes, head, msg);
      var p := head;
      ghost var i: nat := 0;
      hasInactive := false;
      while true
        invariant i < |nodes| && p == nodes[i]
        invariant Pass(h, r, now, nodes, i, msg, heap, records)
        invariant hasInactive == AnyDead(h, r, now, nodes, i)
        decreases |nodes| - i
      {
        PassAt(h, r, now, nodes, i, msg, heap, records);
        var n := heap[p].next;
        if n == 0 {
          break;
        }
        p, i := p + n, i + 1;
        PassStep(h, r, now, nodes, i, msg, heap, records);
        var c := heap[p];
        if !c.active || c.id !in records {
          heap := heap[p := c.(active := false)];
          hasInactive := true;
        } else if records[c.id].heartbeat + STALE_AFTER_MS < now {
          heap := heap[p := c.(active := false)];
          hasInactive := true;
        } else {
          records := records[c.id := records[c.id].(queue := records[c.id].queue + [msg])];
        }
      }
      PassDone(h, r, now, nodes, head, msg, heap, records);
      GainedIfListed(h, r, now, heap, nodes, msg, records);
    }

    /** The second pass: inactive nodes are unlinked and freed, the others stay in order. */
    method Sweep()
      requires Valid()
      modifies this`heap, this`nodes
      ensures Valid() && nodes == [head] + KeepActive(old(heap), old(nodes)[1..])
      ensures SameClients(old(heap), heap)
    {
      hide Sweeping, WholeList, KeepActive, Linked;
      ghost var was := heap;
      SweepStart(heap, nodes, head);
      var p := head;
      if heap[p].next == 0 {
        return;
      }
      var q := p + heap[p].next;
      ghost var kept, rest := [head], nodes[1..];
      while true
        invariant Sweeping(was, old(nodes), heap, nodes, kept, rest)
        invariant kept != [] && p == kept[|kept| - 1]
        invariant rest != [] && q == rest[0]
        decreases |rest|
      {
        SweepStep(was, old(nodes), heap, nodes, kept, rest);
        var qNext := heap[q].next;
        if !heap[q].active {
          // Nobody else changes the list, so the compare-and-swap on p succeeds.
          var newVal := if qNext == 0 then 0 else heap[p].next + qNext;
          heap := heap[p := heap[p].(next := newVal)] - {q};
          rest := rest[1..];
          nodes := kept + rest;
          if qNext == 0 {
            return;
          }
          q := q + qNext;
        } else {
          kept, rest := kept + [q], rest[1..];
          if qNext == 0 {
            return;
          }
          p, q := q, q + qNext;
        }
      }
    }
  }

  lemma GainedIfListed(h: Heap, r: map<string, Record>, now: int, heap: Heap, xs: seq<int>, msg: string,
                       records: map<string, Record>)
    requires xs != [] && Gained(h, r, now, xs, |xs| - 1, msg, records)
    requires forall x <- xs[1..] :: x in h && x in heap && heap[x] == h[x].(active := Live(h[x], r, now))
    ensures forall id <- records :: records[id].queue == r[id].queue + if Listed(heap, xs, id) then [msg] else []
  {
    forall id <- records ensures Served(h, r, now, xs, |xs| - 1, id) <==> Listed(heap, xs, id) {
      ServedIsListed(h, r, now, heap, xs, id);
    }
  }

  /** What the second pass leaves, or the first one when it found nobody dead. */
  lemma PublishedNodes(heap: Heap, xs: seq<int>, heap': Heap, ys: seq<int>)
    requires xs != [] && Linked(heap, xs) && ys == [xs[0]] + KeepActive(heap, xs[1..])
    requires SameClients(heap, heap') && forall y <- ys :: y in heap'
    ensures Within(ys, xs)
    ensures forall x <- xs[1..] :: x in ys <==> heap[x].active
    ensures forall x <- ys[1..] :: x in heap' && heap'[x].active
    ensures forall id :: Listed(heap', ys, id) <==> Listed(heap, xs, id)
  {
    KeepActiveIff(heap, xs[1..]);
    assert ys[1..] == KeepActive(heap, xs[1..]);
    forall id ensures Listed(heap', ys, id) <==> Listed(heap, xs, id) {
      StillListed(heap, xs, heap', ys, id);
    }
    forall x <- xs[1..] ensures x != xs[0] && x in heap {
      var j: nat :| j < |xs| - 1 && xs[1..][j] == x;
      assert xs[0] != xs[j + 1];
    }
  }

  lemma InsertKeepsWhole(heap: Heap, xs: seq<int>, head: int, at: int, c: Client)
    requires WholeList(heap, xs, head) && at !in heap && c.next == 0
    requires forall x <- heap :: x != head ==> heap[x].id != c.id
    ensures var p := xs[|xs| - 1];
            p in heap && WholeList(heap[at := c][p := heap[p].(next := at - p)], xs + [at], head)
  {
    Extend(heap, xs, at, c);
    hide Linked;
  }

  /** The heap is exactly the list that starts at the head. */
  ghost predicate WholeList(heap: Heap, xs: seq<int>, head: int) {
    && xs != [] && xs[0] == head
    && Linked(heap, xs)
    && (forall x <- heap :: x in xs)
    && UniqueIds(heap, head)
  }

  // ---------------------------------------------------------- the first pass

  /** Positions 1 to `i` are treated, the rest is as it was. */
  ghost predicate Pass(h: Heap, r: map<string, Record>, now: int, xs: seq<int>, i: nat, msg: string,
                       heap: Heap, records: map<string, Record>)
  {
    && i < |xs|
    && Linked(h, xs) && UniqueIds(h, xs[0])
    && heap.Keys == h.Keys
    && (forall j :: 0 <= j < |xs| ==> Treated(h, r, now, xs, j, i, heap))
    && Gained(h, r, now, xs, i, msg, records)
  }

  ghost predicate Treated(h: Heap, r: map<string, Record>, now: int, xs: seq<int>, j: nat, i: nat, heap: Heap)
    requires j < |xs|
  {
    && xs[j] in h && xs[j] in heap
    && heap[xs[j]] == h[xs[j]].(active := if 1 <= j <= i then Live(h[xs[j]], r, now) else h[xs[j]].active)
  }

  lemma PassLinks(h: Heap, r: map<string, Record>, now: int, xs: seq<int>, i: nat, msg: string,
                  heap: Heap, records: map<string, Record>)
    requires Pass(h, r, now, xs, i, msg, heap, records)
    ensures Linked(heap, xs)
  {
    forall j | 0 <= j < |xs| ensures NodeAt(heap, xs, j) {
      assert NodeAt(h, xs, j);
      assert Treated(h, r, now, xs, j, i, heap);
    }
  }

  /** Some client among positions 1 to `i` is not live. */
  ghost predicate AnyDead(h: Heap, r: map<string, Record>, now: int, xs: seq<int>, i: nat) {
    exists j :: 1 <= j <= i && j < |xs| && DeadAt(h, r, now, xs, j)
  }

  ghost predicate DeadAt(h: Heap, r: map<string, Record>, now: int, xs: seq<int>, j: nat)
    requires j < |xs|
  {
    xs[j] in h && !Live(h[xs[j]], r, now)
  }

  lemma PassStart(h: Heap, r: map<string, Record>, now: int, xs: seq<int>, head: int, msg: string)
    requires WholeList(h, xs, head)
    ensures Pass(h, r, now, xs, 0, msg, h, r) && !AnyDead(h, r, now, xs, 0) && xs != [] && xs[0] == head
  {
    forall j | 0 <= j < |xs| ensures Treated(h, r, now, xs, j, 0, h) {
      assert NodeAt(h, xs, j);
    }
  }

  lemma PassAt(h: Heap, r: map<string, Record>, now: int, xs: seq<int>, i: nat, msg: string,
               heap: Heap, records: map<string, Record>)
    requires Pass(h, r, now, xs, i, msg, heap, records)
    ensures i < |xs| && xs[i] in heap
    ensures heap[xs[i]].next == 0 <==> i + 1 == |xs|
    ensures i + 1 < |xs| ==> xs[i] + heap[xs[i]].next == xs[i + 1]
  {
    PassLinks(h, r, now, xs, i, msg, heap, records);
    LastIffZero(heap, xs, i);
    assert NodeAt(heap, xs, i);
  }

  function Visited(heap: Heap, records: map<string, Record>, p: int, now: int, msg: string)
    : (Heap, map<string, Record>)
    requires p in heap
  {
    var c := heap[p];
    if Live(c, records, now) then
      (heap, records[c.id := records[c.id].(queue := records[c.id].queue + [msg])])
    else (heap[p := c.(active := false)], records)
  }

  lemma PassStep(h: Heap, r: map<string, Record>, now: int, xs: seq<int>, i: nat, msg: string,
                 heap: Heap, records: map<string, Record>)
    requires 0 < i < |xs| && Pass(h, r, now, xs, i - 1, msg, heap, records)
    ensures xs[i] in h && xs[i] in heap && heap[xs[i]] == h[xs[i]]
    ensures Live(heap[xs[i]], records, now) == Live(h[xs[i]], r, now)
    ensures var (heap', records') := Visited(heap, records, xs[i], now, msg);
            Pass(h, r, now, xs, i, msg, heap', records')
    ensures AnyDead(h, r, now, xs, i) <==> AnyDead(h, r, now, xs, i - 1) || !Live(h[xs[i]], r, now)
  {
    assert Treated(h, r, now, xs, i, i - 1, heap);
    assert AnyDead(h, r, now, xs, i) <==> AnyDead(h, r, now, xs, i - 1) || DeadAt(h, r, now, xs, i);
    var (heap', records') := Visited(heap, records, xs[i], now, msg);
    forall j | 0 <= j < |xs|
      ensures Treated(h, r, now, xs, j, i, heap')
    {
      assert Treated(h, r, now, xs, j, i - 1, heap);
    }
    ServedOnce(h, r, now, xs, i - 1);
    GainStep(h, r, now, xs, i, msg, records);
  }

  lemma GainStep(h: Heap, r: map<string, Record>, now: int, xs: seq<int>, i: nat, msg: string,
                 records: map<string, Record>)
    requires 0 < i < |xs| && xs[i] in h && Gained(h, r, now, xs, i - 1, msg, records)
    requires !Served(h, r, now, xs, i - 1, h[xs[i]].id)
    ensures var c := h[xs[i]];
            Gained(h, r, now, xs, i, msg,
              if !Live(c, r, now) then records
              else records[c.id := records[c.id].(queue := records[c.id].queue + [msg])])
  {
    forall id <- r
      ensures Served(h, r, now, xs, i, id) <==> Served(h, r, now, xs, i - 1, id) || ServedAt(h, r, now, xs, i, id)
    {
      ServedNext(h, r, now, xs, i - 1, id);
    }
  }

  lemma PassDone(h: Heap, r: map<string, Record>, now: int, xs: seq<int>, head: int, msg: string,
                 heap: Heap, records: map<string, Record>)
    requires WholeList(h, xs, head) && Pass(h, r, now, xs, |xs| - 1, msg, heap, records)
    ensures WholeList(heap, xs, head) && Gained(h, r, now, xs, |xs| - 1, msg, records)
    ensures forall x <- heap :: x in h && heap[x].id == h[x].id
    ensures forall x <- xs[1..] :: x in h && x in heap && heap[x] == h[x].(active := Live(h[x], r, now))
    ensures !AnyDead(h, r, now, xs, |xs| - 1) ==> forall x <- xs[1..] :: x in heap && heap[x].active
  {
    PassLinks(h, r, now, xs, |xs| - 1, msg, heap, records);
    forall x <- heap
      ensures x in h && heap[x].id == h[x].id
    {
      var j :| 0 <= j < |xs| && xs[j] == x;
      assert Treated(h, r, now, xs, j, |xs| - 1, heap);
    }
    forall x <- xs[1..]
      ensures x in h && x in heap && heap[x] == h[x].(active := Live(h[x], r, now))
    {
      var j :| 0 <= j < |xs| - 1 && xs[1..][j] == x;
      assert Treated(h, r, now, xs, j + 1, |xs| - 1, heap);
    }
    if !AnyDead(h, r, now, xs, |xs| - 1) {
      forall x <- xs[1..] ensures heap[x].active {
        var j :| 0 <= j < |xs| - 1 && xs[1..][j] == x;
        assert !DeadAt(h, r, now, xs, j + 1);
      }
    }
  }

  // --------------------------------------------------------- the second pass

  /** `kept` is settled, `rest` is still to be looked at. */
  ghost predicate Sweeping(was: Heap, xs: seq<int>, heap: Heap, nodes: seq<int>, kept: seq<int>, rest: seq<int>) {
    && xs != [] && kept != [] && rest != []
    && nodes == kept + rest
    && WholeList(heap, nodes, xs[0])
    && SameClients(was, heap)
    && kept + KeepActive(was, rest) == [xs[0]] + KeepActive(was, xs[1..])
  }

  /** The sweep is over with `nodes` as the list. */
  ghost predicate Swept(was: Heap, xs: seq<int>, heap: Heap, nodes: seq<int>)
    requires xs != []
  {
    WholeList(heap, nodes, xs[0]) && SameClients(was, heap) && nodes == [xs[0]] + KeepActive(was, xs[1..])
  }

  /** The heap after `rest[0]` is unlinked from behind the last kept node. */
  function Unlinked(heap: Heap, p: int, q: int): Heap
    requires p in heap && q in heap
  {
    heap[p := heap[p].(next := if heap[q].next == 0 then 0 else heap[p].next + heap[q].next)] - {q}
  }

  lemma SweepStart(heap: Heap, xs: seq<int>, head: int)
    requires WholeList(heap, xs, head)
    ensures head in heap && xs != [] && xs[0] == head
    ensures heap[head].next == 0 ==> Swept(heap, xs, heap, xs)
    ensures heap[head].next != 0 ==>
              Sweeping(heap, xs, heap, xs, [head], xs[1..]) && |xs| > 1 && head + heap[head].next == xs[1]
  {
    LastIffZero(heap, xs, 0);
    assert NodeAt(heap, xs, 0);
    assert xs == [head] + xs[1..];
  }

  /** One round at `rest[0]`: unlink it if it is inactive, keep it otherwise; stop at the end. */
  lemma SweepStep(was: Heap, xs: seq<int>, heap: Heap, nodes: seq<int>, kept: seq<int>, rest: seq<int>)
    requires Sweeping(was, xs, heap, nodes, kept, rest)
    ensures kept != [] && rest != [] && xs != []
    ensures var p, q := kept[|kept| - 1], rest[0];
            && p in heap && q in heap
            && (heap[q].next == 0 <==> |rest| == 1)
            && (|rest| > 1 ==> q + heap[q].next == rest[1])
            && (if heap[q].active then
                  if |rest| > 1 then Sweeping(was, xs, heap, nodes, kept + [q], rest[1..])
                  else Swept(was, xs, heap, nodes)
                else
                  if |rest| > 1 then Sweeping(was, xs, Unlinked(heap, p, q), kept + rest[1..], kept, rest[1..])
                  else Swept(was, xs, Unlinked(heap, p, q), kept + rest[1..]))
  {
    hide WholeList, KeepActive;
    var p, q := kept[|kept| - 1], rest[0];
    UnlinkKeepsWhole(heap, kept, rest, xs[0]);
    KeepFirst(was, rest);
    assert q in was && heap[q].active == was[q].active;
    if heap[q].active {
      assert kept + rest == (kept + [q]) + rest[1..];
      assert (kept + [q]) + KeepActive(was, rest[1..]) == kept + KeepActive(was, rest);
    } else {
      SameClientsTrans(was, heap, Unlinked(heap, p, q));
    }
  }

  lemma SameClientsTrans(was: Heap, heap: Heap, heap': Heap)
    requires SameClients(was, heap) && SameClients(heap, heap')
    ensures SameClients(was, heap')
  {
  }

  lemma UnlinkKeepsWhole(heap: Heap, kept: seq<int>, rest: seq<int>, head: int)
    requires WholeList(heap, kept + rest, head) && kept != [] && rest != []
    ensures var p, q := kept[|kept| - 1], rest[0];
            && p in heap && q in heap
            && (heap[q].next == 0 <==> |rest| == 1)
            && (|rest| > 1 ==> q + heap[q].next == rest[1])
            && WholeList(Unlinked(heap, p, q), kept + rest[1..], head)
            && SameClients(heap, Unlinked(heap, p, q))
  {
    var xs, k := kept + rest, |kept|;
    assert xs[k] == rest[0] && xs[k - 1] == kept[k - 1];
    LastIffZero(heap, xs, k);
    assert NodeAt(heap, xs, k);
    if |rest| > 1 {
      assert xs[k + 1] == rest[1];
      Unlink(heap, kept, rest);
    } else {
      assert rest == [rest[0]] && rest[1..] == [] && kept + [] == kept;
      UnlinkLast(heap, kept, rest[0]);
    }
  }

  lemma LastIffZero(heap: Heap, xs: seq<int>, i: nat)
    requires Linked(heap, xs) && i < |xs|
    ensures xs[i] in heap && (heap[xs[i]].next == 0 <==> i + 1 == |xs|)
  {
    assert NodeAt(heap, xs, i);
    if i + 1 < |xs| { assert xs[i] != xs[i + 1]; }
  }

  /** Every node still there is the client it was. */
  ghost predicate SameClients(was: Heap, heap: Heap) {
    forall x <- heap :: x in was && heap[x].id == was[x].id && heap[x].active == was[x].active
  }

  /** Exactly the served clients gained exactly one queue item. */
  ghost predicate Gained(heap: Heap, records: map<string, Record>, now: int, xs: seq<int>, upTo: int, msg: string,
                         records': map<string, Record>)
    requires upTo >= 0
  {
    && records'.Keys == records.Keys
    && forall id <- records ::
         && records'[id].heartbeat == records[id].heartbeat
         && records'[id].queue == records[id].queue + if Served(heap, records, now, xs, upTo, id) then [msg] else []
  }
}
