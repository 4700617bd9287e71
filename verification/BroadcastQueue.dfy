/** One client's queue in shared memory: publishers append with compare-and-swap behind a
    lagging tail, while the client's own thread swaps between two list heads and drains the
    list it has cut off. Every read, write and compare-and-swap is one step. */
module BroadcastQueue {

  /** An offset from the client list; 0 is no item. */
  type Loc = nat

  datatype Msg = Msg(pub: nat, body: seq<int>)

  /** Where a publisher stands in its append of `item`; `tail` is its local tail. */
  datatype Phase =
    | Idle
    | Loaded(item: Loc, tail: Loc)
    | Found(item: Loc, tail: Loc, n: Loc)
    | Swinging(item: Loc, tail: Loc, n: Loc, expected: Loc)
    | Linking(item: Loc, tail: Loc)

  /** Where the client's thread stands. */
  datatype Reader = Polling | Ready | Cut | AtItem(p: Loc) | Done(p: Loc) | Drained

  datatype Memory = Memory(next: map<Loc, Loc>, payload: map<Loc, Msg>)

  /** `active`, `pending`, `linked`, `delivered` and `sent` are history: the list behind the head
      in use (head first), the cut-off items not yet freed, all messages in the order they were
      linked, the messages handed over, and what each publisher has finished. `fault` would
      record an access to memory that is not allocated. */
  datatype State = State(
    mem: Memory,
    tail: Loc,
    headIdx: nat,
    pubs: map<nat, Phase>,
    reader: Reader,
    fault: bool,
    active: seq<Loc>,
    pending: seq<Loc>,
    linked: seq<Msg>,
    delivered: seq<Msg>,
    sent: map<nat, seq<Msg>>)

  /** The two list heads. */
  datatype Heads = Heads(h0: Loc, h1: Loc)

  predicate Distinct(h: Heads) {
    h.h0 != 0 && h.h1 != 0 && h.h0 != h.h1
  }

  function InUse(h: Heads, headIdx: nat): Loc {
    if headIdx == 0 then h.h0 else h.h1
  }

  function Spare(h: Heads, headIdx: nat): Loc {
    if headIdx == 0 then h.h1 else h.h0
  }

  function Initial(h: Heads): State {
    State(Memory(map[h.h0 := 0, h.h1 := 0], map[]), h.h0, 0, map[], Polling, false, [h.h0], [], [], [], map[])
  }

  datatype Action =
    | Begin(pub: nat, item: Loc, msg: Msg)
    | ReadNext(pub: nat)
    | LoadTail(pub: nat)
    | SwingTail(pub: nat)
    | Link(pub: nat)
    | Check
    | Swap
    | TakeFirst
    | Deliver
    | Free
    | Reset

  function PhaseOf(s: State, pub: nat): Phase {
    if pub in s.pubs then s.pubs[pub] else Idle
  }

  ghost predicate AllIdle(s: State) {
    forall pub <- s.pubs :: s.pubs[pub].Idle?
  }

  /** A step is taken by the thread whose turn it is. The one assumption is that no publisher
      is in the middle of an append while the reader swaps heads. */
  ghost predicate Legal(s: State, a: Action) {
    match a
    case Begin(pub, item, msg) => PhaseOf(s, pub).Idle? && item != 0 && item !in s.mem.next && msg.pub == pub
    case ReadNext(pub) => PhaseOf(s, pub).Loaded?
    case LoadTail(pub) => PhaseOf(s, pub).Found?
    case SwingTail(pub) => PhaseOf(s, pub).Swinging?
    case Link(pub) => PhaseOf(s, pub).Linking?
    case Check => s.reader.Polling?
    case Swap => s.reader.Ready? && AllIdle(s)
    case TakeFirst => s.reader.Cut?
    case Deliver => s.reader.AtItem?
    case Free => s.reader.Done?
    case Reset => s.reader.Drained?
  }

  function Sent(s: State, pub: nat): seq<Msg> {
    if pub in s.sent then s.sent[pub] else []
  }

  function DoBegin(s: State, pub: nat, item: Loc, msg: Msg): State {
    s.(mem := Memory(s.mem.next[item := 0], s.mem.payload[item := msg]),
       pubs := s.pubs[pub := Loaded(item, s.tail)])
  }

  function DoReadNext(s: State, pub: nat): State {
    var ph := PhaseOf(s, pub);
    if !ph.Loaded? || ph.tail !in s.mem.next then s.(fault := true)
    else
      var n := s.mem.next[ph.tail];
      s.(pubs := s.pubs[pub := if n == 0 then Linking(ph.item, ph.tail) else Found(ph.item, ph.tail, n)])
  }

  function DoLoadTail(s: State, pub: nat): State {
    var ph := PhaseOf(s, pub);
    if !ph.Found? then s else s.(pubs := s.pubs[pub := Swinging(ph.item, ph.tail, ph.n, s.tail)])
  }

  /** The shared tail moves to the successor that was read, unless it changed meanwhile. */
  function DoSwingTail(s: State, pub: nat): State {
    var ph := PhaseOf(s, pub);
    if !ph.Swinging? then s
    else if s.tail == ph.expected then s.(tail := ph.n, pubs := s.pubs[pub := Loaded(ph.item, ph.n)])
    else s.(pubs := s.pubs[pub := Loaded(ph.item, ph.tail)])
  }

  /** The item is linked behind the local tail, unless another one is already there. */
  function DoLink(s: State, pub: nat): State {
    var ph := PhaseOf(s, pub);
    if !ph.Linking? || ph.tail !in s.mem.next || ph.item !in s.mem.payload then s.(fault := true)
    else if s.mem.next[ph.tail] != 0 then s.(pubs := s.pubs[pub := Loaded(ph.item, ph.tail)])
    else Linked(s, pub, ph.item, ph.tail, s.mem.payload[ph.item])
  }

  function Linked(s: State, pub: nat, item: Loc, tail: Loc, m: Msg): State {
    s.(mem := s.mem.(next := s.mem.next[tail := item]),
       pubs := s.pubs[pub := Idle],
       active := s.active + [item],
       linked := s.linked + [m],
       sent := s.sent[pub := Sent(s, pub) + [m]])
  }

  function DoCheck(h: Heads, s: State): State {
    var hd := InUse(h, s.headIdx);
    if hd !in s.mem.next then s.(fault := true)
    else s.(reader := if s.mem.next[hd] == 0 then Polling else Ready)
  }

  function DoSwap(h: Heads, s: State): State {
    var other := Spare(h, s.headIdx);
    s.(tail := other, headIdx := if s.headIdx == 0 then 1 else 0, reader := Cut,
       active := [other], pending := if s.active == [] then [] else s.active[1..])
  }

  function DoTakeFirst(h: Heads, s: State): State {
    var hd := Spare(h, s.headIdx);
    if hd !in s.mem.next then s.(fault := true)
    else s.(reader := if s.mem.next[hd] == 0 then Drained else AtItem(s.mem.next[hd]))
  }

  function DoDeliver(s: State): State {
    if !s.reader.AtItem? || s.reader.p !in s.mem.payload then s.(fault := true)
    else
      var p := s.reader.p;
      s.(mem := s.mem.(payload := s.mem.payload - {p}),
         delivered := s.delivered + [s.mem.payload[p]],
         reader := Done(p))
  }

  function DoFree(s: State): State {
    if !s.reader.Done? || s.reader.p !in s.mem.next then s.(fault := true)
    else
      var p := s.reader.p;
      var n := s.mem.next[p];
      s.(mem := s.mem.(next := s.mem.next - {p}),
         pending := if s.pending == [] then [] else s.pending[1..],
         reader := if n == 0 then Drained else AtItem(n))
  }

  function DoReset(h: Heads, s: State): State {
    var hd := Spare(h, s.headIdx);
    if hd !in s.mem.next then s.(fault := true)
    else s.(mem := s.mem.(next := s.mem.next[hd := 0]), reader := Polling)
  }

  function Step(h: Heads, s: State, a: Action): State {
    match a
    case Begin(pub, item, msg) => DoBegin(s, pub, item, msg)
    case ReadNext(pub) => DoReadNext(s, pub)
    case LoadTail(pub) => DoLoadTail(s, pub)
    case SwingTail(pub) => DoSwingTail(s, pub)
    case Link(pub) => DoLink(s, pub)
    case Check => DoCheck(h, s)
    case Swap => DoSwap(h, s)
    case TakeFirst => DoTakeFirst(h, s)
    case Deliver => DoDeliver(s)
    case Free => DoFree(s)
    case Reset => DoReset(h, s)
  }

  // ---------------------------------------------------------------- invariant

  /** Node `i` is in memory and points to node `i + 1`, or to nothing if it is the last. */
  ghost predicate NodeAt(next: map<Loc, Loc>, xs: seq<Loc>, i: nat)
    requires i < |xs|
  {
    && xs[i] != 0 && xs[i] in next
    && next[xs[i]] == (if i + 1 < |xs| then xs[i + 1] else 0)
  }

  /** `xs` is a null-terminated list in memory, without repetition. */
  ghost predicate Chained(next: map<Loc, Loc>, xs: seq<Loc>) {
    && (forall i :: 0 <= i < |xs| ==> NodeAt(next, xs, i))
    && (forall x <- xs :: x in next && x != 0)
    && (forall i, j :: 0 <= i < j < |xs| ==> xs[i] != xs[j])
  }

  /** The message of each item. */
  function Msgs(payload: map<Loc, Msg>, xs: seq<Loc>): (ms: seq<Msg>)
    requires forall x <- xs :: x in payload
    ensures |ms| == |xs|
    ensures forall i :: 0 <= i < |xs| ==> ms[i] == payload[xs[i]]
  {
    seq(|xs|, i requires 0 <= i < |xs| => payload[xs[i]])
  }

  /** The messages of one publisher, in order. */
  function ByPub(ms: seq<Msg>, pub: nat): seq<Msg> {
    if ms == [] then []
    else
      var m := ms[|ms| - 1];
      ByPub(ms[..|ms| - 1], pub) + if m.pub == pub then [m] else []
  }

  /** An append in progress: a private item, a local tail on the list, and what was read is
      the tail's true successor. */
  ghost predicate PhaseOk(s: State, spare: Loc, ph: Phase) {
    ph.Idle? ||
    (&& ph.item in s.mem.next && ph.item != 0 && s.mem.next[ph.item] == 0
     && ph.item in s.mem.payload
     && ph.item !in s.active && ph.item !in s.pending && ph.item != spare
     && ph.tail in s.active
     && (ph.Found? || ph.Swinging? ==>
           ph.n != 0 && ph.n in s.active && ph.tail in s.mem.next && s.mem.next[ph.tail] == ph.n))
  }

  /** The cut-off items whose message was not handed over yet. */
  function Waiting(s: State): seq<Loc> {
    if s.reader.Done? && s.pending != [] then s.pending[1..] else s.pending
  }

  ghost predicate ReaderOk(s: State, spare: Loc) {
    match s.reader
    case Polling => s.pending == [] && spare in s.mem.next && s.mem.next[spare] == 0
    case Ready => s.pending == [] && spare in s.mem.next && s.mem.next[spare] == 0 && |s.active| > 1
    case Cut => s.pending != [] && spare in s.mem.next && s.mem.next[spare] == s.pending[0]
    case AtItem(p) => s.pending != [] && s.pending[0] == p && spare in s.mem.next
    case Done(p) => s.pending != [] && s.pending[0] == p && spare in s.mem.next
    case Drained => s.pending == [] && spare in s.mem.next
  }

  ghost predicate ListsOk(h: Heads, s: State) {
    && s.active != [] && s.active[0] == InUse(h, s.headIdx)
    && Chained(s.mem.next, s.active)
    && Chained(s.mem.next, s.pending)
    && (forall x <- s.active :: x !in s.pending)
    && Spare(h, s.headIdx) !in s.active && Spare(h, s.headIdx) !in s.pending
    && s.tail in s.active
  }

  ghost predicate PublishersOk(h: Heads, s: State) {
    && (forall pub <- s.pubs :: PhaseOk(s, Spare(h, s.headIdx), s.pubs[pub]))
    && (forall p <- s.pubs, q <- s.pubs ::
          p != q && !s.pubs[p].Idle? && !s.pubs[q].Idle? ==> s.pubs[p].item != s.pubs[q].item)
    && (forall p <- s.pubs :: !s.pubs[p].Idle? && s.pubs[p].item in s.mem.payload ==>
          s.mem.payload[s.pubs[p].item].pub == p)
  }

  /** First in, first out, exactly once, and each publisher's own order. */
  ghost predicate HistoryOk(s: State) {
    && s.active != []
    && (forall x <- s.active[1..] :: x in s.mem.payload)
    && (forall x <- Waiting(s) :: x in s.mem.payload)
    && s.linked == s.delivered + Msgs(s.mem.payload, Waiting(s)) + Msgs(s.mem.payload, s.active[1..])
    && (forall pub :: ByPub(s.linked, pub) == Sent(s, pub))
  }

  ghost predicate Inv(h: Heads, s: State) {
    && Distinct(h)
    && s.headIdx < 2
    && !s.fault
    && ListsOk(h, s)
    && ReaderOk(s, Spare(h, s.headIdx))
    && PublishersOk(h, s)
    && HistoryOk(s)
  }

  lemma InitialInv(h: Heads)
    requires Distinct(h)
    ensures Inv(h, Initial(h))
  {
  }

  lemma {:induction false} ByPubAppend(ms: seq<Msg>, m: Msg, pub: nat)
    ensures ByPub(ms + [m], pub) == ByPub(ms, pub) + if m.pub == pub then [m] else []
  {
    assert (ms + [m])[..|ms|] == ms;
  }

  // ------------------------------------------------------------ list lemmas

  lemma ChainedFrame(next: map<Loc, Loc>, next': map<Loc, Loc>, xs: seq<Loc>)
    requires Chained(next, xs)
    requires forall x <- xs :: x in next' && next'[x] == next[x]
    ensures Chained(next', xs)
  {
    forall i | 0 <= i < |xs| ensures NodeAt(next', xs, i) {
      assert NodeAt(next, xs, i);
    }
  }

  lemma ChainedAppend(next: map<Loc, Loc>, xs: seq<Loc>, x: Loc)
    requires Chained(next, xs) && xs != [] && x != 0 && x !in xs && x in next && next[x] == 0
    ensures Chained(next[xs[|xs| - 1] := x], xs + [x])
  {
    var next', xs' := next[xs[|xs| - 1] := x], xs + [x];
    forall i | 0 <= i < |xs'| ensures NodeAt(next', xs', i) {
      if i < |xs| { assert NodeAt(next, xs, i); }
    }
  }

  lemma ChainedRest(next: map<Loc, Loc>, xs: seq<Loc>)
    requires Chained(next, xs) && xs != []
    ensures Chained(next, xs[1..]) && xs[0] !in xs[1..]
    ensures Chained(next - {xs[0]}, xs[1..])
    ensures xs[0] in next && next[xs[0]] == (if |xs| > 1 then xs[1] else 0)
    ensures |xs| > 1 ==> xs[1] != 0
  {
    var rest := xs[1..];
    assert NodeAt(next, xs, 0);
    if |xs| > 1 { assert NodeAt(next, xs, 1); }
    forall i | 0 <= i < |rest|
      ensures NodeAt(next, rest, i) && NodeAt(next - {xs[0]}, rest, i) && rest[i] != xs[0]
    {
      assert NodeAt(next, xs, i + 1);
    }
  }

  /** A node's successor is on the list with it; only the last one has none. */
  lemma SuccessorOnList(next: map<Loc, Loc>, xs: seq<Loc>, x: Loc)
    requires Chained(next, xs) && x in xs
    ensures x in next
    ensures next[x] != 0 ==> next[x] in xs
    ensures next[x] == 0 <==> x == xs[|xs| - 1]
  {
    var i :| 0 <= i < |xs| && xs[i] == x;
    assert NodeAt(next, xs, i);
    if i + 1 < |xs| {
      assert NodeAt(next, xs, i + 1);
    }
  }

  lemma MsgsFrame(payload: map<Loc, Msg>, payload': map<Loc, Msg>, xs: seq<Loc>)
    requires forall x <- xs :: x in payload && x in payload' && payload'[x] == payload[x]
    ensures Msgs(payload', xs) == Msgs(payload, xs)
  {
  }

  lemma MsgsAppend(payload: map<Loc, Msg>, xs: seq<Loc>, x: Loc)
    requires forall y <- xs :: y in payload
    requires x in payload
    ensures forall y <- xs + [x] :: y in payload
    ensures Msgs(payload, xs + [x]) == Msgs(payload, xs) + [payload[x]]
  {
  }

  lemma MsgsFirst(payload: map<Loc, Msg>, xs: seq<Loc>)
    requires xs != [] && forall y <- xs :: y in payload
    ensures forall y <- xs[1..] :: y in payload
    ensures Msgs(payload, xs) == [payload[xs[0]]] + Msgs(payload, xs[1..])
  {
  }

  lemma Regroup(d: seq<Msg>, m: Msg, w: seq<Msg>, a: seq<Msg>)
    ensures d + ([m] + w) + a == (d + [m]) + w + a
    ensures d + w + (a + [m]) == d + w + a + [m]
  {
  }

  lemma Parts(xs: seq<Loc>)
    ensures xs != [] ==> (forall x <- xs[1..] :: x in xs) && xs == [xs[0]] + xs[1..]
  {
  }

  // ----------------------------------------------------------------- frames

  lemma HistoryFrame(s: State, s': State)
    requires HistoryOk(s)
    requires s'.mem.payload == s.mem.payload && s'.active == s.active && Waiting(s') == Waiting(s)
    requires s'.linked == s.linked && s'.delivered == s.delivered && s'.sent == s.sent
    ensures HistoryOk(s')
  {
  }

  lemma PublishersFrame(h: Heads, s: State, s': State)
    requires PublishersOk(h, s)
    requires s'.pubs == s.pubs && s'.active == s.active && s'.headIdx == s.headIdx
    requires forall x <- s'.pending :: x in s.pending
    requires forall x <- s.active :: x in s.mem.next ==> x in s'.mem.next && s'.mem.next[x] == s.mem.next[x]
    requires forall pub <- s.pubs :: !s.pubs[pub].Idle? ==> ItemKept(s, s', s.pubs[pub].item)
    ensures PublishersOk(h, s')
  {
    var spare := Spare(h, s.headIdx);
    forall q <- s'.pubs
      ensures PhaseOk(s', spare, s'.pubs[q])
    {
      assert PhaseOk(s, spare, s.pubs[q]);
    }
  }

  ghost predicate ItemKept(s: State, s': State, item: Loc) {
    && (item in s.mem.next ==> item in s'.mem.next && s'.mem.next[item] == s.mem.next[item])
    && (item in s.mem.payload ==> item in s'.mem.payload && s'.mem.payload[item] == s.mem.payload[item])
  }

  // ------------------------------------------------------------------- steps

  lemma BeginKeepsInv(h: Heads, s: State, pub: nat, item: Loc, msg: Msg)
    requires Inv(h, s) && Legal(s, Begin(pub, item, msg))
    ensures Inv(h, DoBegin(s, pub, item, msg))
  {
    var s' := DoBegin(s, pub, item, msg);
    var spare := Spare(h, s.headIdx);
    assert item !in s.active && item !in s.pending && item != spare;
    ChainedFrame(s.mem.next, s'.mem.next, s.active);
    ChainedFrame(s.mem.next, s'.mem.next, s.pending);
    forall q <- s'.pubs
      ensures PhaseOk(s', spare, s'.pubs[q])
    {
      if q != pub {
        assert PhaseOk(s, spare, s.pubs[q]);
      }
    }
    BeginHistory(s, s', item, msg);
  }

  lemma BeginHistory(s: State, s': State, item: Loc, msg: Msg)
    requires HistoryOk(s) && item !in s.active && item !in s.pending
    requires s' == s.(mem := Memory(s.mem.next[item := 0], s.mem.payload[item := msg]), pubs := s'.pubs)
    ensures HistoryOk(s')
  {
    Parts(s.active);
    Parts(s.pending);
    MsgsFrame(s.mem.payload, s'.mem.payload, Waiting(s));
    MsgsFrame(s.mem.payload, s'.mem.payload, s.active[1..]);
  }

  /** A publisher in an append may move its own phase and swing the tail along the list. */
  lemma MovePublisher(h: Heads, s: State, pub: nat, ph: Phase, tail: Loc)
    requires Inv(h, s) && pub in s.pubs && !s.pubs[pub].Idle?
    requires PhaseOk(s, Spare(h, s.headIdx), ph) && !ph.Idle? && ph.item == s.pubs[pub].item
    requires tail in s.active
    ensures Inv(h, s.(pubs := s.pubs[pub := ph], tail := tail))
  {
    var s' := s.(pubs := s.pubs[pub := ph], tail := tail);
    var spare := Spare(h, s.headIdx);
    forall q <- s'.pubs
      ensures PhaseOk(s', spare, s'.pubs[q])
    {
      if q != pub {
        assert PhaseOk(s, spare, s.pubs[q]);
      }
    }
    assert Waiting(s') == Waiting(s);
  }

  lemma ReadNextKeepsInv(h: Heads, s: State, pub: nat)
    requires Inv(h, s) && PhaseOf(s, pub).Loaded?
    ensures Inv(h, DoReadNext(s, pub))
  {
    var ph := PhaseOf(s, pub);
    assert PhaseOk(s, Spare(h, s.headIdx), ph);
    SuccessorOnList(s.mem.next, s.active, ph.tail);
    var n := s.mem.next[ph.tail];
    MovePublisher(h, s, pub, if n == 0 then Linking(ph.item, ph.tail) else Found(ph.item, ph.tail, n), s.tail);
  }

  lemma SwingTailKeepsInv(h: Heads, s: State, pub: nat)
    requires Inv(h, s) && PhaseOf(s, pub).Swinging?
    ensures Inv(h, DoSwingTail(s, pub))
  {
    var ph := PhaseOf(s, pub);
    assert PhaseOk(s, Spare(h, s.headIdx), ph);
    if s.tail == ph.expected {
      MovePublisher(h, s, pub, Loaded(ph.item, ph.n), ph.n);
    } else {
      MovePublisher(h, s, pub, Loaded(ph.item, ph.tail), s.tail);
    }
  }

  lemma LinkKeepsInv(h: Heads, s: State, pub: nat)
    requires Inv(h, s) && PhaseOf(s, pub).Linking?
    ensures Inv(h, DoLink(s, pub))
  {
    var ph := PhaseOf(s, pub);
    assert PhaseOk(s, Spare(h, s.headIdx), ph);
    SuccessorOnList(s.mem.next, s.active, ph.tail);
    if s.mem.next[ph.tail] == 0 {
      LinkedLists(h, s, pub, ph.item);
      LinkedPublishers(h, s, pub);
      LinkHistory(s, Linked(s, pub, ph.item, ph.tail, s.mem.payload[ph.item]), pub, ph.item);
    } else {
      MovePublisher(h, s, pub, Loaded(ph.item, ph.tail), s.tail);
    }
  }

  lemma LinkedLists(h: Heads, s: State, pub: nat, item: Loc)
    requires ListsOk(h, s) && ReaderOk(s, Spare(h, s.headIdx)) && item in s.mem.payload
    requires item in s.mem.next && item != 0 && s.mem.next[item] == 0
    requires item !in s.active && item !in s.pending && item != Spare(h, s.headIdx)
    ensures var s' := Linked(s, pub, item, s.active[|s.active| - 1], s.mem.payload[item]);
            ListsOk(h, s') && ReaderOk(s', Spare(h, s'.headIdx))
  {
    var s' := Linked(s, pub, item, s.active[|s.active| - 1], s.mem.payload[item]);
    ChainedAppend(s.mem.next, s.active, item);
    assert s.active[|s.active| - 1] in s.active;
    ChainedFrame(s.mem.next, s'.mem.next, s.pending);
  }

  lemma LinkedPublishers(h: Heads, s: State, pub: nat)
    requires ListsOk(h, s) && PublishersOk(h, s) && PhaseOf(s, pub).Linking?
    requires PhaseOf(s, pub).tail == s.active[|s.active| - 1] 
    requires PhaseOf(s, pub).tail in s.mem.next && s.mem.next[PhaseOf(s, pub).tail] == 0
    ensures PublishersOk(h, DoLink(s, pub))
  {
    var s' := DoLink(s, pub);
    var ph, spare := PhaseOf(s, pub), Spare(h, s.headIdx);
    assert PhaseOk(s, spare, ph);
    forall q <- s'.pubs
      ensures PhaseOk(s', spare, s'.pubs[q])
    {
      if q != pub {
        assert PhaseOk(s, spare, s.pubs[q]);
      }
    }
  }

  lemma LinkHistory(s: State, s': State, pub: nat, item: Loc)
    requires HistoryOk(s) && item in s.mem.payload && s.mem.payload[item].pub == pub
    requires s' == Linked(s, pub, item, s.active[|s.active| - 1], s.mem.payload[item])
    ensures HistoryOk(s')
  {
    var m := s.mem.payload[item];
    assert s'.active[1..] == s.active[1..] + [item];
    assert Waiting(s') == Waiting(s);
    MsgsAppend(s.mem.payload, s.active[1..], item);
    Regroup(s.delivered, m, Msgs(s.mem.payload, Waiting(s)), Msgs(s.mem.payload, s.active[1..]));
    LinkOrder(s, s', pub, m);
  }

  lemma LinkOrder(s: State, s': State, pub: nat, m: Msg)
    requires forall q :: ByPub(s.linked, q) == Sent(s, q)
    requires m.pub == pub && s'.linked == s.linked + [m] && s'.sent == s.sent[pub := Sent(s, pub) + [m]]
    ensures forall q :: ByPub(s'.linked, q) == Sent(s', q)
  {
    forall q
      ensures ByPub(s'.linked, q) == Sent(s', q)
    {
      ByPubAppend(s.linked, m, q);
    }
  }

  lemma SwapKeepsInv(h: Heads, s: State)
    requires Inv(h, s) && Legal(s, Swap)
    ensures Inv(h, DoSwap(h, s))
  {
    SwapLists(h, s);
    SwapHistory(h, s);
    assert PublishersOk(h, DoSwap(h, s));
  }

  lemma SwapHistory(h: Heads, s: State)
    requires HistoryOk(s) && s.reader.Ready? && s.pending == []
    ensures HistoryOk(DoSwap(h, s))
  {
    var s' := DoSwap(h, s);
    assert Waiting(s) == [] && Waiting(s') == s.active[1..] && s'.active[1..] == [];
    assert Msgs(s.mem.payload, Waiting(s)) == [] && Msgs(s.mem.payload, s'.active[1..]) == [];
    hide Msgs, ByPub;
    var linked := Msgs(s.mem.payload, s.active[1..]);
    assert s.linked == s.delivered + linked;
    assert s.delivered + linked + [] == s.delivered + linked;
  }

  lemma SwapLists(h: Heads, s: State)
    requires Distinct(h) && ListsOk(h, s) && s.reader.Ready? && ReaderOk(s, Spare(h, s.headIdx)) && s.headIdx < 2
    ensures var s' := DoSwap(h, s);
            ListsOk(h, s') && ReaderOk(s', Spare(h, s'.headIdx))
  {
    ChainedRest(s.mem.next, s.active);
    Parts(s.active);
    assert s.active[0] in s.active;
  }

  lemma CheckKeepsInv(h: Heads, s: State)
    requires Inv(h, s) && s.reader.Polling?
    ensures Inv(h, DoCheck(h, s))
  {
    HistoryFrame(s, DoCheck(h, s));
    SuccessorOnList(s.mem.next, s.active, s.active[0]);
    PublishersFrame(h, s, DoCheck(h, s));
  }

  lemma TakeFirstKeepsInv(h: Heads, s: State)
    requires Inv(h, s) && s.reader.Cut?
    ensures Inv(h, DoTakeFirst(h, s))
  {
    assert s.pending[0] in s.pending;
    HistoryFrame(s, DoTakeFirst(h, s));
    PublishersFrame(h, s, DoTakeFirst(h, s));
  }

  lemma ResetKeepsInv(h: Heads, s: State)
    requires Inv(h, s) && s.reader.Drained?
    ensures Inv(h, DoReset(h, s))
  {
    var s', spare := DoReset(h, s), Spare(h, s.headIdx);
    HistoryFrame(s, s');
    ChainedFrame(s.mem.next, s'.mem.next, s.active);
    forall pub <- s.pubs | !s.pubs[pub].Idle?
      ensures ItemKept(s, s', s.pubs[pub].item)
    {
      assert PhaseOk(s, spare, s.pubs[pub]);
    }
    PublishersFrame(h, s, s');
  }

  lemma DeliverKeepsInv(h: Heads, s: State)
    requires Inv(h, s) && s.reader.AtItem?
    ensures Inv(h, DoDeliver(s))
  {
    var s', spare := DoDeliver(s), Spare(h, s.headIdx);
    var p := s.pending[0];
    assert p in s.pending && p in Waiting(s);
    ChainedRest(s.mem.next, s.pending);
    DeliverHistory(s);
    forall pub <- s.pubs | !s.pubs[pub].Idle?
      ensures ItemKept(s, s', s.pubs[pub].item)
    {
      assert PhaseOk(s, spare, s.pubs[pub]);
    }
    PublishersFrame(h, s, s');
  }

  lemma DeliverHistory(s: State)
    requires HistoryOk(s) && s.reader.AtItem? && s.pending != [] && s.reader.p == s.pending[0]
    requires s.pending[0] !in s.pending[1..] && s.pending[0] !in s.active
    ensures s.reader.p in s.mem.payload && HistoryOk(DoDeliver(s))
  {
    var p := s.reader.p;
    assert Waiting(s) == s.pending && p in Waiting(s);
    var s', rest, items := DoDeliver(s), s.pending[1..], s.active[1..];
    Parts(s.pending);
    Parts(s.active);
    assert Waiting(s') == rest;
    MsgsFirst(s.mem.payload, s.pending);
    MsgsFrame(s.mem.payload, s'.mem.payload, rest);
    MsgsFrame(s.mem.payload, s'.mem.payload, items);
    Regroup(s.delivered, s.mem.payload[p], Msgs(s.mem.payload, rest), Msgs(s.mem.payload, items));
  }

  lemma FreeKeepsInv(h: Heads, s: State)
    requires Inv(h, s) && s.reader.Done?
    ensures Inv(h, DoFree(s))
  {
    var s', spare := DoFree(s), Spare(h, s.headIdx);
    var p := s.pending[0];
    assert p in s.pending;
    ChainedRest(s.mem.next, s.pending);
    Parts(s.pending);
    ChainedFrame(s.mem.next, s'.mem.next, s.active);
    HistoryFrame(s, s');
    forall pub <- s.pubs | !s.pubs[pub].Idle?
      ensures ItemKept(s, s', s.pubs[pub].item)
    {
      assert PhaseOk(s, spare, s.pubs[pub]);
    }
    PublishersFrame(h, s, s');
  }

  lemma StepKeepsInv(h: Heads, s: State, a: Action)
    requires Inv(h, s) && Legal(s, a)
    ensures Inv(h, Step(h, s, a))
  {
    match a
    case Begin(pub, item, msg) => BeginKeepsInv(h, s, pub, item, msg);
    case Link(pub) => LinkKeepsInv(h, s, pub);
    case Swap => SwapKeepsInv(h, s);
    case ReadNext(pub) => ReadNextKeepsInv(h, s, pub);
    case LoadTail(pub) =>
      var ph := PhaseOf(s, pub);
      MovePublisher(h, s, pub, Swinging(ph.item, ph.tail, ph.n, s.tail), s.tail);
    case SwingTail(pub) => SwingTailKeepsInv(h, s, pub);
    case Check => CheckKeepsInv(h, s);
    case TakeFirst => TakeFirstKeepsInv(h, s);
    case Deliver => DeliverKeepsInv(h, s);
    case Free => FreeKeepsInv(h, s);
    case Reset => ResetKeepsInv(h, s);
  }

  // ------------------------------------------------------------- memory kept

  ghost predicate InFlight(s: State, x: Loc) {
    exists pub <- s.pubs :: !s.pubs[pub].Idle? && s.pubs[pub].item == x
  }

  /** Why an item is still allocated. */
  ghost predicate Known(h: Heads, s: State, x: Loc) {
    x == h.h0 || x == h.h1 || x in s.active || x in s.pending || InFlight(s, x)
  }

  /** Nothing leaks: every allocated item is a head, on a list, or being appended. */
  ghost predicate NoLeak(h: Heads, s: State) {
    && (forall x <- s.mem.next :: Known(h, s, x))
    && (forall x <- s.mem.payload :: x in s.mem.next)
    && h.h0 !in s.mem.payload && h.h1 !in s.mem.payload
    && (s.reader.Done? ==> s.reader.p !in s.mem.payload)
  }

  lemma StillInFlight(s: State, s': State, x: Loc)
    requires InFlight(s, x)
    requires forall pub <- s.pubs :: !s.pubs[pub].Idle? && s.pubs[pub].item == x ==>
               pub in s'.pubs && !s'.pubs[pub].Idle? && s'.pubs[pub].item == x
    ensures InFlight(s', x)
  {
    var pub :| pub in s.pubs && !s.pubs[pub].Idle? && s.pubs[pub].item == x;
    assert s'.pubs[pub].item == x;
  }

  lemma BeginNoLeak(h: Heads, s: State, pub: nat, item: Loc, msg: Msg)
    requires NoLeak(h, s) && Legal(s, Begin(pub, item, msg))
    requires h.h0 in s.mem.next && h.h1 in s.mem.next && (s.reader.Done? ==> s.reader.p in s.mem.next)
    ensures NoLeak(h, DoBegin(s, pub, item, msg))
  {
    var s' := DoBegin(s, pub, item, msg);
    assert s'.pubs[pub].item == item;
    forall x <- s'.mem.next
      ensures Known(h, s', x)
    {
      if x != item && InFlight(s, x) {
        StillInFlight(s, s', x);
      }
    }
  }

  /** Steps that leave memory and lists alone and keep every publisher's item. */
  lemma MoveNoLeak(h: Heads, s: State, pub: nat, ph: Phase, tail: Loc)
    requires NoLeak(h, s) && pub in s.pubs && !s.pubs[pub].Idle? && !ph.Idle? && ph.item == s.pubs[pub].item
    ensures NoLeak(h, s.(pubs := s.pubs[pub := ph], tail := tail))
  {
    var s' := s.(pubs := s.pubs[pub := ph], tail := tail);
    forall x <- s'.mem.next
      ensures Known(h, s', x)
    {
      assert Known(h, s, x);
      if InFlight(s, x) {
        StillInFlight(s, s', x);
      }
    }
  }

  lemma LinkNoLeak(h: Heads, s: State, pub: nat, item: Loc, tail: Loc, m: Msg)
    requires NoLeak(h, s) && PhaseOf(s, pub).Linking? && PhaseOf(s, pub).item == item && tail in s.mem.next
    ensures NoLeak(h, Linked(s, pub, item, tail, m))
  {
    var s' := Linked(s, pub, item, tail, m);
    forall x <- s'.mem.next
      ensures Known(h, s', x)
    {
      assert Known(h, s, x);
      if x != item && InFlight(s, x) {
        StillInFlight(s, s', x);
      }
    }
  }

  lemma SwapNoLeak(h: Heads, s: State)
    requires NoLeak(h, s) && s.pending == [] && s.active != [] && s.active[0] == InUse(h, s.headIdx)
    ensures NoLeak(h, DoSwap(h, s))
  {
    var s' := DoSwap(h, s);
    Parts(s.active);
    forall x <- s'.mem.next
      ensures Known(h, s', x)
    {
      assert Known(h, s, x);
      if InFlight(s, x) {
        StillInFlight(s, s', x);
      }
    }
  }

  /** The reader's other steps: an item leaves the cut-off list only when it is freed. */
  lemma ReaderNoLeak(h: Heads, s: State, s': State)
    requires NoLeak(h, s) && s'.active == s.active && s'.pubs == s.pubs
    requires s'.mem.payload.Keys <= s.mem.payload.Keys && s'.mem.payload.Keys <= s'.mem.next.Keys
    requires s'.mem.next.Keys <= s.mem.next.Keys
    requires forall x <- s.pending :: x in s'.mem.next ==> x in s'.pending
    requires s'.reader.Done? ==> s'.reader.p !in s'.mem.payload
    ensures NoLeak(h, s')
  {
    forall x <- s'.mem.next
      ensures Known(h, s', x)
    {
      assert Known(h, s, x);
      if InFlight(s, x) {
        StillInFlight(s, s', x);
      }
    }
  }

  lemma FreeNoLeak(h: Heads, s: State)
    requires Inv(h, s) && NoLeak(h, s) && s.reader.Done?
    ensures NoLeak(h, DoFree(s))
  {
    assert s.pending[0] in s.pending;
    Parts(s.pending);
    ReaderNoLeak(h, s, DoFree(s));
  }

  lemma DeliverNoLeak(h: Heads, s: State)
    requires Inv(h, s) && NoLeak(h, s) && s.reader.AtItem?
    ensures NoLeak(h, DoDeliver(s))
  {
    assert s.pending[0] in s.pending && s.pending[0] in Waiting(s);
    ReaderNoLeak(h, s, DoDeliver(s));
  }

  lemma HeadsAllocated(h: Heads, s: State)
    requires Inv(h, s)
    ensures h.h0 in s.mem.next && h.h1 in s.mem.next
    ensures s.reader.Done? ==> s.reader.p in s.mem.next
  {
    assert s.active[0] in s.active;
    if s.reader.Done? { assert s.pending[0] in s.pending; }
  }

  lemma PublisherNoLeak(h: Heads, s: State, a: Action)
    requires Inv(h, s) && NoLeak(h, s) && Legal(s, a) && (a.ReadNext? || a.LoadTail? || a.SwingTail? || a.Link?)
    ensures NoLeak(h, Step(h, s, a))
  {
    var ph := PhaseOf(s, a.pub);
    assert PhaseOk(s, Spare(h, s.headIdx), ph);
    SuccessorOnList(s.mem.next, s.active, ph.tail);
    if a.Link? && s.mem.next[ph.tail] == 0 {
      LinkNoLeak(h, s, a.pub, ph.item, ph.tail, s.mem.payload[ph.item]);
    } else {
      MoveNoLeak(h, s, a.pub, Step(h, s, a).pubs[a.pub], Step(h, s, a).tail);
    }
  }

  lemma StepKeepsNoLeak(h: Heads, s: State, a: Action)
    requires Inv(h, s) && NoLeak(h, s) && Legal(s, a)
    ensures NoLeak(h, Step(h, s, a))
  {
    HeadsAllocated(h, s);
    match a
    case Begin(pub, item, msg) => BeginNoLeak(h, s, pub, item, msg);
    case Swap => SwapNoLeak(h, s);
    case Deliver => DeliverNoLeak(h, s);
    case Free => FreeNoLeak(h, s);
    case Check => ReaderNoLeak(h, s, DoCheck(h, s));
    case TakeFirst => ReaderNoLeak(h, s, DoTakeFirst(h, s));
    case Reset => ReaderNoLeak(h, s, DoReset(h, s));
    case _ => PublisherNoLeak(h, s, a);
  }

  // --------------------------------------------------------------------- runs

  ghost predicate LegalRun(h: Heads, s: State, acts: seq<Action>)
    decreases |acts|
  {
    acts != [] ==> Legal(s, acts[0]) && LegalRun(h, Step(h, s, acts[0]), acts[1..])
  }

  function Run(h: Heads, s: State, acts: seq<Action>): State
    decreases |acts|
  {
    if acts == [] then s else Run(h, Step(h, s, acts[0]), acts[1..])
  }

  lemma {:induction false} RunKeepsInv(h: Heads, s: State, acts: seq<Action>)
    requires Inv(h, s) && NoLeak(h, s) && LegalRun(h, s, acts)
    ensures Inv(h, Run(h, s, acts)) && NoLeak(h, Run(h, s, acts))
    decreases |acts|
  {
    if acts != [] {
      StepKeepsInv(h, s, acts[0]);
      StepKeepsNoLeak(h, s, acts[0]);
      RunKeepsInv(h, Step(h, s, acts[0]), acts[1..]);
    }
  }

  /** Exactly-once, first-in-first-out delivery over every run: what was handed over, what is
      cut off and what is still on the list make up the linked messages in order; what a
      publisher finished is exactly its share of them, in its own order; memory that is not
      allocated is never touched; and a swap always finds the idle head empty. */
  lemma EveryRunIsFifo(h: Heads, acts: seq<Action>)
    requires Distinct(h) && LegalRun(h, Initial(h), acts)
    ensures var s := Run(h, Initial(h), acts);
            && HistoryOk(s)
            && s.delivered <= s.linked
            && !s.fault
            && (Legal(s, Swap) ==> Spare(h, s.headIdx) in s.mem.next && s.mem.next[Spare(h, s.headIdx)] == 0)
  {
    InitialInv(h);
    RunKeepsInv(h, Initial(h), acts);
  }

  /** Once everybody is idle and the list is drained, every message that any publisher finished
      has been delivered, and only the two heads remain allocated. */
  lemma QuietMeansDelivered(h: Heads, acts: seq<Action>)
    requires Distinct(h) && LegalRun(h, Initial(h), acts)
    requires var s := Run(h, Initial(h), acts); s.reader.Polling? && AllIdle(s) && |s.active| == 1
    ensures var s := Run(h, Initial(h), acts);
            && s.delivered == s.linked
            && (forall pub :: ByPub(s.delivered, pub) == Sent(s, pub))
            && s.mem.next.Keys == {h.h0, h.h1} && s.mem.payload == map[]
  {
    InitialInv(h);
    RunKeepsInv(h, Initial(h), acts);
    var s := Run(h, Initial(h), acts);
    assert Waiting(s) == [] && s.active[1..] == [];
    assert s.active[0] in s.active;
    forall x <- s.mem.next ensures x in {h.h0, h.h1} {
      assert Known(h, s, x);
    }
  }

  // ------------------------------------------------------- one turn of the reader

  /** The messages `ms` were linked, and are delivered or will be before the reader polls again. */
  ghost predicate Due(s: State, ms: seq<Msg>) {
    && ms <= s.linked
    && match s.reader
       case Polling => |ms| <= |s.delivered|
       case Ready => true
       case _ => |ms| <= |s.delivered| + |Waiting(s)|
  }

  /** A poll puts everything linked so far on the way. */
  lemma CheckMakesDue(h: Heads, s: State)
    requires Inv(h, s) && s.reader.Polling?
    ensures Due(Step(h, s, Check), s.linked)
  {
    assert s.active[0] in s.active;
    SuccessorOnList(s.mem.next, s.active, s.active[0]);
    if s.mem.next[s.active[0]] == 0 {
      assert s.active[1..] == [] && Waiting(s) == [];
    }
  }

  /** Nothing that is on the way is lost, whichever thread makes the next step. */
  lemma StepKeepsDue(h: Heads, s: State, a: Action, ms: seq<Msg>)
    requires Inv(h, s) && Legal(s, a) && Due(s, ms)
    ensures Due(Step(h, s, a), ms)
  {
    assert ReaderOk(s, Spare(h, s.headIdx));
    hide Inv, Due, ReaderOk;
    if a.Swap? {
      SwapKeepsDue(h, s, ms);
    } else if a.Begin? || a.ReadNext? || a.LoadTail? || a.SwingTail? || a.Link? {
      AppendKeepsDue(h, s, a, ms);
    } else {
      ReaderKeepsDue(h, s, a, ms);
    }
  }

  lemma AppendKeepsDue(h: Heads, s: State, a: Action, ms: seq<Msg>)
    requires a.Begin? || a.ReadNext? || a.LoadTail? || a.SwingTail? || a.Link?
    requires Legal(s, a) && Due(s, ms)
    ensures Due(Step(h, s, a), ms)
  {
  }

  lemma ReaderKeepsDue(h: Heads, s: State, a: Action, ms: seq<Msg>)
    requires a.Check? || a.TakeFirst? || a.Deliver? || a.Free? || a.Reset?
    requires Legal(s, a) && Due(s, ms) && ReaderOk(s, Spare(h, s.headIdx))
    ensures Due(Step(h, s, a), ms)
  {
  }

  /** What was linked before the swap is what is delivered or cut off after it. */
  lemma SwapKeepsDue(h: Heads, s: State, ms: seq<Msg>)
    requires Inv(h, s) && s.reader.Ready? && Due(s, ms)
    ensures Due(DoSwap(h, s), ms)
  {
    SwapHistory(h, s);
    assert DoSwap(h, s).active[1..] == [];
    hide PublishersOk, ListsOk;
  }

  lemma {:induction false} RunKeepsDue(h: Heads, s: State, acts: seq<Action>, ms: seq<Msg>)
    requires Inv(h, s) && NoLeak(h, s) && LegalRun(h, s, acts) && Due(s, ms)
    ensures Due(Run(h, s, acts), ms)
    decreases |acts|
  {
    hide Inv, NoLeak, Due;
    if acts != [] {
      StepKeepsInv(h, s, acts[0]);
      StepKeepsNoLeak(h, s, acts[0]);
      StepKeepsDue(h, s, acts[0], ms);
      RunKeepsDue(h, Step(h, s, acts[0]), acts[1..], ms);
    }
  }

  /** Turn after turn of the reader's loop: whatever was linked before a poll is delivered, in
      order, whenever the reader polls again, with publishers anywhere in their appends at the
      poll and during the drain. */
  lemma NextPollFindsDelivered(h: Heads, s: State, acts: seq<Action>)
    requires Inv(h, s) && NoLeak(h, s) && s.reader.Polling? && LegalRun(h, Step(h, s, Check), acts)
    requires Run(h, Step(h, s, Check), acts).reader.Polling?
    ensures s.linked <= Run(h, Step(h, s, Check), acts).delivered
  {
    var t := Step(h, s, Check);
    StepKeepsInv(h, s, Check);
    StepKeepsNoLeak(h, s, Check);
    CheckMakesDue(h, s);
    RunKeepsInv(h, t, acts);
    RunKeepsDue(h, t, acts, s.linked);
    var u := Run(h, t, acts);
    assert u.delivered <= u.linked by { assert HistoryOk(u); }
  }
}
