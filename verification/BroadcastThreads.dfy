/** The threads that run against the queue: a publisher's append, and the poll, swap and drain
    of the client's own thread. Between any two of their atomic steps other threads run. */
module BroadcastThreads {
  import opened BroadcastQueue

  /** The steps that compete with a publisher: they move the shared tail or link an item. */
  function Moves(acts: seq<Action>): nat
    decreases |acts|
  {
    if acts == [] then 0
    else (if acts[0].SwingTail? || acts[0].Link? then 1 else 0) + Moves(acts[1..])
  }

  predicate ByPublisher(a: Action) {
    a.Begin? || a.ReadNext? || a.LoadTail? || a.SwingTail? || a.Link?
  }

  /** Not a step of publisher `pub`. */
  predicate ByOther(a: Action, pub: nat) {
    ByPublisher(a) ==> a.pub != pub
  }

  /** What a publisher in the middle of an append can rely on. */
  ghost predicate Undisturbed(s: State, s': State, pub: nat)
    requires !PhaseOf(s, pub).Idle?
  {
    && PhaseOf(s', pub) == PhaseOf(s, pub)
    && Sent(s', pub) == Sent(s, pub)
    && s.active <= s'.active
    && (PhaseOf(s, pub).item in s.mem.payload ==>
          PhaseOf(s, pub).item in s'.mem.payload
          && s'.mem.payload[PhaseOf(s, pub).item] == s.mem.payload[PhaseOf(s, pub).item])
  }

  lemma OtherStep(h: Heads, s: State, a: Action, pub: nat)
    requires Inv(h, s) && Legal(s, a) && ByOther(a, pub)
    ensures PhaseOf(Step(h, s, a), pub) == PhaseOf(s, pub) && Sent(Step(h, s, a), pub) == Sent(s, pub)
    ensures !PhaseOf(s, pub).Idle? ==> Undisturbed(s, Step(h, s, a), pub)
    ensures !PhaseOf(s, pub).Idle? && !a.SwingTail? && !a.Link? ==>
              Step(h, s, a).active == s.active && Step(h, s, a).tail == s.tail
  {
    hide Inv;
    if !PhaseOf(s, pub).Idle? {
      PhaseKeepsItem(h, s, pub);
      if !ByPublisher(a) && !a.Swap? {
        ReaderLeavesItem(h, s, a, PhaseOf(s, pub).item);
      }
    }
  }

  lemma PhaseKeepsItem(h: Heads, s: State, pub: nat)
    requires Inv(h, s) && !PhaseOf(s, pub).Idle?
    ensures PhaseOf(s, pub).item in s.mem.next && PhaseOf(s, pub).item !in s.pending
    ensures !AllIdle(s)
  {
    assert PhaseOk(s, Spare(h, s.headIdx), PhaseOf(s, pub));
  }

  lemma ReaderLeavesItem(h: Heads, s: State, a: Action, item: Loc)
    requires Inv(h, s) && Legal(s, a) && !ByPublisher(a) && !a.Swap? && item !in s.pending
    ensures var s' := Step(h, s, a);
            && s'.active == s.active && s'.tail == s.tail
            && (item in s.mem.payload ==> item in s'.mem.payload && s'.mem.payload[item] == s.mem.payload[item])
  {
    if s.reader.AtItem? { assert s.pending[0] in s.pending; }
  }

  lemma {:induction false} OthersRun(h: Heads, s: State, acts: seq<Action>, pub: nat)
    requires Inv(h, s) && NoLeak(h, s) && LegalRun(h, s, acts) && forall a <- acts :: ByOther(a, pub)
    ensures var s' := Run(h, s, acts);
            && Inv(h, s') && NoLeak(h, s')
            && PhaseOf(s', pub) == PhaseOf(s, pub) && Sent(s', pub) == Sent(s, pub)
            && (!PhaseOf(s, pub).Idle? ==> Undisturbed(s, s', pub))
            && (!PhaseOf(s, pub).Idle? && Moves(acts) == 0 ==> s'.active == s.active && s'.tail == s.tail)
    decreases |acts|
  {
    if acts != [] {
      OtherStep(h, s, acts[0], pub);
      StepKeepsInv(h, s, acts[0]);
      StepKeepsNoLeak(h, s, acts[0]);
      OthersRun(h, Step(h, s, acts[0]), acts[1..], pub);
    }
  }

  /** What the draining thread can rely on: its own list is frozen while publishers run. */
  ghost predicate Frozen(s: State, s': State) {
    && s'.reader == s.reader && s'.headIdx == s.headIdx && s'.delivered == s.delivered
    && s'.pending == s.pending && s.linked <= s'.linked
    && (forall x <- s.pending :: x in s.mem.next ==> x in s'.mem.next && s'.mem.next[x] == s.mem.next[x])
    && (forall x <- s.pending :: x in s.mem.payload ==> x in s'.mem.payload && s'.mem.payload[x] == s.mem.payload[x])
  }

  lemma PublisherStep(h: Heads, s: State, a: Action)
    requires Inv(h, s) && Legal(s, a) && ByPublisher(a)
    ensures Frozen(s, Step(h, s, a))
  {
    if !a.Begin? {
      assert PhaseOk(s, Spare(h, s.headIdx), PhaseOf(s, a.pub));
    }
  }

  lemma {:induction false} PublishersRun(h: Heads, s: State, acts: seq<Action>)
    requires Inv(h, s) && NoLeak(h, s) && LegalRun(h, s, acts) && forall a <- acts :: ByPublisher(a)
    ensures Inv(h, Run(h, s, acts)) && NoLeak(h, Run(h, s, acts)) && Frozen(s, Run(h, s, acts))
    decreases |acts|
  {
    if acts != [] {
      PublisherStep(h, s, acts[0]);
      StepKeepsInv(h, s, acts[0]);
      StepKeepsNoLeak(h, s, acts[0]);
      PublishersRun(h, Step(h, s, acts[0]), acts[1..]);
    }
  }

  class Region {
    const h: Heads
    var mem: Memory
    var tail: Loc
    var headIdx: nat
    // The rest of the state: where every thread stands, and the history.
    ghost var rest: State
    // How many competing steps the other threads will still take.
    ghost var future: nat

    ghost function S(): State
      reads this
    {
      rest.(mem := mem, tail := tail, headIdx := headIdx)
    }

    ghost predicate Valid()
      reads this
    {
      Inv(h, S()) && NoLeak(h, S())
    }

    /** Two fresh heads, as the subscription's constructor makes them. */
    constructor (h: Heads, ghost others: nat)
      requires Distinct(h)
      ensures Valid() && this.h == h && S() == Initial(h) && future == others
    {
      this.h := h;
      mem, tail, headIdx := Initial(h).mem, Initial(h).tail, 0;
      rest, future := Initial(h), others;
      new;
      InitialInv(h);
    }

    /** Any steps of the other publishers and of the client's thread. */
    method Interfere(ghost pub: nat)
      requires Valid()
      modifies this
      ensures exists acts ::
                && LegalRun(h, old(S()), acts) && S() == Run(h, old(S()), acts)
                && (forall a <- acts :: ByOther(a, pub))
                && Moves(acts) + future == old(future)
    {
      assert LegalRun(h, S(), []) && S() == Run(h, S(), []) && Moves([]) == 0;
    }

    method Yield(ghost pub: nat)
      requires Valid()
      modifies this
      ensures Valid() && future <= old(future)
      ensures PhaseOf(S(), pub) == PhaseOf(old(S()), pub) && Sent(S(), pub) == Sent(old(S()), pub)
      ensures !PhaseOf(old(S()), pub).Idle? ==> Undisturbed(old(S()), S(), pub)
      ensures !PhaseOf(S(), pub).Idle? && future == old(future) ==>
                S().active == old(S()).active && tail == old(tail)
    {
      Interfere(pub);
      ghost var acts :|
        && LegalRun(h, old(S()), acts) && S() == Run(h, old(S()), acts)
        && (forall a <- acts :: ByOther(a, pub))
        && Moves(acts) + future == old(future);
      OthersRun(h, old(S()), acts, pub);
    }

    /** Records a step whose effect on memory and tail has just been carried out. */
    ghost method Record(a: Action, was: State)
      requires Inv(h, was) && NoLeak(h, was) && Legal(was, a)
      requires mem == Step(h, was, a).mem && tail == Step(h, was, a).tail && headIdx == Step(h, was, a).headIdx
      modifies this`rest
      ensures Valid() && S() == Step(h, was, a)
    {
      StepKeepsInv(h, was, a);
      StepKeepsNoLeak(h, was, a);
      rest := Step(h, was, a);
    }

    method Construct(item: Loc, msg: Msg) returns (localTail: Loc)
      requires Valid() && PhaseOf(S(), msg.pub).Idle? && item != 0 && item !in mem.next
      modifies this
      ensures Valid() && S() == DoBegin(old(S()), msg.pub, item, msg) && localTail == old(tail)
      ensures future == old(future)
    {
      ghost var was := S();
      mem := Memory(mem.next[item := 0], mem.payload[item := msg]);
      localTail := tail;
      Record(Begin(msg.pub, item, msg), was);
    }

    method LoadNext(localTail: Loc, ghost pub: nat) returns (n: Loc)
      requires Valid() && PhaseOf(S(), pub).Loaded? && PhaseOf(S(), pub).tail == localTail
      modifies this
      ensures Valid() && S() == DoReadNext(old(S()), pub)
      ensures localTail in old(mem.next) && n == old(mem.next)[localTail]
      ensures future == old(future)
    {
      ghost var was := S();
      assert PhaseOk(was, Spare(h, was.headIdx), PhaseOf(was, pub));
      n := mem.next[localTail];
      Record(ReadNext(pub), was);
    }

    method LoadShared(ghost pub: nat) returns (expected: Loc)
      requires Valid() && PhaseOf(S(), pub).Found?
      modifies this
      ensures Valid() && S() == DoLoadTail(old(S()), pub) && expected == old(tail)
      ensures future == old(future)
    {
      hide Inv, NoLeak;
      ghost var was := S();
      expected := tail;
      Record(LoadTail(pub), was);
    }

    method CompareExchangeTail(expected: Loc, n: Loc, ghost pub: nat) returns (ok: bool)
      requires Valid() && PhaseOf(S(), pub).Swinging?
      requires PhaseOf(S(), pub).expected == expected && PhaseOf(S(), pub).n == n
      modifies this
      ensures Valid() && S() == DoSwingTail(old(S()), pub)
      ensures ok == (old(tail) == expected)
      ensures future == old(future)
    {
      hide Inv, NoLeak;
      ghost var was := S();
      ok := tail == expected;
      if ok {
        tail := n;
      }
      Record(SwingTail(pub), was);
    }

    method CompareExchangeNext(localTail: Loc, item: Loc, ghost pub: nat) returns (ok: bool)
      requires Valid() && PhaseOf(S(), pub).Linking?
      requires PhaseOf(S(), pub).tail == localTail && PhaseOf(S(), pub).item == item
      modifies this
      ensures Valid() && S() == DoLink(old(S()), pub)
      ensures localTail in old(mem.next) && ok == (old(mem.next)[localTail] == 0)
      ensures future == old(future)
    {
      hide Inv, NoLeak;
      ghost var was := S();
      EndIsLast(h, was, pub);
      ok := mem.next[localTail] == 0;
      if ok {
        mem := mem.(next := mem.next[localTail := item]);
      }
      Record(Link(pub), was);
    }

    /** Appends one message. It returns once the item is linked, exactly once, after everything
        this publisher finished before. Every failed round is paid for by a competing step. */
    method Publish(msg: Msg, item: Loc)
      requires Valid() && PhaseOf(S(), msg.pub).Idle? && item != 0 && item !in mem.next
      modifies this
      ensures Valid() && PhaseOf(S(), msg.pub).Idle?
      ensures Sent(S(), msg.pub) == Sent(old(S()), msg.pub) + [msg]
    {
      hide Inv, NoLeak;
      ghost var pub := msg.pub;
      var localTail := Construct(item, msg);
      Yield(pub);
      var linked := false;
      while !linked
        invariant Valid()
        invariant !linked ==> Appending(pub, item, msg, localTail) && Sent(S(), pub) == Sent(old(S()), pub)
        invariant linked ==> PhaseOf(S(), pub).Idle? && Sent(S(), pub) == Sent(old(S()), pub) + [msg]
        decreases future, !linked
      {
        localTail := FindEnd(pub, item, msg, localTail);
        linked := TryLink(pub, item, msg, localTail);
      }
    }

    ghost predicate Appending(pub: nat, item: Loc, msg: Msg, localTail: Loc)
      reads this
    {
      && PhaseOf(S(), pub) == Loaded(item, localTail) && Holding(item, msg) && msg.pub == pub
    }

    ghost predicate Holding(item: Loc, msg: Msg)
      reads this
    {
      item in mem.payload && mem.payload[item] == msg
    }

    /** Walks to a node without successor, dragging the shared tail along; when the shared tail
        moved under it, it reads the same node again. */
    method FindEnd(ghost pub: nat, item: Loc, ghost msg: Msg, start: Loc) returns (localTail: Loc)
      requires Valid() && Appending(pub, item, msg, start)
      modifies this
      ensures Valid() && future <= old(future)
      ensures PhaseOf(S(), pub) == Linking(item, localTail) && Holding(item, msg)
      ensures Sent(S(), pub) == Sent(old(S()), pub)
      ensures localTail in mem.next && mem.next[localTail] == 0
    {
      hide Inv, NoLeak;
      localTail := start;
      ghost var pos: nat := Position(pub);
      while true
        invariant Valid() && Appending(pub, item, msg, localTail)
        invariant Sent(S(), pub) == Sent(old(S()), pub) && future <= old(future)
        invariant pos < |S().active| && S().active[pos] == localTail
        decreases future, |S().active| - pos
      {
        var n := LoadNext(localTail, pub);
        if n == 0 {
          return;
        }
        localTail, pos := Advance(pub, item, msg, localTail, n, pos);
        Yield(pub);
      }
    }

    /** Where the publisher's local tail is on the list. */
    ghost method Position(pub: nat) returns (pos: nat)
      requires Valid() && PhaseOf(S(), pub).Loaded?
      ensures pos < |S().active| && S().active[pos] == PhaseOf(S(), pub).tail
    {
      assert PhaseOk(S(), Spare(h, S().headIdx), PhaseOf(S(), pub));
      pos :| 0 <= pos < |S().active| && S().active[pos] == PhaseOf(S(), pub).tail;
    }

    /** Tries to swing the shared tail to the successor `n`, and steps to it if that worked. */
    method Advance(ghost pub: nat, item: Loc, ghost msg: Msg, localTail: Loc, n: Loc, ghost pos: nat)
      returns (newTail: Loc, ghost newPos: nat)
      requires Valid() && PhaseOf(S(), pub) == Found(item, localTail, n) && Holding(item, msg) && msg.pub == pub
      requires pos < |S().active| && S().active[pos] == localTail
      modifies this
      ensures Valid() && Appending(pub, item, msg, newTail) && future <= old(future)
      ensures Sent(S(), pub) == Sent(old(S()), pub)
      ensures newPos < |S().active| && S().active[newPos] == newTail
      ensures future == old(future) ==> S().active == old(S()).active && newPos == pos + 1
    {
      hide Inv, NoLeak;
      NextPosition(h, S(), pub, pos);
      Yield(pub);
      var expected := LoadShared(pub);
      Yield(pub);
      var ok := CompareExchangeTail(expected, n, pub);
      if ok {
        newTail, newPos := n, pos + 1;
      } else {
        newTail, newPos := localTail, pos;
      }
    }

    /** Links the item behind `localTail`; failing means that a competitor linked one first. */
    method TryLink(ghost pub: nat, item: Loc, ghost msg: Msg, localTail: Loc) returns (ok: bool)
      requires Valid() && PhaseOf(S(), pub) == Linking(item, localTail) && Holding(item, msg) && msg.pub == pub
      requires localTail in mem.next && mem.next[localTail] == 0
      modifies this
      ensures Valid() && future <= old(future)
      ensures ok ==> PhaseOf(S(), pub).Idle? && Sent(S(), pub) == Sent(old(S()), pub) + [msg]
      ensures !ok ==> Appending(pub, item, msg, localTail) && Sent(S(), pub) == Sent(old(S()), pub)
      ensures !ok ==> future < old(future) && |S().active| > |old(S()).active|
    {
      hide Inv, NoLeak;
      EndIsLast(h, S(), pub);
      Yield(pub);
      EndIsLast(h, S(), pub);
      ok := CompareExchangeNext(localTail, item, pub);
    }

    /** Any steps of any publishers, while the client's thread is between two of its own. */
    method YieldToPublishers()
      requires Valid()
      modifies this
      ensures Valid() && Frozen(old(S()), S())
    {
      InterfereByPublishers();
      ghost var acts :|
        && LegalRun(h, old(S()), acts) && S() == Run(h, old(S()), acts) && (forall a <- acts :: ByPublisher(a));
      PublishersRun(h, old(S()), acts);
    }

    method InterfereByPublishers()
      requires Valid()
      modifies this
      ensures exists acts ::
                LegalRun(h, old(S()), acts) && S() == Run(h, old(S()), acts) && (forall a <- acts :: ByPublisher(a))
    {
      assert LegalRun(h, S(), []) && S() == Run(h, S(), []);
    }

    method FirstItem(hd: Loc) returns (p: Loc)
      requires Valid() && S().reader.Cut? && hd == Spare(h, S().headIdx)
      modifies this
      ensures Valid() && S() == DoTakeFirst(h, old(S())) && S().reader == AtItem(p)
      ensures mem == old(mem)
    {
      ghost var was := S();
      assert was.pending[0] in was.pending;
      p := mem.next[hd];
      Record(TakeFirst, was);
    }

    /** The delivery attempt; the payload is released after it. */
    method Handle(p: Loc) returns (m: Msg)
      requires Valid() && S().reader == AtItem(p)
      modifies this
      ensures Valid() && S().reader == Done(p) && S().headIdx == old(S()).headIdx
      ensures p in old(mem.payload) && m == old(mem.payload)[p] && mem.payload == old(mem.payload) - {p}
      ensures S().delivered == old(S()).delivered + [m]
      ensures S().pending == old(S()).pending && S().pending != [] && S().pending[0] == p
    {
      ghost var was := S();
      assert was.pending[0] in Waiting(was);
      m := mem.payload[p];
      mem := mem.(payload := mem.payload - {p});
      Record(Deliver, was);
    }

    method Release(p: Loc) returns (n: Loc)
      requires Valid() && S().reader == Done(p)
      modifies this
      ensures Valid() && S().headIdx == old(S()).headIdx && mem.payload == old(mem.payload)
      ensures S().delivered == old(S()).delivered
      ensures old(S()).pending != [] && S().pending == old(S()).pending[1..]
      ensures old(S()).pending[0] !in S().pending
      ensures S().reader == if n == 0 then Drained else AtItem(n)
      ensures n == 0 <==> S().pending == []
    {
      ghost var was := S();
      ChainedRest(was.mem.next, was.pending);
      assert was.pending[0] in was.pending;
      n := mem.next[p];
      mem := mem.(next := mem.next - {p});
      Record(Free, was);
    }

    method Empty(hd: Loc)
      requires Valid() && S().reader.Drained? && hd == Spare(h, S().headIdx)
      modifies this
      ensures Valid() && S().reader.Polling? && S().headIdx == old(S()).headIdx
      ensures S().delivered == old(S()).delivered && hd in mem.next && mem.next[hd] == 0
    {
      ghost var was := S();
      mem := mem.(next := mem.next[hd := 0]);
      Record(Reset, was);
    }

    /** One item: handled, then freed; its successor was read just before. */
    method DrainOne(p: Loc, ghost was: State, ghost handed: seq<Msg>, ghost k: nat) returns (m: Msg, n: Loc)
      requires Valid() && S().reader == AtItem(p) && Remaining(was, S(), k) && HandedOver(was, handed, k)
      modifies this
      ensures Valid() && S().headIdx == old(S()).headIdx
      ensures S().reader == if n == 0 then Drained else AtItem(n)
      ensures Remaining(was, S(), k + 1) && HandedOver(was, handed + [m], k + 1)
      ensures n == 0 <==> k + 1 == |was.pending|
      ensures S().delivered == old(S()).delivered + [m]
    {
      hide Inv, NoLeak;
      YieldToPublishers();
      RemainingKept(was, old(S()), S(), k);
      ghost var before := S();
      m := Handle(p);
      ghost var between := S();
      YieldToPublishers();
      ghost var after := S();
      n := Release(p);
      RemainingStep(was, before, between, after, S(), k, p, handed, m);
    }

    /** Handles and frees every item of the cut-off list whose head is `hd`, then empties that
        head. The messages are handed over in list order, each once. */
    method Drain(hd: Loc) returns (handed: seq<Msg>)
      requires Valid() && S().reader.Cut? && hd == Spare(h, S().headIdx)
      modifies this
      ensures Valid() && S().reader.Polling? && S().headIdx == old(S()).headIdx
      ensures hd in mem.next && mem.next[hd] == 0
      ensures S().delivered == old(S()).delivered + handed
      ensures HandedOver(old(S()), handed, |old(S()).pending|)
    {
      hide Inv, NoLeak;
      ghost var was := S();
      PendingReady(h, was);
      var p := FirstItem(hd);
      handed := [];
      ghost var k: nat := 0;
      while true
        invariant Valid() && hd == Spare(h, S().headIdx) && S().headIdx == was.headIdx
        invariant S().reader == AtItem(p)
        invariant Remaining(was, S(), k) && HandedOver(was, handed, k)
        invariant S().delivered == was.delivered + handed
        decreases |was.pending| - k
      {
        var m, n := DrainOne(p, was, handed, k);
        handed, k := handed + [m], k + 1;
        if n == 0 {
          break;
        }
        p := n;
      }
      YieldToPublishers();
      Empty(hd);
    }

    /** The poll of the list in use. */
    method Check() returns (found: bool)
      requires Valid() && S().reader.Polling?
      modifies this
      ensures Valid() && S() == DoCheck(h, old(S()))
      ensures S().reader == if found then Ready else Polling
      ensures !found ==> S().linked == S().delivered
    {
      ghost var was := S();
      assert was.active[0] in was.active;
      NothingListed(h, was);
      found := mem.next[InUse(h, headIdx)] != 0;
      Record(BroadcastQueue.Action.Check, was);
    }

    /** The other list becomes the one in use; the old one is cut off with all its items. */
    method SwapHeads() returns (oldHead: Loc)
      requires Valid() && S().reader.Ready? && AllIdle(S())
      modifies this
      ensures Valid() && S() == DoSwap(h, old(S()))
      ensures oldHead == Spare(h, headIdx) && S().linked == S().delivered + Listed(S())
    {
      ghost var was := S();
      oldHead := InUse(h, headIdx);
      tail := Spare(h, headIdx);
      headIdx := 1 - headIdx;
      Record(Swap, was);
      AllCutOff(h, S());
    }

    /** The turn that follows a successful poll. Only the swap itself needs idle publishers;
        single steps of appends fall between any steps of the drain. Exactly what was linked
        before the swap is delivered after it, in order. */
    method SwapAndDrain() returns (handed: seq<Msg>)
      requires Valid() && S().reader.Ready? && AllIdle(S())
      modifies this
      ensures Valid() && S().reader.Polling?
      ensures S().delivered == old(S()).delivered + handed == old(S()).linked
    {
      hide Inv, NoLeak;
      var oldHead := SwapHeads();
      ghost var cut := S();
      handed := Drain(oldHead);
      AllHanded(cut, handed);
    }
  }

  ghost function Listed(s: State): seq<Msg> {
    if forall x <- s.pending :: x in s.mem.payload then Msgs(s.mem.payload, s.pending) else []
  }

  lemma NothingListed(h: Heads, s: State)
    requires Inv(h, s) && s.reader.Polling?
    ensures InUse(h, s.headIdx) in s.mem.next
    ensures s.mem.next[InUse(h, s.headIdx)] == 0 ==> s.linked == s.delivered
  {
    SuccessorOnList(s.mem.next, s.active, s.active[0]);
    if s.mem.next[InUse(h, s.headIdx)] == 0 {
      assert s.active[1..] == [] && Waiting(s) == [];
    }
  }

  lemma AllCutOff(h: Heads, s: State)
    requires Inv(h, s) && s.reader.Cut? && |s.active| == 1
    ensures s.linked == s.delivered + Listed(s)
  {
    assert Waiting(s) == s.pending && s.active[1..] == [];
  }

  lemma AllHanded(s: State, handed: seq<Msg>)
    requires HandedOver(s, handed, |s.pending|)
    ensures handed == Listed(s)
  {
  }

  /** The first `k` messages of the list that was cut off. */
  ghost predicate HandedOver(was: State, handed: seq<Msg>, k: nat) {
    && |handed| == k <= |was.pending|
    && forall i :: 0 <= i < k ==> was.pending[i] in was.mem.payload && handed[i] == was.mem.payload[was.pending[i]]
  }

  /** What is left of the list after `k` items. */
  ghost predicate Remaining(was: State, s: State, k: nat) {
    && k <= |was.pending|
    && s.pending == was.pending[k..]
    && (forall x <- s.pending :: x in was.mem.payload && x in s.mem.payload && s.mem.payload[x] == was.mem.payload[x])
  }

  lemma RemainingKept(was: State, s: State, s': State, k: nat)
    requires Remaining(was, s, k) && Frozen(s, s')
    ensures Remaining(was, s', k)
  {
  }

  lemma RemainingStep(was: State, before: State, between: State, after: State, s: State, k: nat, p: Loc,
                      handed: seq<Msg>, m: Msg)
    requires Remaining(was, before, k) && HandedOver(was, handed, k)
    requires before.pending != [] && before.pending[0] == p && p !in before.pending[1..]
    requires p in before.mem.payload && m == before.mem.payload[p]
    requires between.pending == before.pending && between.mem.payload == before.mem.payload - {p}
    requires Frozen(between, after)
    requires s.pending == after.pending[1..] && s.mem.payload == after.mem.payload
    ensures Remaining(was, s, k + 1) && HandedOver(was, handed + [m], k + 1)
    ensures s.pending == [] <==> k + 1 == |was.pending|
  {
    assert was.pending[k..][0] == was.pending[k];
    assert was.pending[k..][1..] == was.pending[k + 1..];
    forall x <- s.pending ensures x in before.pending && x != p {
    }
  }

  lemma PendingReady(h: Heads, s: State)
    requires Inv(h, s) && s.reader.Cut?
    ensures Remaining(s, s, 0) && s.pending != []
  {
    assert Waiting(s) == s.pending;
    assert s.pending[0..] == s.pending;
  }

  /** A successor that was read is the next position. */
  lemma NextPosition(h: Heads, s: State, pub: nat, pos: nat)
    requires Inv(h, s) && PhaseOf(s, pub).Found? && pos < |s.active| && s.active[pos] == PhaseOf(s, pub).tail
    ensures pos + 1 < |s.active| && s.active[pos + 1] == PhaseOf(s, pub).n
  {
    assert PhaseOk(s, Spare(h, s.headIdx), PhaseOf(s, pub));
    assert NodeAt(s.mem.next, s.active, pos);
  }

  /** A local tail has no successor exactly when it ends the list. */
  lemma EndIsLast(h: Heads, s: State, pub: nat)
    requires Inv(h, s) && PhaseOf(s, pub).Linking?
    ensures var t := PhaseOf(s, pub).tail;
            && t in s.mem.next && PhaseOf(s, pub).item in s.mem.payload && s.active != []
            && (s.mem.next[t] == 0 <==> t == s.active[|s.active| - 1])
  {
    assert PhaseOk(s, Spare(h, s.headIdx), PhaseOf(s, pub));
    SuccessorOnList(s.mem.next, s.active, PhaseOf(s, pub).tail);
  }
}
