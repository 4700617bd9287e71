/** When may the reader swap heads? Exactly when no publisher is in the middle of an append. */
module BroadcastSwaps {
  import opened BroadcastQueue

  /** Nothing that the threads do from here on, as long as later swaps wait for the publishers,
      touches memory that is gone, breaks the order of messages or finds the idle head occupied. */
  ghost predicate StaysSafe(h: Heads, s: State) {
    forall acts :: LegalRun(h, s, acts) ==> SafeAt(h, Run(h, s, acts))
  }

  ghost predicate SafeAt(h: Heads, s: State) {
    && !s.fault
    && HistoryOk(s)
    && (Legal(s, Swap) ==> Spare(h, s.headIdx) in s.mem.next && s.mem.next[Spare(h, s.headIdx)] == 0)
  }

  // ---------------------------------------------------------------------- runs

  lemma {:induction false} RunJoin(h: Heads, s: State, a: seq<Action>, b: seq<Action>)
    requires LegalRun(h, s, a) && LegalRun(h, Run(h, s, a), b)
    ensures LegalRun(h, s, a + b) && Run(h, s, a + b) == Run(h, Run(h, s, a), b)
    decreases |a|
  {
    if a == [] {
      assert a + b == b;
    } else {
      assert (a + b)[1..] == a[1..] + b;
      RunJoin(h, Step(h, s, a[0]), a[1..], b);
    }
  }

  lemma RunFirst(h: Heads, s: State, a: Action, rest: seq<Action>)
    ensures Run(h, s, [a] + rest) == Run(h, Step(h, s, a), rest)
    ensures LegalRun(h, s, [a] + rest) <==> Legal(s, a) && LegalRun(h, Step(h, s, a), rest)
  {
    assert ([a] + rest)[1..] == rest;
  }

  // ------------------------------------------------------ an overtaken publisher

  /** The list with the spare head is cut off and not yet drained. */
  ghost predicate CutOff(h: Heads, s: State) {
    var hd := Spare(h, s.headIdx);
    && s.reader.Cut? && s.pending != []
    && Chained(s.mem.next, s.pending)
    && hd !in s.pending && hd in s.mem.next && s.mem.next[hd] == s.pending[0]
    && forall x <- s.pending :: x in s.mem.payload
  }

  /** The publisher's local tail is on the list that was cut off. */
  ghost predicate Overtaken(h: Heads, s: State, ph: Phase) {
    && !ph.Idle?
    && ph.item in s.mem.payload
    && (ph.tail == Spare(h, s.headIdx) || ph.tail in s.pending)
    && (ph.Found? || ph.Swinging? ==> ph.n in s.pending)
  }

  /** The node the publisher reads or links next will be freed. */
  ghost predicate Doomed(s: State, ph: Phase) {
    (ph.Linking? && ph.tail in s.pending) || (ph.Found? && ph.n in s.pending)
  }

  lemma SwapOvertakes(h: Heads, s: State, pub: nat)
    requires Inv(h, s) && s.reader.Ready? && !PhaseOf(s, pub).Idle?
    ensures CutOff(h, DoSwap(h, s)) && Overtaken(h, DoSwap(h, s), PhaseOf(s, pub))
  {
    var ph, hd := PhaseOf(s, pub), s.active[0];
    assert PhaseOk(s, Spare(h, s.headIdx), ph);
    assert NodeAt(s.mem.next, s.active, 0) && NodeAt(s.mem.next, s.active, 1);
    ChainedRest(s.mem.next, s.active);
    Parts(s.active);
    assert Waiting(s) == [];
    if ph.Found? || ph.Swinging? {
      assert ph.n != hd by {
        var i :| 0 <= i < |s.active| && s.active[i] == ph.tail;
        assert NodeAt(s.mem.next, s.active, i);
      }
    }
  }

  function Distance(ph: Phase): nat {
    match ph
    case Idle => 0
    case Found(_, _, _) => 0
    case Loaded(_, _) => 1
    case Swinging(_, _, _, _) => 2
    case Linking(_, _) => 2
  }

  /** One own step brings an overtaken publisher closer to a node that will be freed. */
  lemma OvertakenStep(h: Heads, s: State, pub: nat) returns (a: Action)
    requires CutOff(h, s) && Overtaken(h, s, PhaseOf(s, pub)) && !Doomed(s, PhaseOf(s, pub))
    ensures Legal(s, a) && (a.ReadNext? || a.SwingTail? || a.Link?)
    ensures var t := Step(h, s, a);
            && CutOff(h, t) && Overtaken(h, t, PhaseOf(t, pub))
            && (Doomed(t, PhaseOf(t, pub)) || Distance(PhaseOf(t, pub)) < Distance(PhaseOf(s, pub)))
  {
    var ph := PhaseOf(s, pub);
    assert s.pending[0] in s.pending && s.pending[0] != 0;
    if ph.Loaded? {
      a := ReadNext(pub);
      if ph.tail in s.pending { SuccessorOnList(s.mem.next, s.pending, ph.tail); }
    } else if ph.Swinging? {
      a := SwingTail(pub);
    } else {
      a := Link(pub);
    }
  }

  lemma {:induction false} Overtake(h: Heads, s: State, pub: nat) returns (acts: seq<Action>)
    requires CutOff(h, s) && Overtaken(h, s, PhaseOf(s, pub))
    ensures LegalRun(h, s, acts)
    ensures var t := Run(h, s, acts); CutOff(h, t) && Doomed(t, PhaseOf(t, pub))
    decreases Distance(PhaseOf(s, pub))
  {
    acts := [];
    if !Doomed(s, PhaseOf(s, pub)) {
      var a := OvertakenStep(h, s, pub);
      var t := Step(h, s, a);
      if Doomed(t, PhaseOf(t, pub)) {
        RunFirst(h, s, a, []);
        acts := [a] + [];
      } else {
        var rest := Overtake(h, t, pub);
        RunFirst(h, s, a, rest);
        acts := [a] + rest;
      }
    }
  }

  /** The reader alone can deliver and free everything that is cut off. */
  lemma {:induction false} DrainAll(h: Heads, s: State) returns (acts: seq<Action>)
    requires s.pending != [] && s.reader == AtItem(s.pending[0])
    requires Chained(s.mem.next, s.pending) && forall x <- s.pending :: x in s.mem.payload
    ensures LegalRun(h, s, acts)
    ensures var t := Run(h, s, acts);
            && t.pubs == s.pubs && t.tail == s.tail
            && t.mem.next.Keys <= s.mem.next.Keys
            && forall x <- s.pending :: x !in t.mem.next
    decreases |s.pending|
  {
    var p, rest := s.pending[0], s.pending[1..];
    var t := Step(h, Step(h, s, Deliver), Free);
    ChainedRest(s.mem.next, s.pending);
    Parts(s.pending);
    assert p in s.pending;
    assert t.pending == rest && t.mem.next == s.mem.next - {p};
    var more: seq<Action> := [];
    if rest != [] {
      more := DrainAll(h, t);
    }
    RunFirst(h, Step(h, s, Deliver), Free, more);
    RunFirst(h, s, Deliver, [Free] + more);
    acts := [Deliver] + ([Free] + more);
  }

  /** After the drain the publisher's next access finds nothing there. */
  lemma DoomedFaults(h: Heads, s: State, pub: nat, gone: seq<Loc>) returns (acts: seq<Action>)
    requires var ph := PhaseOf(s, pub); (ph.Linking? && ph.tail in gone) || (ph.Found? && ph.n in gone)
    requires forall x <- gone :: x !in s.mem.next
    ensures LegalRun(h, s, acts) && Run(h, s, acts).fault
  {
    if PhaseOf(s, pub).Linking? {
      RunFirst(h, s, Link(pub), []);
      acts := [Link(pub)] + [];
    } else {
      var s1 := Step(h, s, LoadTail(pub));
      var s2 := Step(h, s1, SwingTail(pub));
      RunFirst(h, s2, ReadNext(pub), []);
      RunFirst(h, s1, SwingTail(pub), [ReadNext(pub)] + []);
      RunFirst(h, s, LoadTail(pub), [SwingTail(pub)] + ([ReadNext(pub)] + []));
      acts := [LoadTail(pub)] + ([SwingTail(pub)] + ([ReadNext(pub)] + []));
    }
  }

  /** Whichever of its four phases a publisher is in, and whether its local tail is the head or
      an item: if the swap overtakes it, some continuation touches memory that is gone. */
  lemma StraddlingSwapFaults(h: Heads, s: State, pub: nat) returns (acts: seq<Action>)
    requires Inv(h, s) && s.reader.Ready? && !PhaseOf(s, pub).Idle?
    ensures LegalRun(h, DoSwap(h, s), acts) && Run(h, DoSwap(h, s), acts).fault
  {
    var s0 := DoSwap(h, s);
    SwapOvertakes(h, s, pub);
    hide Inv;
    var first := Overtake(h, s0, pub);
    var s1 := Run(h, s0, first);
    var s2 := Step(h, s1, TakeFirst);
    assert s1.pending[0] in s1.pending;
    var drain := DrainAll(h, s2);
    RunFirst(h, s1, TakeFirst, drain);
    var s3 := Run(h, s2, drain);
    var last := DoomedFaults(h, s3, pub, s1.pending);
    RunJoin(h, s1, [TakeFirst] + drain, last);
    RunJoin(h, s0, first, [TakeFirst] + drain + last);
    acts := first + ([TakeFirst] + drain + last);
  }

  /** The rule for swaps: everything that follows one is safe if and only if no publisher is in
      the middle of an append when it happens. */
  lemma SwapIsSafeIff(h: Heads, s: State)
    requires Inv(h, s) && NoLeak(h, s) && s.reader.Ready?
    ensures StaysSafe(h, DoSwap(h, s)) <==> AllIdle(s)
  {
    var t := DoSwap(h, s);
    if AllIdle(s) {
      StepKeepsInv(h, s, Swap);
      StepKeepsNoLeak(h, s, Swap);
      forall acts | LegalRun(h, t, acts) ensures SafeAt(h, Run(h, t, acts)) {
        RunKeepsInv(h, t, acts);
      }
    } else {
      var pub :| pub in s.pubs && !s.pubs[pub].Idle?;
      var acts := StraddlingSwapFaults(h, s, pub);
      assert !SafeAt(h, Run(h, t, acts));
    }
  }

  // -------------------------------------------------------------------- examples

  const HEADS := Heads(1, 2)

  lemma RunTwo(h: Heads, s: State, a: Action, b: Action)
    ensures LegalRun(h, s, [a, b]) <==> Legal(s, a) && Legal(Step(h, s, a), b)
    ensures Run(h, s, [a, b]) == Step(h, Step(h, s, a), b)
  {
    RunFirst(h, Step(h, s, a), b, []);
    RunFirst(h, s, a, [b]);
    assert [a] + [b] == [a, b] && [b] + [] == [b];
  }

  lemma RunThree(h: Heads, s: State, a: Action, b: Action, c: Action)
    ensures LegalRun(h, s, [a, b, c]) <==>
            Legal(s, a) && Legal(Step(h, s, a), b) && Legal(Step(h, Step(h, s, a), b), c)
    ensures Run(h, s, [a, b, c]) == Step(h, Step(h, Step(h, s, a), b), c)
  {
    RunTwo(h, Step(h, s, a), b, c);
    RunFirst(h, s, a, [b, c]);
    assert [a] + [b, c] == [a, b, c];
  }

  /** Publisher 1 reads the shared tail, publisher 0 appends an item, the reader sees it. */
  function Before(m0: Msg, m1: Msg): seq<Action> {
    [Begin(1, 4, m1), Begin(0, 3, m0)] + [ReadNext(0), Link(0), Check]
  }

  lemma BeforeRuns(m0: Msg, m1: Msg)
    requires m0.pub == 0 && m1.pub == 1
    ensures LegalRun(HEADS, Initial(HEADS), Before(m0, m1))
    ensures var s := Run(HEADS, Initial(HEADS), Before(m0, m1));
            && s.mem == Memory(map[1 := 3, 2 := 0, 3 := 0, 4 := 0], map[3 := m0, 4 := m1])
            && s.pubs == map[0 := Idle, 1 := Loaded(4, 1)]
            && s.reader == Ready && !s.fault && s.headIdx == 0 && s.tail == 1
            && s.active == [1, 3] && s.delivered == [] && 1 !in s.sent
  {
    var s0, first := Initial(HEADS), [Begin(1, 4, m1), Begin(0, 3, m0)];
    var s2 := Run(HEADS, s0, first);
    BothBegin(m0, m1);
    hide Initial;
    RunThree(HEADS, s2, ReadNext(0), Link(0), Check);
    var s3 := Step(HEADS, s2, ReadNext(0));
    assert s3 == s2.(pubs := map[1 := Loaded(4, 1), 0 := Linking(3, 1)]);
    RunJoin(HEADS, s0, first, [ReadNext(0), Link(0), Check]);
  }

  lemma BothBegin(m0: Msg, m1: Msg)
    requires m0.pub == 0 && m1.pub == 1
    ensures var acts := [Begin(1, 4, m1), Begin(0, 3, m0)];
            && LegalRun(HEADS, Initial(HEADS), acts)
            && Run(HEADS, Initial(HEADS), acts) ==
               State(Memory(map[1 := 0, 2 := 0, 3 := 0, 4 := 0], map[3 := m0, 4 := m1]), 1, 0,
                     map[1 := Loaded(4, 1), 0 := Loaded(3, 1)], Polling, false, [1], [], [], [], map[])
  {
    RunTwo(HEADS, Initial(HEADS), Begin(1, 4, m1), Begin(0, 3, m0));
  }

  /** A reachable state in which a swap would straddle an append, and what may follow it. */
  lemma ReachableStraddle(m0: Msg, m1: Msg)
    requires m0.pub == 0 && m1.pub == 1
    ensures var s := Run(HEADS, Initial(HEADS), Before(m0, m1));
            && LegalRun(HEADS, Initial(HEADS), Before(m0, m1))
            && s.reader.Ready? && !AllIdle(s)
            && exists acts :: LegalRun(HEADS, DoSwap(HEADS, s), acts) && Run(HEADS, DoSwap(HEADS, s), acts).fault
  {
    BeforeRuns(m0, m1);
    InitialInv(HEADS);
    RunKeepsInv(HEADS, Initial(HEADS), Before(m0, m1));
    var s := Run(HEADS, Initial(HEADS), Before(m0, m1));
    assert !s.pubs[1].Idle?;
    var acts := StraddlingSwapFaults(HEADS, s, 1);
  }

  lemma OneDrained(s: State, m0: Msg, m1: Msg)
    requires s.mem == Memory(map[1 := 3, 2 := 0, 3 := 0, 4 := 0], map[3 := m0, 4 := m1])
    requires s.reader == Cut && s.headIdx == 1 && s.pending == [3]
    ensures var acts := [TakeFirst, Deliver, Free];
            && LegalRun(HEADS, s, acts)
            && Run(HEADS, s, acts) == s.(mem := Memory(map[1 := 3, 2 := 0, 4 := 0], map[4 := m1]),
                 delivered := s.delivered + [m0], reader := Drained, pending := [])
  {
    RunThree(HEADS, s, TakeFirst, Deliver, Free);
  }

  lemma LinksBehindIdleHead(s: State, m1: Msg)
    requires s.mem == Memory(map[1 := 3, 2 := 0, 4 := 0], map[4 := m1])
    requires s.reader == Drained && s.headIdx == 1 && !s.fault && m1.pub == 1
    requires s.pubs == map[0 := Idle, 1 := Loaded(4, 1)] && 1 !in s.sent
    ensures var acts := [Reset, ReadNext(1), Link(1)];
            var t := Run(HEADS, s, acts);
            && LegalRun(HEADS, s, acts)
            && !t.fault && t.reader == Polling && AllIdle(t) && t.headIdx == 1
            && Sent(t, 1) == [m1] && t.delivered == s.delivered
            && t.mem.next == map[1 := 4, 2 := 0, 4 := 0]
  {
    RunThree(HEADS, s, Reset, ReadNext(1), Link(1));
  }

  /** The other way to fail, without any access to freed memory: the publisher links behind the
      idle head. Its message is finished, yet the list in use is empty. */
  lemma StraddledMessageIsHidden(m0: Msg, m1: Msg)
    requires m0.pub == 0 && m1.pub == 1
    ensures var s := DoSwap(HEADS, Run(HEADS, Initial(HEADS), Before(m0, m1)));
            var acts := [TakeFirst, Deliver, Free] + [Reset, ReadNext(1), Link(1)];
            var t := Run(HEADS, s, acts);
            && LegalRun(HEADS, s, acts)
            && !t.fault && t.reader.Polling? && AllIdle(t)
            && Sent(t, 1) == [m1] && t.delivered == [m0]
            && t.mem.next == map[1 := 4, 2 := 0, 4 := 0] && InUse(HEADS, t.headIdx) == 2
  {
    BeforeRuns(m0, m1);
    var s := DoSwap(HEADS, Run(HEADS, Initial(HEADS), Before(m0, m1)));
    hide Before, Step;
    OneDrained(s, m0, m1);
    var u := Run(HEADS, s, [TakeFirst, Deliver, Free]);
    LinksBehindIdleHead(u, m1);
    RunJoin(HEADS, s, [TakeFirst, Deliver, Free], [Reset, ReadNext(1), Link(1)]);
  }
}
