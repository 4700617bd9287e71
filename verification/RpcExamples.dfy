/** A run in which a reply overtakes another: two threads of the server answer the same request,
    and the final reply is published first. */
module RpcExamples {
  import M = ReplyMaps
  import opened RpcCorrelation

  lemma RunTwo(w: World, a: Action, b: Action)
    requires Legal(w, a) && Legal(Step(w, a), b)
    ensures LegalRun(w, [a, b]) && Run(w, [a, b]) == Step(Step(w, a), b)
  {
    assert [a, b][1..] == [b] && [b][1..] == [];
    assert LegalRun(Step(w, a), [b]) && Run(Step(w, a), [b]) == Step(Step(w, a), b);
  }

  lemma {:induction false} RunJoin(w: World, a: seq<Action>, b: seq<Action>)
    requires LegalRun(w, a) && LegalRun(Run(w, a), b)
    ensures LegalRun(w, a + b) && Run(w, a + b) == Run(Run(w, a), b)
    decreases |a|
  {
    hide Step, Legal;
    if a == [] {
      assert a + b == b;
    } else {
      assert (a + b)[1..] == a[1..] + b;
      RunJoin(Step(w, a[0]), a[1..], b);
    }
  }

  const TOPIC: M.Topic := 7
  const CLIENT: M.Owner := 1

  function AskerSide(id: string): M.ClientSide {
    M.ClientSide(1, {CLIENT}, M.Maps(map[id := CLIENT], map[CLIENT := {id}]))
  }

  function OneAsker(id: string): map<string, Asker> {
    map[id := Asker(TOPIC, CLIENT)]
  }

  /** Registered, and not yet published. */
  function Sending(id: string): World {
    World(map[TOPIC := AskerSide(id)], map[id := TOPIC], [], map[], map[], map[TOPIC := []], OneAsker(id), [], [], [])
  }

  /** In the server's map. */
  function Served(id: string): World {
    World(map[TOPIC := AskerSide(id)], map[], [], map[id := TOPIC], map[], map[TOPIC := []], OneAsker(id), [], [], [])
  }

  /** Both threads have left the lock region, the one with the final reply last. */
  function Replying(early: Reply, last: Reply): World {
    World(map[TOPIC := AskerSide(early.id)], map[], [], map[],
          map[0 := Outgoing(TOPIC, early), 1 := Outgoing(TOPIC, last)], map[TOPIC := []],
          OneAsker(early.id), [], [], [])
  }

  /** The final reply is published first. */
  function Overtaken(early: Reply, last: Reply): World {
    World(map[TOPIC := AskerSide(early.id)], map[], [], map[], map[], map[TOPIC := [last, early]],
          OneAsker(early.id), [last, early], [], [])
  }

  lemma AskRuns(id: string)
    ensures var acts := [AddClient(TOPIC), RegisterRequest(TOPIC, CLIENT, id)];
            LegalRun(Initial({TOPIC}), acts) && Run(Initial({TOPIC}), acts) == Sending(id)
  {
    assert Initial({TOPIC}).conns == map[TOPIC := M.NOBODY] && Initial({TOPIC}).replies == map[TOPIC := []];
    RunTwo(Initial({TOPIC}), AddClient(TOPIC), RegisterRequest(TOPIC, CLIENT, id));
    var joined := M.Joined(M.NOBODY);
    assert joined == M.ClientSide(1, {CLIENT}, M.EMPTY);
    assert M.IdsOf(M.EMPTY, CLIENT) + {id} == {id};
    assert M.Register(M.EMPTY, id, CLIENT) == AskerSide(id).maps;
  }

  lemma ServeRuns(id: string)
    ensures LegalRun(Sending(id), [PublishRequest(id), ReceiveRequest])
    ensures Run(Sending(id), [PublishRequest(id), ReceiveRequest]) == Served(id)
  {
    RunTwo(Sending(id), PublishRequest(id), ReceiveRequest);
  }

  lemma ReplyRuns(early: Reply, last: Reply)
    requires early.id == last.id && !early.isFinal && last.isFinal
    ensures var acts := [SendReply(0, early), SendReply(1, last)];
            LegalRun(Served(early.id), acts) && Run(Served(early.id), acts) == Replying(early, last)
  {
    RunTwo(Served(early.id), SendReply(0, early), SendReply(1, last));
  }

  lemma OvertakeRuns(early: Reply, last: Reply)
    ensures var acts := [PublishReply(1), PublishReply(0)];
            LegalRun(Replying(early, last), acts) && Run(Replying(early, last), acts) == Overtaken(early, last)
  {
    RunTwo(Replying(early, last), PublishReply(1), PublishReply(0));
    assert [] + [last] + [early] == [last, early];
    var w := Step(Step(Replying(early, last), PublishReply(1)), PublishReply(0));
    assert w.sendingReplies == map[] && w.replies == map[TOPIC := [last, early]];
  }

  lemma HearRuns(early: Reply, last: Reply)
    requires early.id == last.id && !early.isFinal && last.isFinal
    ensures var w, acts := Overtaken(early, last), [ReceiveReply(TOPIC), ReceiveReply(TOPIC)];
            && LegalRun(w, acts)
            && Run(w, acts).delivered == [Delivery(Asker(TOPIC, CLIENT), last)]
            && Run(w, acts).replies == map[TOPIC := []]
            && Run(w, acts).published == w.published && Run(w, acts).asked == w.asked
            && Attached(Run(w, acts), early.id)
  {
    RunTwo(Overtaken(early, last), ReceiveReply(TOPIC), ReceiveReply(TOPIC));
  }

  function LateReply(early: Reply, last: Reply): seq<Action> {
    [AddClient(TOPIC), RegisterRequest(TOPIC, CLIENT, early.id)]
    + ([PublishRequest(early.id), ReceiveRequest]
    + ([SendReply(0, early), SendReply(1, last)]
    + ([PublishReply(1), PublishReply(0)]
    + [ReceiveReply(TOPIC), ReceiveReply(TOPIC)])))
  }

  /** The server sent both replies, in order, and the client is still there with nothing left in
      its channel; but it heard only the final one. */
  lemma LateReplyIsDropped(early: Reply, last: Reply)
    requires early.id == last.id && !early.isFinal && last.isFinal
    ensures LegalRun(Initial({TOPIC}), LateReply(early, last))
    ensures var w := Run(Initial({TOPIC}), LateReply(early, last));
            && Attached(w, early.id) && Waiting(w, early.id) == []
            && ById(w.published, early.id) == [last, early]
            && Heard(w.delivered, early.id) == [last]
  {
    var id := early.id;
    AskRuns(id);
    ServeRuns(id);
    ReplyRuns(early, last);
    OvertakeRuns(early, last);
    HearRuns(early, last);
    var a5 := [ReceiveReply(TOPIC), ReceiveReply(TOPIC)];
    var a4 := [PublishReply(1), PublishReply(0)];
    var a3 := [SendReply(0, early), SendReply(1, last)];
    var a2 := [PublishRequest(id), ReceiveRequest];
    var a1 := [AddClient(TOPIC), RegisterRequest(TOPIC, CLIENT, id)];
    hide Run, LegalRun, Initial, Sending, Served, Replying, AskerSide;
    RunJoin(Replying(early, last), a4, a5);
    RunJoin(Served(id), a3, a4 + a5);
    RunJoin(Sending(id), a2, a3 + (a4 + a5));
    RunJoin(Initial({TOPIC}), a1, a2 + (a3 + (a4 + a5)));
    SnocById([last], early, id);
    SnocById([], last, id);
    SnocHeard([], Delivery(Asker(TOPIC, CLIENT), last), id);
    assert [last] + [early] == [last, early] && [] + [last] == [last];
    assert [] + [Delivery(Asker(TOPIC, CLIENT), last)] == [Delivery(Asker(TOPIC, CLIENT), last)];
  }
}
