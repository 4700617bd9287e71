/** The etcd service as its clients may rely on it: a transaction evaluates all of its
    comparisons and all of its operations in one step, and all its puts share one revision. */
module EtcdStore {
  import opened AppendLog
  import opened Wrappers

  /** Keys by role. KeySpace shows that the printed keys of distinct roles never coincide. */
  datatype Key = ChainKey(id: string) | DataKey(id: string) | ExtraKey(id: string)

  /** Stored bytes: plain text, an encoded payload, or an encoded pair of payload and next id. */
  datatype Value = Text(text: string) | Payload(data: Data) | Cell(data: Data, next: string)

  datatype KV = KV(value: Value, mod: nat, version: nat)

  datatype Store = Store(kvs: map<Key, KV>, rev: nat)

  const EMPTY: Store := Store(map[], 0)

  datatype Compare =
    | VersionAbove(key: Key, n: nat)
    | VersionIs(key: Key, n: nat)
    | ValueIs(key: Key, value: Value)
    | ModIs(key: Key, n: nat)

  datatype Op = Put(key: Key, value: Value) | Get(key: Key)

  datatype Reply = PutReply(rev: nat) | GetReply(kv: Option<KV>)

  datatype Txn = Txn(compares: seq<Compare>, success: seq<Op>, failure: seq<Op>)

  datatype TxnReply = TxnReply(succeeded: bool, responses: seq<Reply>)

  function Lookup(kvs: map<Key, KV>, k: Key): Option<KV> {
    if k in kvs then Some(kvs[k]) else None
  }

  function Version(s: Store, k: Key): nat {
    if k in s.kvs then s.kvs[k].version else 0
  }

  predicate Holds(s: Store, c: Compare) {
    match c
    case VersionAbove(k, n) => Version(s, k) > n
    case VersionIs(k, n) => Version(s, k) == n
    case ValueIs(k, v) => k in s.kvs && s.kvs[k].value == v
    case ModIs(k, n) => (if k in s.kvs then s.kvs[k].mod else 0) == n
  }

  /** One operation inside a transaction whose puts carry revision `rev`. */
  function RunOp(kvs: map<Key, KV>, op: Op, rev: nat): (map<Key, KV>, Reply) {
    match op
    case Get(k) => (kvs, GetReply(Lookup(kvs, k)))
    case Put(k, v) =>
      var version := if k in kvs then kvs[k].version + 1 else 1;
      (kvs[k := KV(v, rev, version)], PutReply(rev))
  }

  function RunOps(kvs: map<Key, KV>, ops: seq<Op>, rev: nat): (map<Key, KV>, seq<Reply>)
    decreases |ops|
  {
    if ops == [] then (kvs, [])
    else
      var (kvs1, reply) := RunOp(kvs, ops[0], rev);
      var (kvs2, replies) := RunOps(kvs1, ops[1..], rev);
      (kvs2, [reply] + replies)
  }

  predicate Writes(ops: seq<Op>) {
    exists i :: 0 <= i < |ops| && ops[i].Put?
  }

  function Exec(s: Store, t: Txn): (Store, TxnReply) {
    var ok := forall i :: 0 <= i < |t.compares| ==> Holds(s, t.compares[i]);
    var ops := if ok then t.success else t.failure;
    var rev := if Writes(ops) then s.rev + 1 else s.rev;
    var (kvs, replies) := RunOps(s.kvs, ops, rev);
    (Store(kvs, rev), TxnReply(ok, replies))
  }

  lemma RunOne(kvs: map<Key, KV>, a: Op, rev: nat)
    ensures var (k1, r1) := RunOp(kvs, a, rev); RunOps(kvs, [a], rev) == (k1, [r1])
  {
    var (k1, r1) := RunOp(kvs, a, rev);
    assert [a][1..] == [] && [r1] + [] == [r1];
  }

  lemma RunTwo(kvs: map<Key, KV>, a: Op, b: Op, rev: nat)
    ensures var (k1, r1) := RunOp(kvs, a, rev);
            var (k2, r2) := RunOp(k1, b, rev);
            RunOps(kvs, [a, b], rev) == (k2, [r1, r2])
  {
    var (k1, r1) := RunOp(kvs, a, rev);
    RunOne(k1, b, rev);
    var r2 := RunOp(k1, b, rev).1;
    assert [a, b][1..] == [b] && [r1] + [r2] == [r1, r2];
  }

  lemma RunThree(kvs: map<Key, KV>, a: Op, b: Op, c: Op, rev: nat)
    ensures var (k1, r1) := RunOp(kvs, a, rev);
            var (k2, r2) := RunOp(k1, b, rev);
            var (k3, r3) := RunOp(k2, c, rev);
            RunOps(kvs, [a, b, c], rev) == (k3, [r1, r2, r3])
  {
    var (k1, r1) := RunOp(kvs, a, rev);
    RunTwo(k1, b, c, rev);
    var (k2, r2) := RunOp(k1, b, rev);
    var r3 := RunOp(k2, c, rev).1;
    assert [a, b, c][1..] == [b, c] && [r1] + [r2, r3] == [r1, r2, r3];
  }
}
