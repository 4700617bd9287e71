/** The abstract object behind every shared chain: one append-only sequence that begins
    with a head node and grows by one item at its end. */
module AppendLog {

  /** A decoded payload; `Null` is the absent default of the C# generics. */
  datatype Data = Null | Bytes(bytes: seq<int>)

  datatype Node = Head(id: string) | Item(id: string, data: Data)

  ghost predicate OnLog(log: seq<Node>, id: string) {
    exists i :: 0 <= i < |log| && log[i].id == id
  }

  /** The head comes first, later items have non-empty ids, and no id occurs twice. */
  ghost predicate WellFormed(head: string, log: seq<Node>) {
    && (log != [] ==> log[0] == Head(head))
    && (forall i :: 1 <= i < |log| ==> log[i].Item? && log[i].id != "")
    && (forall i, j :: 0 <= i < j < |log| ==> log[i].id != log[j].id)
  }

  /** The id that the node at position `i` points to; empty at the tail. */
  function Successor(log: seq<Node>, i: nat): string
    requires i < |log|
  {
    if i + 1 < |log| then log[i + 1].id else ""
  }

  ghost function Start(head: string, log: seq<Node>): seq<Node> {
    if log == [] then [Head(head)] else log
  }

  /** An append names the node it goes after: that node must be the tail, and the id new. */
  ghost predicate CanAppend(log: seq<Node>, after: string, id: string) {
    log != [] && log[|log| - 1].id == after && !OnLog(log, id)
  }

  ghost function Append(log: seq<Node>, after: string, id: string, data: Data): seq<Node> {
    if CanAppend(log, after, id) then log + [Item(id, data)] else log
  }

  /** A command that a back end carries out in one atomic step. */
  datatype Command = Begin | Add(after: string, id: string, data: Data)

  ghost function Obey(head: string, log: seq<Node>, c: Command): seq<Node> {
    match c
    case Begin => Start(head, log)
    case Add(after, id, data) => Append(log, after, id, data)
  }

  ghost function LogRun(head: string, log: seq<Node>, cmds: seq<Command>): seq<Node>
    decreases |cmds|
  {
    if cmds == [] then log else LogRun(head, Obey(head, log, cmds[0]), cmds[1..])
  }

  function Ids(log: seq<Node>): (ids: seq<string>)
    ensures |ids| == |log|
    ensures forall i :: 0 <= i < |log| ==> ids[i] == log[i].id
  {
    seq(|log|, i requires 0 <= i < |log| => log[i].id)
  }

  lemma AppendKeepsWellFormed(head: string, log: seq<Node>, after: string, id: string, data: Data)
    requires WellFormed(head, log) && id != ""
    ensures WellFormed(head, Append(log, after, id, data))
    ensures log <= Append(log, after, id, data)
  {
  }
}
