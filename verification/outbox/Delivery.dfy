/** What a batch leaves in the table: each message's verdict, as the world answers (outbox/worker.go). */
module OutboxDelivery {
  import opened OutboxConfig
  import opened OutboxTable
  import opened OutboxSystem

  /** The metric deliver counts, if any. */
  datatype Metric = Sent | Failure | Deferral | Retrial | Unreported

  /** What the world answers about one message: the Send's outcome, the context, the database, and when. */
  datatype Reply = Reply(outcome: Outcome, cancelled: bool, written: bool, at: int)

  function Resolved(rows: Table, c: Config, m: Message, reply: Reply): Table {
    if reply.written then Written(rows, m.id, VerdictOn(c, m, reply.outcome, reply.cancelled), reply.at) else rows
  }

  function ResolvedAll(rows: Table, c: Config, messages: seq<Message>, replies: Id -> Reply): Table {
    if messages == [] then rows
    else
      var m := messages[|messages| - 1];
      Resolved(ResolvedAll(rows, c, messages[..|messages| - 1], replies), c, m, replies(m.id))
  }

  /** The metric says what became of the message, as far as the worker can tell. */
  function MetricOf(c: Config, m: Message, reply: Reply): Metric {
    match VerdictOn(c, m, reply.outcome, reply.cancelled)
    case Complete => if reply.written then Sent else Unreported
    case Leave => Unreported
    case Fail => Failure
    case Defer(_) => Deferral
    case Retry(_) => if GaveUp(m) then Failure else Retrial
  }

  /** Each message's verdict is its own row's whole story. */
  lemma {:induction false} ResolvedAllAt(rows: Table, c: Config, messages: seq<Message>, replies: Id -> Reply, id: Id)
    requires forall i, j :: 0 <= i < j < |messages| ==> messages[i].id != messages[j].id
    ensures var after := ResolvedAll(rows, c, messages, replies);
            && ((forall i :: 0 <= i < |messages| ==> messages[i].id != id) ==>
                  (id in after <==> id in rows) && (id in rows ==> after[id] == rows[id]))
            && (forall i :: 0 <= i < |messages| && messages[i].id == id ==>
                  var mine := Resolved(rows, c, messages[i], replies(id));
                  (id in after <==> id in mine) && (id in mine ==> after[id] == mine[id]))
    decreases messages
  {
    if messages != [] {
      var init, m := messages[..|messages| - 1], messages[|messages| - 1];
      ResolvedAllAt(rows, c, init, replies, id);
      assert forall i :: 0 <= i < |init| ==> init[i] == messages[i];
      if id != m.id && replies(m.id).written {
        var verdict := VerdictOn(c, m, replies(m.id).outcome, replies(m.id).cancelled);
        WrittenFrame(ResolvedAll(rows, c, init, replies), m.id, verdict, replies(m.id).at, id);
      }
    }
  }

  /** The deliveries of a batch may be written in any order. */
  lemma AnyOrder(rows: Table, c: Config, messages: seq<Message>, others: seq<Message>, replies: Id -> Reply)
    requires forall i, j :: 0 <= i < j < |messages| ==> messages[i].id != messages[j].id
    requires forall i, j :: 0 <= i < j < |others| ==> others[i].id != others[j].id
    requires forall m :: m in messages <==> m in others
    ensures ResolvedAll(rows, c, messages, replies) == ResolvedAll(rows, c, others, replies)
  {
    var after, after' := ResolvedAll(rows, c, messages, replies), ResolvedAll(rows, c, others, replies);
    forall id: Id ensures id in after <==> id in after'
      ensures id in after ==> after[id] == after'[id]
    {
      ResolvedAllAt(rows, c, messages, replies, id);
      ResolvedAllAt(rows, c, others, replies, id);
      if i :| 0 <= i < |messages| && messages[i].id == id {
        assert messages[i] in others;
        var j :| 0 <= j < |others| && others[j] == messages[i];
      } else if j :| 0 <= j < |others| && others[j].id == id {
        assert others[j] in messages;
      }
    }
  }
}
