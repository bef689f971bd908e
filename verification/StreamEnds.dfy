/** How a gateway stream ends, and what each message on it is answered, stated on the messages
    themselves. */
module StreamEnds {
  import opened Ingest
  import opened Options

  /** A message the handler reads on from: a hello that names its device, or, once there has
      been a message before it, a detection or a heartbeat. */
  predicate Proper(messages: seq<AgentMessage>, i: nat)
    requires i < |messages|
  {
    match messages[i]
    case Hello(id, _, _) => id != ""
    case Detection(_) => 0 < i
    case Heartbeat => 0 < i
    case NoPayload => false
  }

  lemma ProperInPrefix(messages: seq<AgentMessage>, n: nat, i: nat)
    requires i < n <= |messages|
    ensures Proper(messages[..n], i) == Proper(messages, i)
  {
  }

  /** A stream ends normally exactly when every message is proper; in particular its first
      message is a hello.  Until then a device is known exactly after the first message. */
  lemma {:induction false} EndsNormallyIff(messages: seq<AgentMessage>)
    ensures HandleAll(messages).status == Ok <==> forall i | 0 <= i < |messages| :: Proper(messages, i)
    ensures HandleAll(messages).status == Ok ==> (HandleAll(messages).deviceId == "" <==> messages == [])
  {
    hide OnDetection, Ack;
    if messages != [] {
      var n := |messages| - 1;
      EndsNormallyIff(messages[..n]);
      forall i | 0 <= i < n
        ensures Proper(messages[..n], i) == Proper(messages, i)
      {
        ProperInPrefix(messages, n, i);
      }
      assert (forall i | 0 <= i < |messages| :: Proper(messages, i)) <==>
             (forall i | 0 <= i < n :: Proper(messages[..n], i)) && Proper(messages, n);
      assert messages[..n] == [] <==> n == 0;
    }
  }

  /** Otherwise it ends at the first message that is not: a detection or heartbeat before any
      hello is a failed precondition, a hello without an id or an empty message an invalid
      argument.  Counters and acknowledgements are those of the messages before it. */
  lemma EndsAtFirstImproper(messages: seq<AgentMessage>, i: nat)
    requires i < |messages| && !Proper(messages, i) && forall j | 0 <= j < i :: Proper(messages, j)
    ensures HandleAll(messages[..i]).status == Ok
    ensures HandleAll(messages) == HandleAll(messages[..i]).(status :=
              if messages[i].Detection? || messages[i].Heartbeat? then FailedPrecondition else InvalidArgument)
    ensures HandleAll(messages).status == FailedPrecondition ==>
              i == 0 && HandleAll(messages).acks == [] && HandleAll(messages).deviceId == ""
  {
    hide OnDetection, Ack;
    forall j | 0 <= j < i
      ensures Proper(messages[..i], j)
    {
      ProperInPrefix(messages, i, j);
    }
    EndsNormallyIff(messages[..i]);
    var upTo := messages[..i + 1];
    assert upTo[..i] == messages[..i] && upTo[i] == messages[i];
    ErrorIsFinal(messages, i + 1);
  }

  /** What a detection is answered: a duplicate is acknowledged again at the position reached,
      a refused one not at all, an accepted one at its own number. */
  lemma AnswerTo(s: Session, ds: seq<Delivery>, d: Delivery)
    ensures var before, after := Deliver(s, ds), Deliver(s, ds + [d]);
            if d.number <= before.lastSeq then
              && Acks(s, ds + [d]) == Acks(s, ds) + [before.lastSeq]
              && after == before.(duplicates := before.duplicates + 1)
            else if d.verdict == Accepted then
              Acks(s, ds + [d]) == Acks(s, ds) + [d.number] && after.lastSeq == d.number
            else
              Acks(s, ds + [d]) == Acks(s, ds) && after.lastSeq == before.lastSeq
  {
    hide Deliver, Acks;
    DeliverOneMore(s, ds, d);
  }

  /** Over any stream, with any number of hellos, there is one acknowledgement for each
      detection received and each duplicate, and for nothing else. */
  lemma {:induction false} AcksAreCounted(messages: seq<AgentMessage>)
    ensures var o := HandleAll(messages); |o.acks| == o.session.received + o.session.duplicates
  {
    if messages != [] {
      AcksAreCounted(messages[..|messages| - 1]);
    }
  }
}
