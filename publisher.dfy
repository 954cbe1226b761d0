/**
 * The size-guarded publisher: message bodies, the outcome of one call of
 * `SendMessagetoMQ`, the fate of a sequence of messages handed to it one
 * after the other, and the messages `publishSToMq` and `publishRToMq`
 * compose.
 */
module Publisher {
  import opened Collections

  /** A JSON value, as datapoints, summaries and request metadata are. */
  datatype Json =
    | Null
    | Bool(b: bool)
    | Number(n: int)
    | Str(s: string)
    | Array(items: seq<Json>)
    | Object(fields: map<string, Json>)

  /** Python truthiness of a JSON value, used by `if not summaries_data[event]`. */
  predicate Truthy(j: Json)
  {
    match j
    case Null => false
    case Bool(b) => b
    case Number(n) => n != 0
    case Str(s) => s != []
    case Array(items) => items != []
    case Object(fields) => fields != map[]
  }

  /** The request metadata (`arguments`). */
  type Meta = map<string, Json>

  /** The two header fields read from `arguments` when a message is composed. */
  predicate HasEndpoints(meta: Meta)
  {
    "input_source" in meta && "input_destination" in meta
  }

  /** `msg_body`: the metadata plus either the summaries or the chunk datapoints of one event type. */
  datatype Body =
    | SummaryBody(meta: Meta, summaries: Json)
    | RawBody(meta: Meta, datapoints: map<int, Json>)

  /**
   * A body and the event type of the header composed with it. The header
   * itself is never sent; the event type is kept to say which event type a
   * message was composed for.
   */
  datatype Message = Message(event: EventType, body: Body)

  /**
   * What the broker connection does on one `SendMessagetoMQ` call: opening
   * the channel fails, or `basic_publish` returns a truthy result, returns a
   * falsy one, or raises.
   */
  datatype Reply = ChannelError | PublishAcked | PublishFalsy | PublishRaised

  /** What became of one composed message. */
  datatype Outcome =
    | KeyMissing     // composing the header raised KeyError
    | ChannelFailed  // channel() or queue_declare raised outside the try block
    | Discarded      // larger than the size limit, never passed to basic_publish
    | Delivered      // basic_publish returned a truthy result
    | PublishFailed  // basic_publish returned a falsy result or raised; caught and logged
  {
    /** An exception that leaves the publishing loops and `postData`. */
    predicate Raises() { KeyMissing? || ChannelFailed? }

    /** The body was passed to `basic_publish`. */
    predicate Published() { Delivered? || PublishFailed? }
  }

  datatype Attempt = Attempt(event: EventType, body: Body, outcome: Outcome)

  /** Configuration read once by the constructor and the base class. */
  datatype Config = Config(maxMQmessageSize: int, allowedEvents: set<EventType>, tmpDir: string)

  /**
   * The environment of the sender: `measure` stands for
   * `sys.getsizeof(json.dumps(body))`, and `reply(k)` is what the broker
   * does on the k-th message composed by this uploader.
   */
  datatype Transport = Transport(measure: Body -> nat, reply: nat -> Reply)

  /** `maxMQmessageSize` is in kilobytes, the measured size in bytes. */
  function SizeLimit(cfg: Config): int
  {
    cfg.maxMQmessageSize * 1000
  }

  /**
   * One call of `SendMessagetoMQ`: the channel is opened before the size
   * check, an oversized body is dropped with a normal return, and a publish
   * failure is caught.
   */
  function SendOutcome(cfg: Config, tr: Transport, k: nat, body: Body): (o: Outcome)
    ensures o.ChannelFailed? <==> tr.reply(k).ChannelError?
    ensures o.Published() <==> !tr.reply(k).ChannelError? && tr.measure(body) <= SizeLimit(cfg)
    ensures o.Discarded? <==> !tr.reply(k).ChannelError? && tr.measure(body) > SizeLimit(cfg)
    ensures o.Delivered? <==> tr.reply(k).PublishAcked? && tr.measure(body) <= SizeLimit(cfg)
    ensures !o.KeyMissing?
  {
    if tr.reply(k).ChannelError? then ChannelFailed
    else if tr.measure(body) > SizeLimit(cfg) then Discarded
    else if tr.reply(k).PublishAcked? then Delivered
    else PublishFailed
  }

  /** Composing the header of `m` and then sending its body. */
  function OutcomeOf(cfg: Config, tr: Transport, k: nat, m: Message): (o: Outcome)
    ensures o.KeyMissing? <==> !HasEndpoints(m.body.meta)
    ensures !o.KeyMissing? ==> o == SendOutcome(cfg, tr, k, m.body)
  {
    if !HasEndpoints(m.body.meta) then KeyMissing else SendOutcome(cfg, tr, k, m.body)
  }

  /** The last attempt raised, so nothing after it was tried. */
  predicate Raised(attempts: seq<Attempt>)
  {
    |attempts| > 0 && attempts[|attempts| - 1].outcome.Raises()
  }

  /**
   * Handing `msgs` to the sender in order, the first one as message number
   * `k`, until the first exception.
   */
  function Deliver(cfg: Config, tr: Transport, k: nat, msgs: seq<Message>): (r: seq<Attempt>)
    ensures |r| <= |msgs|
    ensures msgs != [] ==> |r| > 0
    decreases |msgs|
  {
    if msgs == [] then []
    else
      var a := Attempt(msgs[0].event, msgs[0].body, OutcomeOf(cfg, tr, k, msgs[0]));
      if a.outcome.Raises() then [a] else [a] + Deliver(cfg, tr, k + 1, msgs[1..])
  }

  /** A run tries at most every message, and stops short of the end only when it raised. */
  lemma {:induction false} DeliverLength(cfg: Config, tr: Transport, k: nat, msgs: seq<Message>)
    ensures |Deliver(cfg, tr, k, msgs)| <= |msgs|
    ensures |Deliver(cfg, tr, k, msgs)| < |msgs| ==> Raised(Deliver(cfg, tr, k, msgs))
    decreases |msgs|
  {
    if msgs != [] {
      var a := Attempt(msgs[0].event, msgs[0].body, OutcomeOf(cfg, tr, k, msgs[0]));
      if !a.outcome.Raises() {
        var rest := Deliver(cfg, tr, k + 1, msgs[1..]);
        DeliverLength(cfg, tr, k + 1, msgs[1..]);
        assert Deliver(cfg, tr, k, msgs) == [a] + rest;
        RaisedCons(a, rest);
      } else {
        assert Deliver(cfg, tr, k, msgs) == [a];
      }
    }
  }

  /** Message `i` of a run gets the outcome the broker gives message number `k + i`. */
  lemma {:induction false} DeliverAt(cfg: Config, tr: Transport, k: nat, msgs: seq<Message>, i: nat)
    requires i < |Deliver(cfg, tr, k, msgs)|
    ensures i < |msgs|
    ensures Deliver(cfg, tr, k, msgs)[i] == Attempt(msgs[i].event, msgs[i].body, OutcomeOf(cfg, tr, k + i, msgs[i]))
    decreases i
  {
    var a := Attempt(msgs[0].event, msgs[0].body, OutcomeOf(cfg, tr, k, msgs[0]));
    if i > 0 {
      assert !a.outcome.Raises();
      var tail := msgs[1..];
      var rest := Deliver(cfg, tr, k + 1, tail);
      assert Deliver(cfg, tr, k, msgs) == [a] + rest;
      DeliverAt(cfg, tr, k + 1, tail, i - 1);
      assert tail[i - 1] == msgs[i];
      var n: nat := k + 1 + (i - 1);
      assert n == k + i;
    }
  }

  /** Only the last attempt of a run can raise. */
  lemma {:induction false} DeliverOnlyLastRaises(cfg: Config, tr: Transport, k: nat, msgs: seq<Message>)
    ensures forall i :: 0 <= i < |Deliver(cfg, tr, k, msgs)| - 1 ==> !Deliver(cfg, tr, k, msgs)[i].outcome.Raises()
    decreases |msgs|
  {
    if msgs != [] {
      var a := Attempt(msgs[0].event, msgs[0].body, OutcomeOf(cfg, tr, k, msgs[0]));
      if !a.outcome.Raises() {
        var rest := Deliver(cfg, tr, k + 1, msgs[1..]);
        DeliverOnlyLastRaises(cfg, tr, k + 1, msgs[1..]);
        var d := [a] + rest;
        assert Deliver(cfg, tr, k, msgs) == d;
        forall i | 0 <= i < |d| - 1
          ensures !d[i].outcome.Raises()
        {
          if i > 0 {
            assert d[i] == rest[i - 1];
          }
        }
      }
    }
  }

  /**
   * Every message handed over gets the outcome the broker gives it as
   * message number `k + i`; only the last attempt can raise, and the run
   * stops short of the end of `msgs` only when it raised.
   */
  lemma DeliverSpec(cfg: Config, tr: Transport, k: nat, msgs: seq<Message>)
    ensures |Deliver(cfg, tr, k, msgs)| <= |msgs|
    ensures forall i :: 0 <= i < |Deliver(cfg, tr, k, msgs)| ==>
      Deliver(cfg, tr, k, msgs)[i] == Attempt(msgs[i].event, msgs[i].body, OutcomeOf(cfg, tr, k + i, msgs[i]))
    ensures forall i :: 0 <= i < |Deliver(cfg, tr, k, msgs)| - 1 ==> !Deliver(cfg, tr, k, msgs)[i].outcome.Raises()
    ensures |Deliver(cfg, tr, k, msgs)| < |msgs| ==> Raised(Deliver(cfg, tr, k, msgs))
  {
    DeliverLength(cfg, tr, k, msgs);
    forall i | 0 <= i < |Deliver(cfg, tr, k, msgs)|
      ensures Deliver(cfg, tr, k, msgs)[i] == Attempt(msgs[i].event, msgs[i].body, OutcomeOf(cfg, tr, k + i, msgs[i]))
    {
      DeliverAt(cfg, tr, k, msgs, i);
    }
    DeliverOnlyLastRaises(cfg, tr, k, msgs);
  }

  /** A run that did not raise tried every message. */
  lemma DeliverComplete(cfg: Config, tr: Transport, k: nat, msgs: seq<Message>)
    ensures !Raised(Deliver(cfg, tr, k, msgs)) ==> |Deliver(cfg, tr, k, msgs)| == |msgs|
  {
    DeliverSpec(cfg, tr, k, msgs);
  }

  /** A run that did not raise leaves the question to what follows it. */
  lemma RaisedAfter(a: seq<Attempt>, b: seq<Attempt>)
    requires !Raised(a)
    ensures Raised(a + b) == Raised(b)
  {
    if b != [] {
      assert (a + b)[|a + b| - 1] == b[|b| - 1];
    }
  }

  /**
   * Sending two runs of messages one after the other is sending their
   * concatenation; the second run is numbered from `next`, where the first
   * one ends.
   */
  lemma {:induction false} DeliverAppendAt(cfg: Config, tr: Transport, k: nat, m1: seq<Message>, m2: seq<Message>, next: nat)
    requires next == k + |m1|
    ensures Raised(Deliver(cfg, tr, k, m1)) ==> Deliver(cfg, tr, k, m1 + m2) == Deliver(cfg, tr, k, m1)
    ensures !Raised(Deliver(cfg, tr, k, m1)) ==> Deliver(cfg, tr, k, m1 + m2) == Deliver(cfg, tr, k, m1) + Deliver(cfg, tr, next, m2)
    decreases |m1|
  {
    if m1 == [] {
      assert m1 + m2 == m2;
    } else {
      var m := m1 + m2;
      var x := m1[0];
      assert m[0] == x;
      assert m[1..] == m1[1..] + m2;
      var a := Attempt(x.event, x.body, OutcomeOf(cfg, tr, k, x));
      if a.outcome.Raises() {
        assert Deliver(cfg, tr, k, m) == [a];
        assert Deliver(cfg, tr, k, m1) == [a];
      } else {
        var rest := Deliver(cfg, tr, k + 1, m1[1..]);
        var tail := Deliver(cfg, tr, k + 1, m1[1..] + m2);
        assert Deliver(cfg, tr, k, m) == [a] + tail;
        assert Deliver(cfg, tr, k, m1) == [a] + rest;
        DeliverAppendAt(cfg, tr, k + 1, m1[1..], m2, next);
        RaisedCons(a, rest);
        if !Raised(rest) {
          AppendAssociates([a], rest, Deliver(cfg, tr, next, m2));
        }
      }
    }
  }

  /** Sending two runs of messages one after the other is sending their concatenation. */
  lemma DeliverAppend(cfg: Config, tr: Transport, k: nat, m1: seq<Message>, m2: seq<Message>)
    ensures Raised(Deliver(cfg, tr, k, m1)) ==> Deliver(cfg, tr, k, m1 + m2) == Deliver(cfg, tr, k, m1)
    ensures !Raised(Deliver(cfg, tr, k, m1)) ==> Deliver(cfg, tr, k, m1 + m2) == Deliver(cfg, tr, k, m1) + Deliver(cfg, tr, k + |m1|, m2)
  {
    DeliverAppendAt(cfg, tr, k, m1, m2, k + |m1|);
  }

  lemma RaisedCons(a: Attempt, rest: seq<Attempt>)
    ensures Raised([a] + rest) == if rest == [] then a.outcome.Raises() else Raised(rest)
  {
    if rest != [] {
      assert ([a] + rest)[|rest|] == rest[|rest| - 1];
    }
  }

  /**
   * Extending a run that did not raise: the extra messages are tried after
   * it, numbered from `next`, where it stopped.
   */
  lemma DeliverExtendAt(cfg: Config, tr: Transport, k: nat, pre: seq<Message>, extra: seq<Message>, next: nat)
    requires !Raised(Deliver(cfg, tr, k, pre))
    requires next == k + |pre|
    ensures Deliver(cfg, tr, k, pre + extra) == Deliver(cfg, tr, k, pre) + Deliver(cfg, tr, next, extra)
    ensures Raised(Deliver(cfg, tr, k, pre + extra)) == Raised(Deliver(cfg, tr, next, extra))
  {
    DeliverAppendAt(cfg, tr, k, pre, extra, next);
    RaisedAfter(Deliver(cfg, tr, k, pre), Deliver(cfg, tr, next, extra));
  }

  /** Once a run raised, nothing after it is tried. */
  lemma DeliverStops(cfg: Config, tr: Transport, k: nat, pre: seq<Message>, rest: seq<Message>)
    requires Raised(Deliver(cfg, tr, k, pre))
    ensures Deliver(cfg, tr, k, pre + rest) == Deliver(cfg, tr, k, pre)
  {
    DeliverAppend(cfg, tr, k, pre, rest);
  }

  /**
   * A log `before` that is `a0` followed by a run `pre` that did not raise,
   * extended by sending `one`, is `a0` followed by the run `pre + one`.
   */
  lemma DeliverStep(cfg: Config, tr: Transport, a0: seq<Attempt>, before: seq<Attempt>, pre: seq<Message>, one: seq<Message>)
    requires before == a0 + Deliver(cfg, tr, |a0|, pre)
    requires !Raised(Deliver(cfg, tr, |a0|, pre))
    ensures before + Deliver(cfg, tr, |before|, one) == a0 + Deliver(cfg, tr, |a0|, pre + one)
    ensures Raised(Deliver(cfg, tr, |before|, one)) == Raised(Deliver(cfg, tr, |a0|, pre + one))
  {
    DeliverComplete(cfg, tr, |a0|, pre);
    DeliverExtendAt(cfg, tr, |a0|, pre, one, |before|);
    AppendAssociates(a0, Deliver(cfg, tr, |a0|, pre), Deliver(cfg, tr, |before|, one));
  }

  /** Every body passed to `basic_publish` was within the size limit. */
  ghost predicate SizeGuarded(cfg: Config, tr: Transport, attempts: seq<Attempt>)
  {
    forall i :: 0 <= i < |attempts| && attempts[i].outcome.Published() ==>
      tr.measure(attempts[i].body) <= SizeLimit(cfg)
  }

  lemma DeliverGuarded(cfg: Config, tr: Transport, k: nat, msgs: seq<Message>)
    ensures SizeGuarded(cfg, tr, Deliver(cfg, tr, k, msgs))
  {
    var r := Deliver(cfg, tr, k, msgs);
    DeliverSpec(cfg, tr, k, msgs);
    forall i | 0 <= i < |r| && r[i].outcome.Published()
      ensures tr.measure(r[i].body) <= SizeLimit(cfg)
    {
      assert r[i].outcome == SendOutcome(cfg, tr, k + i, msgs[i].body);
    }
  }

  /** Without a channel error and with both header fields present, nothing in a run raises. */
  lemma {:induction false} DeliverWithoutRaise(cfg: Config, tr: Transport, k: nat, msgs: seq<Message>)
    requires forall j: nat :: !tr.reply(j).ChannelError?
    requires forall i :: 0 <= i < |msgs| ==> HasEndpoints(msgs[i].body.meta)
    ensures |Deliver(cfg, tr, k, msgs)| == |msgs| && !Raised(Deliver(cfg, tr, k, msgs))
    decreases |msgs|
  {
    if msgs != [] {
      assert !tr.reply(k).ChannelError?;
      assert !OutcomeOf(cfg, tr, k, msgs[0]).Raises();
      DeliverWithoutRaise(cfg, tr, k + 1, msgs[1..]);
    }
  }

  /** The message `publishSToMq` composes for one event type, if its summaries are truthy. */
  function SummaryOf(meta: Meta, e: EventType, summaries: Json): seq<Message>
  {
    if Truthy(summaries) then [Message(e, SummaryBody(meta, summaries))] else []
  }

  /**
   * The summary messages of `publishSToMq`, in dictionary order: a message
   * for each event type whose summaries are truthy.
   */
  function SummaryMessages(meta: Meta, events: seq<EventType>, data: map<EventType, Json>): (r: seq<Message>)
    requires forall e :: e in events ==> e in data
    ensures |r| <= |events|
    decreases |events|
  {
    if events == [] then []
    else
      var e := events[|events| - 1];
      var front := events[..|events| - 1];
      assert forall x :: x in front ==> x in events;
      SummaryMessages(meta, front, data) + SummaryOf(meta, e, data[e])
  }

  /** `m` is the summary message of one of `events`: its summaries are truthy and travel unchanged. */
  predicate SummaryFor(meta: Meta, events: seq<EventType>, data: map<EventType, Json>, m: Message)
  {
    && m.event in events && m.event in data
    && Truthy(data[m.event])
    && m.body == SummaryBody(meta, data[m.event])
  }

  /** Every summary message is that of one of the event types, and there are no more messages than event types. */
  lemma {:induction false} SummaryMessagesSound(meta: Meta, events: seq<EventType>, data: map<EventType, Json>)
    requires forall e :: e in events ==> e in data
    ensures |SummaryMessages(meta, events, data)| <= |events|
    ensures forall i :: 0 <= i < |SummaryMessages(meta, events, data)| ==>
      SummaryFor(meta, events, data, SummaryMessages(meta, events, data)[i])
    decreases |events|
  {
    if events != [] {
      var e := events[|events| - 1];
      var front := events[..|events| - 1];
      assert forall x :: x in front ==> x in events;
      SummaryMessagesSound(meta, front, data);
      var pre := SummaryMessages(meta, front, data);
      var one := SummaryOf(meta, e, data[e]);
      var msgs := pre + one;
      assert SummaryMessages(meta, events, data) == msgs;
      forall i | 0 <= i < |msgs|
        ensures SummaryFor(meta, events, data, msgs[i])
      {
        if i < |pre| {
          assert msgs[i] == pre[i];
          assert SummaryFor(meta, front, data, pre[i]);
        } else {
          assert msgs[i] == one[i - |pre|];
        }
      }
    }
  }

  /** Every event type whose summaries are truthy has a summary message. */
  lemma {:induction false} SummaryMessagesComplete(meta: Meta, events: seq<EventType>, data: map<EventType, Json>)
    requires forall e :: e in events ==> e in data
    ensures forall e :: e in events && Truthy(data[e]) ==>
      exists i :: 0 <= i < |SummaryMessages(meta, events, data)| && SummaryMessages(meta, events, data)[i].event == e
    decreases |events|
  {
    if events != [] {
      var e := events[|events| - 1];
      var front := events[..|events| - 1];
      assert forall x :: x in front ==> x in events;
      SummaryMessagesComplete(meta, front, data);
      var pre := SummaryMessages(meta, front, data);
      var one := SummaryOf(meta, e, data[e]);
      var msgs := pre + one;
      assert SummaryMessages(meta, events, data) == msgs;
      forall x | x in events && Truthy(data[x])
        ensures exists i :: 0 <= i < |msgs| && msgs[i].event == x
      {
        if x == e {
          assert msgs[|pre|].event == x;
        } else {
          assert x in front;
          var i :| 0 <= i < |pre| && pre[i].event == x;
          assert msgs[i].event == x;
        }
      }
    }
  }

  /** No event type gets two summary messages. */
  lemma {:induction false} SummaryMessagesDistinct(meta: Meta, events: seq<EventType>, data: map<EventType, Json>)
    requires forall e :: e in events ==> e in data
    requires Distinct(events)
    ensures forall i, j :: 0 <= i < j < |SummaryMessages(meta, events, data)| ==>
      SummaryMessages(meta, events, data)[i].event != SummaryMessages(meta, events, data)[j].event
    decreases |events|
  {
    if events != [] {
      var e := events[|events| - 1];
      var front := events[..|events| - 1];
      assert forall x :: x in front ==> x in events;
      assert e !in front;
      SummaryMessagesDistinct(meta, front, data);
      SummaryMessagesSound(meta, front, data);
      var pre := SummaryMessages(meta, front, data);
      var one := SummaryOf(meta, e, data[e]);
      var msgs := pre + one;
      assert SummaryMessages(meta, events, data) == msgs;
      forall i, j | 0 <= i < j < |msgs|
        ensures msgs[i].event != msgs[j].event
      {
        assert msgs[i] == pre[i];
        if j < |pre| {
          assert msgs[j] == pre[j];
        } else {
          assert msgs[j] == one[j - |pre|];
          assert SummaryFor(meta, front, data, pre[i]);
        }
      }
    }
  }

  /**
   * `publishSToMq` composes exactly one message per event type whose
   * summaries are truthy and none for the others; each carries the metadata
   * and that event type's summaries unchanged.
   */
  lemma SummaryMessagesOnePerEvent(meta: Meta, events: seq<EventType>, data: map<EventType, Json>)
    requires forall e :: e in events ==> e in data
    requires Distinct(events)
    ensures |SummaryMessages(meta, events, data)| <= |events|
    ensures forall i :: 0 <= i < |SummaryMessages(meta, events, data)| ==>
      && SummaryMessages(meta, events, data)[i].event in events
      && Truthy(data[SummaryMessages(meta, events, data)[i].event])
      && SummaryMessages(meta, events, data)[i].body == SummaryBody(meta, data[SummaryMessages(meta, events, data)[i].event])
    ensures forall e :: e in events && Truthy(data[e]) ==>
      exists i :: 0 <= i < |SummaryMessages(meta, events, data)| && SummaryMessages(meta, events, data)[i].event == e
    ensures forall i, j :: 0 <= i < j < |SummaryMessages(meta, events, data)| ==>
      SummaryMessages(meta, events, data)[i].event != SummaryMessages(meta, events, data)[j].event
  {
    SummaryMessagesSound(meta, events, data);
    SummaryMessagesComplete(meta, events, data);
    SummaryMessagesDistinct(meta, events, data);
  }

  /** The messages of `front + [last]`: those of `front`, then the one for `last`, if any. */
  lemma SummaryMessagesLast(meta: Meta, events: seq<EventType>, data: map<EventType, Json>, front: seq<EventType>, last: EventType)
    requires forall e :: e in events ==> e in data
    requires events == front + [last]
    ensures forall e :: e in front ==> e in data
    ensures last in data
    ensures SummaryMessages(meta, events, data) == SummaryMessages(meta, front, data) + SummaryOf(meta, last, data[last])
  {
    assert events[..|events| - 1] == front;
  }

  lemma {:induction false} SummaryMessagesAppend(meta: Meta, a: seq<EventType>, b: seq<EventType>, data: map<EventType, Json>)
    requires forall e :: e in a + b ==> e in data
    ensures SummaryMessages(meta, a + b, data) == SummaryMessages(meta, a, data) + SummaryMessages(meta, b, data)
    decreases |b|
  {
    if b == [] {
      assert a + b == a;
    } else {
      var front := b[..|b| - 1];
      var last := b[|b| - 1];
      assert b == front + [last];
      AppendAssociates(a, front, [last]);
      assert forall e :: e in b ==> e in a + b;
      SummaryMessagesLast(meta, a + b, data, a + front, last);
      SummaryMessagesLast(meta, b, data, front, last);
      SummaryMessagesAppend(meta, a, front, data);
      AppendAssociates(SummaryMessages(meta, a, data), SummaryMessages(meta, front, data), SummaryOf(meta, last, data[last]));
    }
  }

  /** The summary messages of the first `i + 1` event types: those of the first `i`, then the one for event type `i`, if any. */
  lemma SummaryMessagesSnoc(meta: Meta, events: seq<EventType>, data: map<EventType, Json>, i: nat)
    requires forall e :: e in events ==> e in data
    requires i < |events|
    ensures forall e :: e in events[..i + 1] ==> e in data
    ensures forall e :: e in events[..i] ==> e in data
    ensures SummaryMessages(meta, events[..i + 1], data) == SummaryMessages(meta, events[..i], data) + SummaryOf(meta, events[i], data[events[i]])
  {
    assert events[..i + 1][..i] == events[..i];
  }

  /** The summary messages of `events` are those of a prefix followed by those of the rest. */
  lemma SummaryMessagesSplit(meta: Meta, events: seq<EventType>, data: map<EventType, Json>, i: nat)
    requires forall e :: e in events ==> e in data
    requires i <= |events|
    ensures forall e :: e in events[..i] ==> e in data
    ensures forall e :: e in events[i..] ==> e in data
    ensures SummaryMessages(meta, events, data) == SummaryMessages(meta, events[..i], data) + SummaryMessages(meta, events[i..], data)
  {
    assert events[..i] + events[i..] == events;
    SummaryMessagesAppend(meta, events[..i], events[i..], data);
  }

  /** The message `publishRToMq` composes for one event type of a chunk, if it is allowed and has datapoints. */
  function RawOf(cfg: Config, meta: Meta, e: EventType, points: map<int, Json>): seq<Message>
  {
    if e in cfg.allowedEvents && |points| > 0 then [Message(e, RawBody(meta, points))] else []
  }

  /**
   * The raw messages of `publishRToMq` for one chunk, in dictionary order: a
   * message for each allowed event type with datapoints in the chunk.
   */
  function RawMessages(cfg: Config, meta: Meta, events: seq<EventType>, chunk: map<EventType, map<int, Json>>): (r: seq<Message>)
    requires forall e :: e in events ==> e in chunk
    ensures |r| <= |events|
    decreases |events|
  {
    if events == [] then []
    else
      var e := events[|events| - 1];
      var front := events[..|events| - 1];
      assert forall x :: x in front ==> x in events;
      RawMessages(cfg, meta, front, chunk) + RawOf(cfg, meta, e, chunk[e])
  }

  /** `m` is the raw message of one of `events`: allowed, with datapoints in the chunk, which travel unchanged. */
  predicate RawFor(cfg: Config, meta: Meta, events: seq<EventType>, chunk: map<EventType, map<int, Json>>, m: Message)
  {
    && m.event in events && m.event in chunk
    && m.event in cfg.allowedEvents && |chunk[m.event]| > 0
    && m.body == RawBody(meta, chunk[m.event])
  }

  /** Every raw message is that of one of the event types, and there are no more messages than event types. */
  lemma {:induction false} RawMessagesSound(cfg: Config, meta: Meta, events: seq<EventType>, chunk: map<EventType, map<int, Json>>)
    requires forall e :: e in events ==> e in chunk
    ensures |RawMessages(cfg, meta, events, chunk)| <= |events|
    ensures forall i :: 0 <= i < |RawMessages(cfg, meta, events, chunk)| ==>
      RawFor(cfg, meta, events, chunk, RawMessages(cfg, meta, events, chunk)[i])
    decreases |events|
  {
    if events != [] {
      var e := events[|events| - 1];
      var front := events[..|events| - 1];
      assert forall x :: x in front ==> x in events;
      RawMessagesSound(cfg, meta, front, chunk);
      var pre := RawMessages(cfg, meta, front, chunk);
      var one := RawOf(cfg, meta, e, chunk[e]);
      var msgs := pre + one;
      assert RawMessages(cfg, meta, events, chunk) == msgs;
      forall i | 0 <= i < |msgs|
        ensures RawFor(cfg, meta, events, chunk, msgs[i])
      {
        if i < |pre| {
          assert msgs[i] == pre[i];
          assert RawFor(cfg, meta, front, chunk, pre[i]);
        } else {
          assert msgs[i] == one[i - |pre|];
        }
      }
    }
  }

  /** Every allowed event type with datapoints in the chunk has a raw message. */
  lemma {:induction false} RawMessagesComplete(cfg: Config, meta: Meta, events: seq<EventType>, chunk: map<EventType, map<int, Json>>)
    requires forall e :: e in events ==> e in chunk
    ensures forall e :: e in events && e in cfg.allowedEvents && |chunk[e]| > 0 ==>
      exists i :: 0 <= i < |RawMessages(cfg, meta, events, chunk)| && RawMessages(cfg, meta, events, chunk)[i].event == e
    decreases |events|
  {
    if events != [] {
      var e := events[|events| - 1];
      var front := events[..|events| - 1];
      assert forall x :: x in front ==> x in events;
      RawMessagesComplete(cfg, meta, front, chunk);
      var pre := RawMessages(cfg, meta, front, chunk);
      var one := RawOf(cfg, meta, e, chunk[e]);
      var msgs := pre + one;
      assert RawMessages(cfg, meta, events, chunk) == msgs;
      forall x | x in events && x in cfg.allowedEvents && |chunk[x]| > 0
        ensures exists i :: 0 <= i < |msgs| && msgs[i].event == x
      {
        if x == e {
          assert msgs[|pre|].event == x;
        } else {
          assert x in front;
          var i :| 0 <= i < |pre| && pre[i].event == x;
          assert msgs[i].event == x;
        }
      }
    }
  }

  /** No event type gets two raw messages in one chunk. */
  lemma {:induction false} RawMessagesDistinct(cfg: Config, meta: Meta, events: seq<EventType>, chunk: map<EventType, map<int, Json>>)
    requires forall e :: e in events ==> e in chunk
    requires Distinct(events)
    ensures forall i, j :: 0 <= i < j < |RawMessages(cfg, meta, events, chunk)| ==>
      RawMessages(cfg, meta, events, chunk)[i].event != RawMessages(cfg, meta, events, chunk)[j].event
    decreases |events|
  {
    if events != [] {
      var e := events[|events| - 1];
      var front := events[..|events| - 1];
      assert forall x :: x in front ==> x in events;
      assert e !in front;
      RawMessagesDistinct(cfg, meta, front, chunk);
      RawMessagesSound(cfg, meta, front, chunk);
      var pre := RawMessages(cfg, meta, front, chunk);
      var one := RawOf(cfg, meta, e, chunk[e]);
      var msgs := pre + one;
      assert RawMessages(cfg, meta, events, chunk) == msgs;
      forall i, j | 0 <= i < j < |msgs|
        ensures msgs[i].event != msgs[j].event
      {
        assert msgs[i] == pre[i];
        if j < |pre| {
          assert msgs[j] == pre[j];
        } else {
          assert msgs[j] == one[j - |pre|];
          assert RawFor(cfg, meta, front, chunk, pre[i]);
        }
      }
    }
  }

  /**
   * `publishRToMq` composes exactly one message per event type that is
   * allowed and has datapoints in the chunk, and none for the others; each
   * carries the metadata and that event type's chunk unchanged.
   */
  lemma RawMessagesOnePerEvent(cfg: Config, meta: Meta, events: seq<EventType>, chunk: map<EventType, map<int, Json>>)
    requires forall e :: e in events ==> e in chunk
    requires Distinct(events)
    ensures forall i :: 0 <= i < |RawMessages(cfg, meta, events, chunk)| ==>
      && RawMessages(cfg, meta, events, chunk)[i].event in events
      && RawMessages(cfg, meta, events, chunk)[i].event in cfg.allowedEvents
      && |chunk[RawMessages(cfg, meta, events, chunk)[i].event]| > 0
      && RawMessages(cfg, meta, events, chunk)[i].body == RawBody(meta, chunk[RawMessages(cfg, meta, events, chunk)[i].event])
    ensures forall e :: e in events && e in cfg.allowedEvents && |chunk[e]| > 0 ==>
      exists i :: 0 <= i < |RawMessages(cfg, meta, events, chunk)| && RawMessages(cfg, meta, events, chunk)[i].event == e
    ensures forall i, j :: 0 <= i < j < |RawMessages(cfg, meta, events, chunk)| ==>
      RawMessages(cfg, meta, events, chunk)[i].event != RawMessages(cfg, meta, events, chunk)[j].event
  {
    RawMessagesSound(cfg, meta, events, chunk);
    RawMessagesComplete(cfg, meta, events, chunk);
    RawMessagesDistinct(cfg, meta, events, chunk);
  }

  /** The messages of `front + [last]`: those of `front`, then the one for `last`, if any. */
  lemma RawMessagesLast(cfg: Config, meta: Meta, events: seq<EventType>, chunk: map<EventType, map<int, Json>>, front: seq<EventType>, last: EventType)
    requires forall e :: e in events ==> e in chunk
    requires events == front + [last]
    ensures forall e :: e in front ==> e in chunk
    ensures last in chunk
    ensures RawMessages(cfg, meta, events, chunk) == RawMessages(cfg, meta, front, chunk) + RawOf(cfg, meta, last, chunk[last])
  {
    assert events[..|events| - 1] == front;
  }

  lemma {:induction false} RawMessagesAppend(cfg: Config, meta: Meta, a: seq<EventType>, b: seq<EventType>, chunk: map<EventType, map<int, Json>>)
    requires forall e :: e in a + b ==> e in chunk
    ensures RawMessages(cfg, meta, a + b, chunk) == RawMessages(cfg, meta, a, chunk) + RawMessages(cfg, meta, b, chunk)
    decreases |b|
  {
    if b == [] {
      assert a + b == a;
    } else {
      var front := b[..|b| - 1];
      var last := b[|b| - 1];
      assert b == front + [last];
      AppendAssociates(a, front, [last]);
      assert forall e :: e in b ==> e in a + b;
      RawMessagesLast(cfg, meta, a + b, chunk, a + front, last);
      RawMessagesLast(cfg, meta, b, chunk, front, last);
      RawMessagesAppend(cfg, meta, a, front, chunk);
      AppendAssociates(RawMessages(cfg, meta, a, chunk), RawMessages(cfg, meta, front, chunk), RawOf(cfg, meta, last, chunk[last]));
    }
  }

  /** The raw messages of the first `i + 1` event types: those of the first `i`, then the one for event type `i`, if any. */
  lemma RawMessagesSnoc(cfg: Config, meta: Meta, events: seq<EventType>, chunk: map<EventType, map<int, Json>>, i: nat)
    requires forall e :: e in events ==> e in chunk
    requires i < |events|
    ensures forall e :: e in events[..i + 1] ==> e in chunk
    ensures forall e :: e in events[..i] ==> e in chunk
    ensures RawMessages(cfg, meta, events[..i + 1], chunk) == RawMessages(cfg, meta, events[..i], chunk) + RawOf(cfg, meta, events[i], chunk[events[i]])
  {
    assert events[..i + 1][..i] == events[..i];
  }

  /** The raw messages of `events` are those of a prefix followed by those of the rest. */
  lemma RawMessagesSplit(cfg: Config, meta: Meta, events: seq<EventType>, chunk: map<EventType, map<int, Json>>, i: nat)
    requires forall e :: e in events ==> e in chunk
    requires i <= |events|
    ensures forall e :: e in events[..i] ==> e in chunk
    ensures forall e :: e in events[i..] ==> e in chunk
    ensures RawMessages(cfg, meta, events, chunk) == RawMessages(cfg, meta, events[..i], chunk) + RawMessages(cfg, meta, events[i..], chunk)
  {
    assert events[..i] + events[i..] == events;
    RawMessagesAppend(cfg, meta, events[..i], events[i..], chunk);
  }

  /**
   * One turn of the loop of `publishSToMq` over event type `i`, after the
   * first `i` went out without an exception on top of the log `a0`:
   * sending that event type's message extends the log to the first `i + 1`,
   * and if it raised, the rest of the loop is never run.
   */
  lemma SummaryStep(cfg: Config, tr: Transport, meta: Meta, events: seq<EventType>, data: map<EventType, Json>,
                    i: nat, a0: seq<Attempt>, before: seq<Attempt>)
    requires forall e :: e in events ==> e in data
    requires i < |events|
    requires forall e :: e in events[..i] ==> e in data
    requires before == a0 + Deliver(cfg, tr, |a0|, SummaryMessages(meta, events[..i], data))
    requires !Raised(Deliver(cfg, tr, |a0|, SummaryMessages(meta, events[..i], data)))
    ensures forall e :: e in events[..i + 1] ==> e in data
    ensures before + Deliver(cfg, tr, |before|, SummaryOf(meta, events[i], data[events[i]]))
      == a0 + Deliver(cfg, tr, |a0|, SummaryMessages(meta, events[..i + 1], data))
    ensures Raised(Deliver(cfg, tr, |before|, SummaryOf(meta, events[i], data[events[i]])))
      == Raised(Deliver(cfg, tr, |a0|, SummaryMessages(meta, events[..i + 1], data)))
    ensures Raised(Deliver(cfg, tr, |before|, SummaryOf(meta, events[i], data[events[i]]))) ==>
      Deliver(cfg, tr, |a0|, SummaryMessages(meta, events, data)) == Deliver(cfg, tr, |a0|, SummaryMessages(meta, events[..i + 1], data))
  {
    var pre := SummaryMessages(meta, events[..i], data);
    var one := SummaryOf(meta, events[i], data[events[i]]);
    SummaryMessagesSnoc(meta, events, data, i);
    DeliverStep(cfg, tr, a0, before, pre, one);
    if Raised(Deliver(cfg, tr, |before|, one)) {
      SummaryMessagesSplit(meta, events, data, i + 1);
      DeliverStops(cfg, tr, |a0|, pre + one, SummaryMessages(meta, events[i + 1..], data));
    }
  }

  /**
   * One turn of the loop of `publishRToMq` over event type `i` of a chunk,
   * after the first `i` went out without an exception on top of the log
   * `a0`: as `SummaryStep`, for the raw messages.
   */
  lemma RawStep(cfg: Config, tr: Transport, meta: Meta, events: seq<EventType>, chunk: map<EventType, map<int, Json>>,
                i: nat, a0: seq<Attempt>, before: seq<Attempt>)
    requires forall e :: e in events ==> e in chunk
    requires i < |events|
    requires forall e :: e in events[..i] ==> e in chunk
    requires before == a0 + Deliver(cfg, tr, |a0|, RawMessages(cfg, meta, events[..i], chunk))
    requires !Raised(Deliver(cfg, tr, |a0|, RawMessages(cfg, meta, events[..i], chunk)))
    ensures forall e :: e in events[..i + 1] ==> e in chunk
    ensures before + Deliver(cfg, tr, |before|, RawOf(cfg, meta, events[i], chunk[events[i]]))
      == a0 + Deliver(cfg, tr, |a0|, RawMessages(cfg, meta, events[..i + 1], chunk))
    ensures Raised(Deliver(cfg, tr, |before|, RawOf(cfg, meta, events[i], chunk[events[i]])))
      == Raised(Deliver(cfg, tr, |a0|, RawMessages(cfg, meta, events[..i + 1], chunk)))
    ensures Raised(Deliver(cfg, tr, |before|, RawOf(cfg, meta, events[i], chunk[events[i]]))) ==>
      Deliver(cfg, tr, |a0|, RawMessages(cfg, meta, events, chunk)) == Deliver(cfg, tr, |a0|, RawMessages(cfg, meta, events[..i + 1], chunk))
  {
    var pre := RawMessages(cfg, meta, events[..i], chunk);
    var one := RawOf(cfg, meta, events[i], chunk[events[i]]);
    RawMessagesSnoc(cfg, meta, events, chunk, i);
    DeliverStep(cfg, tr, a0, before, pre, one);
    if Raised(Deliver(cfg, tr, |before|, one)) {
      RawMessagesSplit(cfg, meta, events, chunk, i + 1);
      DeliverStops(cfg, tr, |a0|, pre + one, RawMessages(cfg, meta, events[i + 1..], chunk));
    }
  }
}
