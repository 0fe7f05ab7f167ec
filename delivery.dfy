/**
 * What the brokers do with each message a subscription delivers: decode it
 * and hand the payload to the user's callback. Pub/Sub acknowledges the
 * message once the callback has returned; Kafka acknowledges nothing (its
 * consumers commit offsets on their own), and its `consume` loop hands the
 * messages to the callback one by one, in the order the consumer yields them.
 *
 * A callback is modelled by whether it returns normally on a payload (true)
 * or raises (false); what else it does is its own business.
 */
module Delivery {
  import opened Wrappers
  import opened JsonValue
  import Envelope

  type Handler = Value -> bool

  /** Why handling a message raised: the bytes did not decode, or the callback raised on this payload. */
  datatype Failure = Undecodable(reason: Envelope.CodecError) | HandlerRaised(payload: Value)

  /**
   * `broker_callback` on one message: the payload it handed to the callback,
   * or what it raised. (This is all of Kafka's `broker_callback`.)
   */
  function HandleOne(data: Envelope.Bytes, handler: Handler): (r: Result<Value, Failure>)
    ensures r.Ok? <==> Envelope.DecodeData(data).Ok? && handler(Envelope.DecodeData(data).value)
    ensures r.Ok? ==> r.value == Envelope.DecodeData(data).value
    ensures r.Err? && r.error.Undecodable? ==> Envelope.DecodeData(data) == Err(r.error.reason)
    ensures r.Err? && r.error.HandlerRaised? ==> Envelope.DecodeData(data) == Ok(r.error.payload)
  {
    match Envelope.DecodeData(data)
    case Err(e) => Err(Undecodable(e))
    case Ok(v) => if handler(v) then Ok(v) else Err(HandlerRaised(v))
  }

  /** A Pub/Sub message as the subscriber hands it over: its bytes, and whether it has been acknowledged. */
  class PubsubMessage {
    const data: Envelope.Bytes
    var acked: bool

    constructor (data: Envelope.Bytes)
      ensures this.data == data && !acked
    {
      this.data := data;
      acked := false;
    }
  }

  /**
   * Pub/Sub `broker_callback`: decode, call the callback, then `ack()`. The
   * message is acknowledged exactly when the callback returned on its payload.
   */
  method PubsubCallback(message: PubsubMessage, handler: Handler) returns (r: Result<Value, Failure>)
    modifies message
    ensures r == HandleOne(message.data, handler)
    ensures message.acked == (old(message.acked) || r.Ok?)
  {
    r := HandleOne(message.data, handler);
    if r.Ok? {
      message.acked := true;
    }
  }

  /**
   * Handing messages to the callback in order until one raises: the payloads
   * the callback was called with, and the failure that ended the loop. When
   * nothing raises, the callback is called once per message.
   */
  function DeliverAll(msgs: seq<Envelope.Bytes>, handler: Handler): (r: (seq<Value>, Outcome<Failure>))
    ensures r.1.Pass? ==> |r.0| == |msgs|
  {
    if msgs == [] then ([], Pass)
    else
      match HandleOne(msgs[0], handler)
      case Err(Undecodable(e)) => ([], Fail(Undecodable(e)))
      case Err(HandlerRaised(v)) => ([v], Fail(HandlerRaised(v)))
      case Ok(v) =>
        var more := DeliverAll(msgs[1..], handler);
        ([v] + more.0, more.1)
  }

  /** Whether every message decodes and the callback returns on every payload. */
  predicate AllHandled(msgs: seq<Envelope.Bytes>, handler: Handler)
  {
    forall i :: 0 <= i < |msgs| ==> HandleOne(msgs[i], handler).Ok?
  }

  /** One step of the loop: what handling the first message does to the outcome of the rest. */
  lemma DeliverAllStep(msgs: seq<Envelope.Bytes>, handler: Handler, h: Result<Value, Failure>)
    requires msgs != [] && h == HandleOne(msgs[0], handler)
    ensures h.Ok? ==> DeliverAll(msgs, handler) == ([h.value] + DeliverAll(msgs[1..], handler).0, DeliverAll(msgs[1..], handler).1)
    ensures h.Err? && h.error.Undecodable? ==> DeliverAll(msgs, handler) == ([], Fail(h.error))
    ensures h.Err? && h.error.HandlerRaised? ==> DeliverAll(msgs, handler) == ([h.error.payload], Fail(h.error))
  {
  }

  /**
   * When nothing raises, the callback is called once per message, in order,
   * with that message's payload; and the loop raises exactly when some
   * message fails.
   */
  lemma {:induction false} DeliverAllInOrder(msgs: seq<Envelope.Bytes>, handler: Handler)
    ensures DeliverAll(msgs, handler).1.Pass? <==> AllHandled(msgs, handler)
    ensures AllHandled(msgs, handler) ==>
              |DeliverAll(msgs, handler).0| == |msgs| &&
              forall i :: 0 <= i < |msgs| ==> DeliverAll(msgs, handler).0[i] == HandleOne(msgs[i], handler).value
  {
    if msgs != [] {
      var h, tail := HandleOne(msgs[0], handler), msgs[1..];
      DeliverAllStep(msgs, handler, h);
      DeliverAllInOrder(tail, handler);
      if h.Ok? && AllHandled(tail, handler) {
        forall i | 0 <= i < |msgs|
          ensures HandleOne(msgs[i], handler).Ok?
          ensures DeliverAll(msgs, handler).0[i] == HandleOne(msgs[i], handler).value
        {
          if i > 0 { assert msgs[i] == tail[i - 1]; }
        }
      } else if h.Ok? {
        var j :| 0 <= j < |tail| && !HandleOne(tail[j], handler).Ok?;
        assert msgs[j + 1] == tail[j];
      }
    }
  }

  /**
   * When a message fails, the messages before it were all handled, in order,
   * and nothing after it reaches the callback: the callback saw the payloads
   * before it, plus its payload when it was the callback that raised.
   */
  lemma {:induction false} DeliverAllStops(msgs: seq<Envelope.Bytes>, handler: Handler, k: nat)
    requires k < |msgs| && AllHandled(msgs[..k], handler) && HandleOne(msgs[k], handler).Err?
    ensures DeliverAll(msgs, handler).1 == Fail(HandleOne(msgs[k], handler).error)
    ensures DeliverAll(msgs, handler).0 ==
              Payloads(msgs[..k], handler) + match HandleOne(msgs[k], handler).error
                                             case HandlerRaised(v) => [v]
                                             case Undecodable(_) => []
  {
    var h, tail := HandleOne(msgs[0], handler), msgs[1..];
    DeliverAllStep(msgs, handler, h);
    var before := msgs[..k];
    if k == 0 {
      assert before == [];
    } else {
      assert before[0] == msgs[0];
      var front := tail[..k - 1];
      assert front == before[1..];
      assert AllHandled(front, handler) by {
        forall i | 0 <= i < k - 1 ensures HandleOne(front[i], handler).Ok? {
          assert front[i] == before[i + 1];
        }
      }
      assert tail[k - 1] == msgs[k];
      DeliverAllStops(tail, handler, k - 1);
    }
  }

  /** The payloads of messages that all decode. */
  function Payloads(msgs: seq<Envelope.Bytes>, handler: Handler): seq<Value>
    requires AllHandled(msgs, handler)
  {
    if msgs == [] then []
    else [HandleOne(msgs[0], handler).value] + Payloads(msgs[1..], handler)
  }

  /**
   * The `for message in consumer: broker_callback(message, callback)` loop of
   * Kafka's `consume`, over the messages the consumer yields.
   */
  method Deliver(msgs: seq<Envelope.Bytes>, handler: Handler) returns (calls: seq<Value>, r: Outcome<Failure>)
    ensures (calls, r) == DeliverAll(msgs, handler)
  {
    calls, r := [], Pass;
    var i := 0;
    assert msgs[0..] == msgs;
    assert calls + DeliverAll(msgs, handler).0 == DeliverAll(msgs, handler).0;
    while i < |msgs|
      invariant 0 <= i <= |msgs| && r == Pass
      invariant DeliverAll(msgs, handler) == (calls + DeliverAll(msgs[i..], handler).0, DeliverAll(msgs[i..], handler).1)
    {
      var rest := msgs[i..];
      assert rest[0] == msgs[i] && rest[1..] == msgs[i + 1..];
      var h := HandleOne(msgs[i], handler);
      DeliverAllStep(rest, handler, h);
      if h.Err? {
        if h.error.HandlerRaised? {
          calls := calls + [h.error.payload];
        } else {
          assert calls + DeliverAll(rest, handler).0 == calls;
        }
        r := Fail(h.error);
        return;
      }
      assert (calls + [h.value]) + DeliverAll(rest[1..], handler).0 == calls + ([h.value] + DeliverAll(rest[1..], handler).0);
      calls := calls + [h.value];
      i := i + 1;
    }
    assert msgs[i..] == [];
    assert calls + DeliverAll(msgs[i..], handler).0 == calls;
  }

  /** The bytes sent for each of a sequence of payloads. */
  function EncodeAll(vs: seq<Value>): seq<Envelope.Bytes>
  {
    seq(|vs|, i requires 0 <= i < |vs| => Envelope.EncodeData(vs[i]))
  }

  /**
   * A consumer that is handed the encodings of JSON-representable payloads,
   * with a callback that returns on each, calls the callback with exactly
   * those payloads, in the order they were sent, and raises nothing.
   */
  lemma {:induction false} DeliverEncoded(vs: seq<Value>, handler: Handler)
    requires forall i :: 0 <= i < |vs| ==> WellFormed(vs[i]) && handler(vs[i])
    ensures DeliverAll(EncodeAll(vs), handler) == (vs, Pass)
  {
    var msgs := EncodeAll(vs);
    forall i | 0 <= i < |msgs| ensures Envelope.DecodeData(msgs[i]) == Ok(vs[i]) && HandleOne(msgs[i], handler).Ok? {
      Envelope.DecodeEncodeData(vs[i]);
    }
    DeliverAllInOrder(msgs, handler);
    var calls := DeliverAll(msgs, handler).0;
    assert calls == vs by {
      forall i | 0 <= i < |vs| ensures calls[i] == vs[i] {
        assert Envelope.DecodeData(msgs[i]) == Ok(vs[i]);
      }
    }
  }
}
