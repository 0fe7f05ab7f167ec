/**
 * `KafkaBroker` of the earlier draft in main.py: its consumers belong to no
 * group and read from the earliest offset, a taken subscriber name keeps its
 * first consumer, `consume` waits 10 seconds by default, and messages are
 * sent without an "id". Its `create_topic` and `delete_topic` do nothing.
 */
module MainKafka {
  import opened Wrappers
  import opened JsonValue
  import opened KafkaCluster
  import Envelope
  import Delivery

  class KafkaBroker {
    const registry: Registry

    /**
     * A broker over `registry`, which stands for the class attribute
     * `subscriptions`. That all brokers of the class are built over one
     * registry, and brokers of the other `KafkaBroker` class over another, is
     * up to the caller.
     */
    constructor (registry: Registry)
      ensures this.registry == registry
    {
      this.registry := registry;
    }

    /**
     * `create_subscriber`: for a new name, a consumer subscribed to `topic`
     * with client id `name`, no group, auto-commit and the earliest offset;
     * a taken name is reported and keeps its consumer.
     */
    method CreateSubscriber(name: string, topic: string)
      modifies registry
      ensures registry.subscriptions ==
                if name in old(registry.subscriptions) then old(registry.subscriptions)
                else old(registry.subscriptions)[name := ConsumerConfig([topic], None, name, true, "earliest", None)]
    {
      if name !in registry.subscriptions {
        registry.subscriptions := registry.subscriptions[name := ConsumerConfig([topic], None, name, true, "earliest", None)];
      }
    }

    /** `delete_subscriber`: forgets the consumer; an unknown name is reported, not raised. */
    method DeleteSubscriber(name: string)
      modifies registry
      ensures registry.subscriptions == old(registry.subscriptions) - {name}
    {
      if name in registry.subscriptions {
        registry.subscriptions := registry.subscriptions - {name};
      }
    }

    /**
     * `consume` (the caller's default timeout is `Some(10)`): for a known
     * name the timeout in seconds becomes the consumer's timeout in
     * milliseconds, and a `None` timeout raises `TypeError` there; an
     * unknown name raises `KeyError`; then each message the consumer yields
     * (`yielded`) is decoded and handed to the callback until one raises.
     * A `KafkaTimeoutError` raised in the loop is caught and reported, so
     * `consume` then returns normally: `raisesTimeout` says, for a payload
     * on which the callback raises, whether what it raises is that error.
     */
    method Consume(name: string, handler: Delivery.Handler, raisesTimeout: Value -> bool, timeout: Option<int>, yielded: seq<Envelope.Bytes>)
      returns (calls: seq<Value>, r: Outcome<KafkaError>)
      modifies registry
      ensures registry.subscriptions ==
                if name in old(registry.subscriptions) && timeout.Some?
                then old(registry.subscriptions)[name := old(registry.subscriptions)[name].(timeoutMs := Some(timeout.value * 1000))]
                else old(registry.subscriptions)
      ensures name !in old(registry.subscriptions) ==> calls == [] && r == Fail(KeyError)
      ensures name in old(registry.subscriptions) && timeout.None? ==> calls == [] && r == Fail(TypeError)
      ensures name in old(registry.subscriptions) && timeout.Some? ==>
                calls == Delivery.DeliverAll(yielded, handler).0 &&
                r == CatchTimeout(Delivery.DeliverAll(yielded, handler).1, raisesTimeout)
    {
      if name in registry.subscriptions {
        if timeout.None? {
          return [], Fail(TypeError);
        }
        var consumer := registry.subscriptions[name];
        registry.subscriptions := registry.subscriptions[name := consumer.(timeoutMs := Some(timeout.value * 1000))];
      }
      if name !in registry.subscriptions {
        return [], Fail(KeyError);
      }
      var outcome;
      calls, outcome := Delivery.Deliver(yielded, handler);
      r := CatchTimeout(outcome, raisesTimeout);
    }

    /** `send_message`: sends the encoding of any JSON value, as it is, to `topic`. */
    method SendMessage(cluster: Cluster, topic: string, message: Value)
      modifies cluster
      ensures cluster.log == old(cluster.log) + [Record(topic, Envelope.EncodeData(message))]
      ensures cluster.topics == old(cluster.topics)
    {
      cluster.log := cluster.log + [Record(topic, Envelope.EncodeData(message))];
    }
  }

  /**
   * Brokers built over one registry share their subscribers, as instances of
   * the class share its `subscriptions` attribute: a subscriber created
   * through `a` is found, and consumed, through `b`.
   */
  method SharedSubscriptions(a: KafkaBroker, b: KafkaBroker, name: string, topic: string, seconds: int,
                             handler: Delivery.Handler, raisesTimeout: Value -> bool, yielded: seq<Envelope.Bytes>)
    returns (calls: seq<Value>, r: Outcome<KafkaError>)
    requires a.registry == b.registry
    modifies a.registry
    ensures name in a.registry.subscriptions
    ensures calls == Delivery.DeliverAll(yielded, handler).0 &&
            r == CatchTimeout(Delivery.DeliverAll(yielded, handler).1, raisesTimeout)
  {
    a.CreateSubscriber(name, topic);
    calls, r := b.Consume(name, handler, raisesTimeout, Some(seconds), yielded);
  }

  /**
   * The `try`/`except KafkaTimeoutError` around the loop: a timeout raised
   * by the callback ends the loop quietly, and anything else propagates.
   */
  function CatchTimeout(o: Outcome<Delivery.Failure>, raisesTimeout: Value -> bool): (r: Outcome<KafkaError>)
    ensures r.Pass? <==> o.Pass? || (o.error.HandlerRaised? && raisesTimeout(o.error.payload))
    ensures r.Fail? ==> r.error == Raised(o.error)
  {
    match o
    case Fail(HandlerRaised(v)) => if raisesTimeout(v) then Pass else Lift(o)
    case _ => Lift(o)
  }

  /**
   * When the callback raises `KafkaTimeoutError` on the k-th message and
   * returned on all before it, `consume` returns normally after calling the
   * callback with those k payloads and this one; no later message reaches it.
   */
  lemma TimeoutEndsQuietly(yielded: seq<Envelope.Bytes>, handler: Delivery.Handler, raisesTimeout: Value -> bool, k: nat)
    requires k < |yielded| && Delivery.AllHandled(yielded[..k], handler)
    requires Delivery.HandleOne(yielded[k], handler).Err? && Delivery.HandleOne(yielded[k], handler).error.HandlerRaised?
    requires raisesTimeout(Delivery.HandleOne(yielded[k], handler).error.payload)
    ensures CatchTimeout(Delivery.DeliverAll(yielded, handler).1, raisesTimeout) == Pass
    ensures Delivery.DeliverAll(yielded, handler).0 ==
              Delivery.Payloads(yielded[..k], handler) + [Delivery.HandleOne(yielded[k], handler).error.payload]
  {
    Delivery.DeliverAllStops(yielded, handler, k);
  }
}
