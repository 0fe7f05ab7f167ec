/**
 * `KafkaBroker` of the unified adapter. Its consumers join the group
 * "mygroup" unless told otherwise, a subscriber created again under the same
 * name replaces the old one, and every message it sends carries an "id".
 */
module AdapterKafka {
  import opened Wrappers
  import opened JsonValue
  import opened KafkaCluster
  import Envelope
  import Delivery

  class KafkaBroker {
    const registry: Registry

    /**
     * A broker over `registry`, which stands for the class attribute
     * `subscriptions`. That all brokers of the class are built over one
     * registry, and brokers of the other `KafkaBroker` class over another, is
     * up to the caller.
     */
    constructor (registry: Registry)
      ensures this.registry == registry
    {
      this.registry := registry;
    }

    /** `create_topic`: the topic exists afterwards; an existing topic is reported, not raised. */
    method CreateTopic(cluster: Cluster, topic: string)
      modifies cluster
      ensures cluster.topics == old(cluster.topics) + {topic} && cluster.log == old(cluster.log)
    {
      cluster.topics := cluster.topics + {topic};
    }

    /**
     * `create_subscriber`: a consumer of `topic` in `group` (the caller's
     * default is "mygroup") with client id `name` and auto-commit, stored
     * under `name` whether or not the name was taken.
     */
    method CreateSubscriber(name: string, topic: string, group: string)
      modifies registry
      ensures registry.subscriptions ==
                old(registry.subscriptions)[name := ConsumerConfig([topic], Some(group), name, true, "latest", None)]
    {
      registry.subscriptions := registry.subscriptions[name := ConsumerConfig([topic], Some(group), name, true, "latest", None)];
    }

    /** `delete_subscriber`: forgets the consumer; an unknown name is reported, not raised. */
    method DeleteSubscriber(name: string)
      modifies registry
      ensures registry.subscriptions == old(registry.subscriptions) - {name}
    {
      if name in registry.subscriptions {
        registry.subscriptions := registry.subscriptions - {name};
      }
    }

    /**
     * `consume`: for a known name, a given timeout (in seconds) becomes the
     * consumer's timeout in milliseconds; then the consumer is looked up,
     * which raises `KeyError` for an unknown name, and each message it
     * yields goes through `broker_callback` until one raises. `yielded` is
     * what the consumer yields before it stops.
     */
    method Consume(name: string, handler: Delivery.Handler, timeout: Option<int>, yielded: seq<Envelope.Bytes>)
      returns (calls: seq<Value>, r: Outcome<KafkaError>)
      modifies registry
      ensures registry.subscriptions ==
                if name in old(registry.subscriptions) && timeout.Some?
                then old(registry.subscriptions)[name := old(registry.subscriptions)[name].(timeoutMs := Some(timeout.value * 1000))]
                else old(registry.subscriptions)
      ensures name !in old(registry.subscriptions) ==> calls == [] && r == Fail(KeyError)
      ensures name in old(registry.subscriptions) ==>
                calls == Delivery.DeliverAll(yielded, handler).0 && r == Lift(Delivery.DeliverAll(yielded, handler).1)
    {
      if name in registry.subscriptions && timeout.Some? {
        var consumer := registry.subscriptions[name];
        registry.subscriptions := registry.subscriptions[name := consumer.(timeoutMs := Some(timeout.value * 1000))];
      }
      if name !in registry.subscriptions {
        return [], Fail(KeyError);
      }
      var outcome;
      calls, outcome := Delivery.Deliver(yielded, handler);
      r := Lift(outcome);
    }

    /**
     * `send_message`: tags the caller's dict with an "id" (`newId` stands for
     * the new uuid) and sends its encoding to `topic`.
     */
    method SendMessage(cluster: Cluster, topic: string, message: Envelope.Dict, newId: string)
      requires message.Valid()
      modifies cluster, message
      ensures message.Valid() && message.members == Envelope.WithId(old(message.members), newId)
      ensures cluster.log == old(cluster.log) + [Record(topic, Envelope.EncodeData(Obj(message.members)))]
      ensures cluster.topics == old(cluster.topics)
    {
      var tagged := Envelope.AddId(message, newId);
      cluster.log := cluster.log + [Record(topic, Envelope.EncodeData(Obj(tagged.members)))];
    }
  }

  /**
   * Brokers built over one registry share their subscribers, as instances of
   * the class share its `subscriptions` attribute: a subscriber created
   * through `a` is found, and consumed, through `b`.
   */
  method SharedSubscriptions(a: KafkaBroker, b: KafkaBroker, name: string, topic: string, group: string,
                             handler: Delivery.Handler, yielded: seq<Envelope.Bytes>)
    returns (calls: seq<Value>, r: Outcome<KafkaError>)
    requires a.registry == b.registry
    modifies a.registry
    ensures name in a.registry.subscriptions
    ensures calls == Delivery.DeliverAll(yielded, handler).0 && r == Lift(Delivery.DeliverAll(yielded, handler).1)
  {
    a.CreateSubscriber(name, topic, group);
    calls, r := b.Consume(name, handler, None, yielded);
  }

  /**
   * A consumer handed the records this broker sent for a sequence of dicts,
   * with a callback that returns on each, calls the callback with those
   * dicts, in order, each with its "id": the one it had, or else the one
   * drawn when it was sent.
   */
  lemma {:induction false} ConsumerSeesSentIds(ms: seq<seq<Member>>, ids: seq<string>, handler: Delivery.Handler)
    requires |ids| == |ms|
    requires forall i :: 0 <= i < |ms| ==> WellFormed(Obj(ms[i])) && handler(Obj(Envelope.WithId(ms[i], ids[i])))
    ensures var sent := seq(|ms|, i requires 0 <= i < |ms| => Obj(Envelope.WithId(ms[i], ids[i])));
            Delivery.DeliverAll(Delivery.EncodeAll(sent), handler) == (sent, Pass) &&
            forall i :: 0 <= i < |ms| ==>
              Get(sent[i].members, "id") == if HasKey(ms[i], "id") then Get(ms[i], "id") else Some(Str(ids[i]))
  {
    var sent := seq(|ms|, i requires 0 <= i < |ms| => Obj(Envelope.WithId(ms[i], ids[i])));
    forall i | 0 <= i < |ms|
      ensures WellFormed(sent[i])
      ensures Get(sent[i].members, "id") == if HasKey(ms[i], "id") then Get(ms[i], "id") else Some(Str(ids[i]))
    {
      Envelope.WithIdWellFormed(ms[i], ids[i]);
      Envelope.ConsumerSeesId(ms[i], ids[i]);
    }
    Delivery.DeliverEncoded(sent, handler);
  }
}
