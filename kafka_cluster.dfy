/**
 * The Kafka side that both `KafkaBroker` classes talk to: the cluster's
 * topics and the records producers have sent, and the class-level
 * `subscriptions` dict in which a broker keeps its consumers by name.
 */
module KafkaCluster {
  import opened Wrappers
  import Envelope
  import Delivery

  /**
   * How a `KafkaConsumer` was set up: the topics it follows, its group, its
   * client id, whether it commits offsets on its own, where it starts without
   * a committed offset, and its `consumer_timeout_ms` (`None` = wait forever,
   * the client's default).
   */
  datatype ConsumerConfig = ConsumerConfig(
    topics: seq<string>,
    groupId: Option<string>,
    clientId: string,
    autoCommit: bool,
    offsetReset: string,
    timeoutMs: Option<int>)

  /** What `consume` raised: `KeyError` for an unknown name, `TypeError` for `None * 1000`, or what handling a message raised. */
  datatype KafkaError = KeyError | TypeError | Raised(failure: Delivery.Failure)

  /** One record a producer sent: its topic and its value bytes. */
  datatype Record = Record(topic: string, value: Envelope.Bytes)

  /** The outcome of handing messages to the callback, as `consume` reports it. */
  function Lift(o: Outcome<Delivery.Failure>): (r: Outcome<KafkaError>)
    ensures r.Pass? <==> o.Pass?
    ensures o.Fail? ==> r.error == Raised(o.error)
  {
    match o
    case Pass => Pass
    case Fail(f) => Fail(Raised(f))
  }

  /** The class attribute `KafkaBroker.subscriptions`: one dict shared by every instance of the class. */
  class Registry {
    var subscriptions: map<string, ConsumerConfig>

    constructor ()
      ensures subscriptions == map[]
    {
      subscriptions := map[];
    }
  }

  /** The cluster: the topics that exist and, in order, every record sent to it. */
  class Cluster {
    var topics: set<string>
    var log: seq<Record>

    constructor (topics: set<string>)
      ensures this.topics == topics && log == []
    {
      this.topics := topics;
      log := [];
    }
  }
}
