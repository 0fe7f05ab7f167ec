/**
 * The Google Cloud Pub/Sub service as the brokers reach it through
 * `PublisherClient` and `SubscriberClient`: the topics that exist, the topic
 * each subscription is attached to, and the messages published so far.
 * Every call either succeeds or raises `AlreadyExists` / `NotFound`.
 */
module PubsubService {
  import opened Wrappers
  import Envelope

  /** `google.api_core.exceptions.AlreadyExists` and `NotFound`. */
  datatype ApiError = AlreadyExists | NotFound

  /** The topic a subscription reports once its own topic has been deleted. */
  const DeletedTopic: string := "_deleted-topic_"

  datatype Publication = Publication(topic: string, data: Envelope.Bytes)

  /** The subscriptions after `topic` is deleted: those attached to it are detached, the others keep their topic. */
  function Detach(subscriptions: map<string, string>, topic: string): (r: map<string, string>)
    ensures r.Keys == subscriptions.Keys
    ensures forall s :: s in r ==> r[s] == if subscriptions[s] == topic then DeletedTopic else subscriptions[s]
  {
    map s | s in subscriptions :: if subscriptions[s] == topic then DeletedTopic else subscriptions[s]
  }

  class Service {
    var topics: set<string>
    var subscriptions: map<string, string>
    var published: seq<Publication>

    constructor ()
      ensures topics == {} && subscriptions == map[] && published == []
    {
      topics := {};
      subscriptions := map[];
      published := [];
    }

    /** `PublisherClient.create_topic` */
    method CreateTopic(path: string) returns (r: Outcome<ApiError>)
      modifies this`topics
      ensures r == if path in old(topics) then Fail(AlreadyExists) else Pass
      ensures topics == old(topics) + {path}
    {
      if path in topics {
        r := Fail(AlreadyExists);
      } else {
        topics := topics + {path};
        r := Pass;
      }
    }

    /** `PublisherClient.delete_topic` */
    method DeleteTopic(path: string) returns (r: Outcome<ApiError>)
      modifies this`topics, this`subscriptions
      ensures r == if path in old(topics) then Pass else Fail(NotFound)
      ensures topics == old(topics) - {path}
      ensures subscriptions == if r.Pass? then Detach(old(subscriptions), path) else old(subscriptions)
    {
      if path in topics {
        topics := topics - {path};
        subscriptions := Detach(subscriptions, path);
        r := Pass;
      } else {
        r := Fail(NotFound);
      }
    }

    /** `SubscriberClient.create_subscription`: a taken name is reported before a missing topic. */
    method CreateSubscription(sub: string, topic: string) returns (r: Outcome<ApiError>)
      modifies this`subscriptions
      ensures r == if sub in old(subscriptions) then Fail(AlreadyExists)
                   else if topic !in topics then Fail(NotFound)
                   else Pass
      ensures subscriptions == if r.Pass? then old(subscriptions)[sub := topic] else old(subscriptions)
    {
      if sub in subscriptions {
        r := Fail(AlreadyExists);
      } else if topic !in topics {
        r := Fail(NotFound);
      } else {
        subscriptions := subscriptions[sub := topic];
        r := Pass;
      }
    }

    /** `SubscriberClient.delete_subscription` */
    method DeleteSubscription(sub: string) returns (r: Outcome<ApiError>)
      modifies this`subscriptions
      ensures r == if sub in old(subscriptions) then Pass else Fail(NotFound)
      ensures subscriptions == old(subscriptions) - {sub}
    {
      if sub in subscriptions {
        subscriptions := subscriptions - {sub};
        r := Pass;
      } else {
        r := Fail(NotFound);
      }
    }

    /** `PublisherClient.publish`, with the future's exception read back: publishing to a missing topic fails. */
    method Publish(topic: string, data: Envelope.Bytes) returns (r: Outcome<ApiError>)
      modifies this`published
      ensures r == if topic in topics then Pass else Fail(NotFound)
      ensures published == if r.Pass? then old(published) + [Publication(topic, data)] else old(published)
    {
      if topic in topics {
        published := published + [Publication(topic, data)];
        r := Pass;
      } else {
        r := Fail(NotFound);
      }
    }
  }
}
