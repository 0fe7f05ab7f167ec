/**
 * `PubsubBroker` of the earlier draft in main.py: the same resource names as
 * the adapter, but a deleted missing topic raises, a taken subscription name
 * is left bound to its old topic, and messages are sent without an "id".
 */
module MainPubsub {
  import opened Wrappers
  import opened JsonValue
  import opened PubsubService
  import PubsubPaths
  import Envelope

  class PubsubBroker {
    const project: string

    constructor (project: string)
      ensures this.project == project
    {
      this.project := project;
    }

    /** `get_topic_path` */
    function TopicPath(topic: string): string
    {
      PubsubPaths.TopicPath(project, topic)
    }

    /** `get_subscriber_path` */
    function SubscriberPath(name: string): string
    {
      PubsubPaths.SubscriptionPath(project, name)
    }

    /** `create_topic`: an existing topic is reported, not raised, so a second call changes nothing. */
    method CreateTopic(svc: Service, topic: string)
      modifies svc
      ensures svc.topics == old(svc.topics) + {TopicPath(topic)}
      ensures svc.subscriptions == old(svc.subscriptions) && svc.published == old(svc.published)
    {
      var _ := svc.CreateTopic(TopicPath(topic));
    }

    /** `delete_topic`: nothing is caught, so deleting a missing topic raises `NotFound`. */
    method DeleteTopic(svc: Service, topic: string) returns (r: Outcome<ApiError>)
      modifies svc
      ensures r == if TopicPath(topic) in old(svc.topics) then Pass else Fail(NotFound)
      ensures svc.topics == old(svc.topics) - {TopicPath(topic)}
      ensures svc.subscriptions == if r.Pass? then Detach(old(svc.subscriptions), TopicPath(topic)) else old(svc.subscriptions)
      ensures svc.published == old(svc.published)
    {
      r := svc.DeleteTopic(TopicPath(topic));
    }

    /**
     * `create_subscriber`: one attempt. A taken name is reported, not raised,
     * and keeps its old topic; a missing topic raises `NotFound`.
     */
    method CreateSubscriber(svc: Service, name: string, topic: string) returns (r: Outcome<ApiError>)
      modifies svc
      ensures SubscriberPath(name) in old(svc.subscriptions) ==> r == Pass && svc.subscriptions == old(svc.subscriptions)
      ensures SubscriberPath(name) !in old(svc.subscriptions) ==>
                r == (if TopicPath(topic) in svc.topics then Pass else Fail(NotFound)) &&
                svc.subscriptions == if r.Pass? then old(svc.subscriptions)[SubscriberPath(name) := TopicPath(topic)]
                                     else old(svc.subscriptions)
      ensures svc.topics == old(svc.topics) && svc.published == old(svc.published)
    {
      r := svc.CreateSubscription(SubscriberPath(name), TopicPath(topic));
      if r == Fail(AlreadyExists) {
        r := Pass;
      }
    }

    /** `delete_subscriber`: a missing subscription raises `NotFound`. */
    method DeleteSubscriber(svc: Service, name: string) returns (r: Outcome<ApiError>)
      modifies svc
      ensures r == if SubscriberPath(name) in old(svc.subscriptions) then Pass else Fail(NotFound)
      ensures svc.subscriptions == old(svc.subscriptions) - {SubscriberPath(name)}
      ensures svc.topics == old(svc.topics) && svc.published == old(svc.published)
    {
      r := svc.DeleteSubscription(SubscriberPath(name));
    }

    /**
     * `send_message`: publishes the encoding of any JSON value as it is and
     * waits for the result, which raises `NotFound` when the topic is missing.
     */
    method SendMessage(svc: Service, topic: string, message: Value) returns (r: Outcome<ApiError>)
      modifies svc
      ensures r == if TopicPath(topic) in svc.topics then Pass else Fail(NotFound)
      ensures svc.published == if r.Pass? then old(svc.published) + [Publication(TopicPath(topic), Envelope.EncodeData(message))]
                               else old(svc.published)
      ensures svc.topics == old(svc.topics) && svc.subscriptions == old(svc.subscriptions)
    {
      r := svc.Publish(TopicPath(topic), Envelope.EncodeData(message));
    }
  }
}
