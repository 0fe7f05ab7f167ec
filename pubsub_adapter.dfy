/**
 * `PubsubBroker` of the unified adapter. Its lifecycle calls tolerate what
 * already happened (an existing topic, a missing topic on delete), it rebinds
 * a taken subscription name by deleting and recreating it, and every message
 * it publishes carries an "id".
 */
module AdapterPubsub {
  import opened Wrappers
  import opened JsonValue
  import opened PubsubService
  import PubsubPaths
  import Envelope

  class PubsubBroker {
    const project: string

    constructor (project: string)
      ensures this.project == project
    {
      this.project := project;
    }

    /** `get_topic_path` */
    function TopicPath(topic: string): string
    {
      PubsubPaths.TopicPath(project, topic)
    }

    /** `get_subscriber_path` */
    function SubscriberPath(name: string): string
    {
      PubsubPaths.SubscriptionPath(project, name)
    }

    /**
     * `create_topic`: the created topic (by its path), or `None` for the `{}`
     * returned when the topic already exists; nothing is raised.
     */
    method CreateTopic(svc: Service, topic: string) returns (response: Option<string>)
      modifies svc
      ensures svc.topics == old(svc.topics) + {TopicPath(topic)}
      ensures response == if TopicPath(topic) in old(svc.topics) then None else Some(TopicPath(topic))
      ensures svc.subscriptions == old(svc.subscriptions) && svc.published == old(svc.published)
    {
      var path := TopicPath(topic);
      var r := svc.CreateTopic(path);
      response := if r.Pass? then Some(path) else None;
    }

    /** `delete_topic`: removes the topic if it exists; a missing topic is not an error. */
    method DeleteTopic(svc: Service, topic: string)
      modifies svc
      ensures svc.topics == old(svc.topics) - {TopicPath(topic)}
      ensures svc.subscriptions == if TopicPath(topic) in old(svc.topics)
                                   then Detach(old(svc.subscriptions), TopicPath(topic))
                                   else old(svc.subscriptions)
      ensures svc.published == old(svc.published)
    {
      var _ := svc.DeleteTopic(TopicPath(topic));
    }

    /** `delete_subscriber`: a missing subscription raises `NotFound`. */
    method DeleteSubscriber(svc: Service, name: string) returns (r: Outcome<ApiError>)
      modifies svc
      ensures r == if SubscriberPath(name) in old(svc.subscriptions) then Pass else Fail(NotFound)
      ensures svc.subscriptions == old(svc.subscriptions) - {SubscriberPath(name)}
      ensures svc.topics == old(svc.topics) && svc.published == old(svc.published)
    {
      r := svc.DeleteSubscription(SubscriberPath(name));
    }

    /**
     * `create_subscriber`: at most two attempts; when the name is taken it is
     * deleted and created again, so on success the name is bound to the
     * requested topic whatever it was bound to before. When the topic is
     * missing, `NotFound` is raised, after the old binding has been deleted.
     */
    method CreateSubscriber(svc: Service, name: string, topic: string) returns (r: Outcome<ApiError>, attempts: nat)
      modifies svc
      ensures attempts == if SubscriberPath(name) in old(svc.subscriptions) then 2 else 1
      ensures TopicPath(topic) in old(svc.topics) ==>
                r == Pass && svc.subscriptions == old(svc.subscriptions)[SubscriberPath(name) := TopicPath(topic)]
      ensures TopicPath(topic) !in old(svc.topics) ==>
                r == Fail(NotFound) && svc.subscriptions == old(svc.subscriptions) - {SubscriberPath(name)}
      ensures svc.topics == old(svc.topics) && svc.published == old(svc.published)
    {
      var subPath, topicPath := SubscriberPath(name), TopicPath(topic);
      ghost var taken := subPath in svc.subscriptions;
      attempts, r := 0, Pass;
      var done := false;
      while attempts < 2 && !done
        invariant attempts <= 2
        invariant svc.topics == old(svc.topics) && svc.published == old(svc.published)
        invariant attempts == 0 ==> !done && svc.subscriptions == old(svc.subscriptions)
        invariant attempts == 1 && !done ==> taken && svc.subscriptions == old(svc.subscriptions) - {subPath}
        invariant attempts == 2 ==> done
        invariant !done ==> r == Pass
        invariant done ==> attempts == (if taken then 2 else 1)
        invariant done && topicPath in svc.topics ==>
                    r == Pass && svc.subscriptions == old(svc.subscriptions)[subPath := topicPath]
        invariant done && topicPath !in svc.topics ==>
                    r == Fail(NotFound) && svc.subscriptions == old(svc.subscriptions) - {subPath}
      {
        var created := svc.CreateSubscription(subPath, topicPath);
        attempts := attempts + 1;
        if created.Pass? {
          done := true;
          if attempts == 2 {
            assert svc.subscriptions == old(svc.subscriptions)[subPath := topicPath];
          }
        } else if created == Fail(AlreadyExists) {
          r := DeleteSubscriber(svc, name);
        } else {
          r, done := created, true;
          assert svc.subscriptions == old(svc.subscriptions) - {subPath};
        }
      }
    }

    /**
     * `send_message`: gives the caller's dict an "id" (even when the publish
     * then fails), publishes its encoding, and raises `NotFound` when the
     * topic is missing. What was published decodes to the dict, id included.
     */
    method SendMessage(svc: Service, topic: string, message: Envelope.Dict, newId: string) returns (r: Outcome<ApiError>)
      requires message.Valid()
      modifies svc, message
      ensures message.Valid() && message.members == Envelope.WithId(old(message.members), newId)
      ensures r == if TopicPath(topic) in svc.topics then Pass else Fail(NotFound)
      ensures svc.published == if r.Pass?
                               then old(svc.published) + [Publication(TopicPath(topic), Envelope.EncodeData(Obj(message.members)))]
                               else old(svc.published)
      ensures r.Pass? ==> Envelope.DecodeData(svc.published[|svc.published| - 1].data) == Ok(Obj(message.members))
      ensures svc.topics == old(svc.topics) && svc.subscriptions == old(svc.subscriptions)
    {
      var path := TopicPath(topic);
      var m := Envelope.AddId(message, newId);
      var encoded := Envelope.EncodeData(Obj(m.members));
      Envelope.DecodeEncodeData(Obj(m.members));
      r := svc.Publish(path, encoded);
    }
  }
}
