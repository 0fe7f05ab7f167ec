/**
 * Pub/Sub resource names, as `get_topic_path` and `get_subscriber_path`
 * build them: "projects/{project}/topics/{topic}" and
 * "projects/{project}/subscriptions/{sub}".
 */
module PubsubPaths {

  function TopicPath(project: string, topic: string): (p: string)
    ensures |p| == |project| + |topic| + 17
  {
    "projects/" + project + "/topics/" + topic
  }

  function SubscriptionPath(project: string, sub: string): (p: string)
    ensures |p| == |project| + |sub| + 24
  {
    "projects/" + project + "/subscriptions/" + sub
  }

  /** The name is what follows the fixed prefix, so it can be read back from the path. */
  lemma TopicName(project: string, topic: string)
    ensures TopicPath(project, topic)[|project| + 17..] == topic
  {
    var p := TopicPath(project, topic);
    assert p == ("projects/" + project + "/topics/") + topic;
  }

  lemma SubscriptionName(project: string, sub: string)
    ensures SubscriptionPath(project, sub)[|project| + 24..] == sub
  {
    var p := SubscriptionPath(project, sub);
    assert p == ("projects/" + project + "/subscriptions/") + sub;
  }

  /** Within one project, two topics share a path exactly when they have the same name. */
  lemma TopicPathInjective(project: string, t1: string, t2: string)
    ensures TopicPath(project, t1) == TopicPath(project, t2) <==> t1 == t2
  {
    TopicName(project, t1);
    TopicName(project, t2);
  }

  lemma SubscriptionPathInjective(project: string, s1: string, s2: string)
    ensures SubscriptionPath(project, s1) == SubscriptionPath(project, s2) <==> s1 == s2
  {
    SubscriptionName(project, s1);
    SubscriptionName(project, s2);
  }

  /** A topic path is never a subscription path of the same project: they differ just after the project. */
  lemma TopicIsNotSubscription(project: string, topic: string, sub: string)
    ensures TopicPath(project, topic) != SubscriptionPath(project, sub)
  {
    var k := |project| + 10;
    assert TopicPath(project, topic)[k] == 't';
    assert SubscriptionPath(project, sub)[k] == 's';
  }
}
