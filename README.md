# Unified message-broker adapter and trainer helpers, in Dafny

This project models the unified message-broker layer of the repository and the small
dataset helpers of its two image-classifier trainers.

**Brokers.** `UnifiedAPI/adapter.py` defines `MessageBroker` and two backends:

- `PubsubBroker`, over Google Cloud Pub/Sub.
- `KafkaBroker`, over Kafka.

`UnifiedAPI/main.py` is an earlier draft of the same classes with different policies.
Both versions are modelled side by side:

| Module | Models |
|---|---|
| `AdapterPubsub`, `AdapterKafka` | adapter.py |
| `MainPubsub`, `MainKafka` | main.py |

All four share the following parts:

- `Envelope`:
  - `encode_data`, i.e. `json.dumps` followed by UTF-8 encoding
  - `decode_data`, its inverse
  - `add_id`, which gives a dict payload an `"id"` in place
- `JsonValue`, `JsonWrite`, `JsonRead`, `JsonRoundTrip` and `Utf8`: the JSON text and UTF-8
  layer that `encode_data` and `decode_data` stand on.
  - It is written out concretely: `json.dumps` defaults with `ensure_ascii`, and the
    `json.loads` scanner.
  - It is proved to round-trip for every value whose objects have unique keys.
- `PubsubPaths`: the `projects/{project}/topics/{topic}` and
  `projects/{project}/subscriptions/{sub}` resource names.
- `PubsubService`: the remote Pub/Sub service as a class holding three things:
  - its topics
  - the topic each subscription is attached to
  - the messages published so far

  Its calls raise `AlreadyExists` or `NotFound` as the brokers expect.
- `KafkaCluster`:
  - the Kafka cluster, holding its topics and the records sent to it
  - the class-level `subscriptions` dict, as a `Registry` object that every broker of
    one class shares
- `Delivery`: what happens to each delivered message.
  - Pub/Sub's `broker_callback` decodes the message, calls the callback, and only then
    acks.
  - Kafka's callback does the same without an ack.
  - Kafka's `consume` loop hands the messages over in order until one raises.

**Trainers.** `trainer.py` and `ImageClassifier/trainer.py` share three helpers:

- `Partition`: `partition_ds`, with `tf.data.Dataset.take`/`skip` semantics and Python's
  truncating `int()`.
- `Labels`: the label lookup of `get_image_label_from_path`, i.e. split the path, then
  argmax over the class names.
- `Training`: the dataset dispatch of each `train`, and the `<dataset>_<%Y%m%d-%H%M%S>`
  model name.

Calls to the outside world are modelled as follows:

- A callback is a total function from the payload to whether it returned (`false` means
  it raised).
- `uuid.uuid4()` is a `newId` parameter.
- `datetime.now()` is a `DateTime` parameter.
- The directories under the dataset directory are a set parameter.
- What a Kafka consumer yields before it stops is a finite `yielded` sequence.

**Where the code departs from the documented contract** (the model follows the code):

- Kafka `create_subscriber` in adapter.py replaces the consumer under a taken name. It
  is not a no-op.
- Kafka `delete_topic` is `pass` in both files. It is not a destructive delete.
- The adapter's Pub/Sub `delete_topic` swallows `NotFound`.
- Kafka `send_message` does not check that the topic exists.
- main.py's Kafka `consume` raises `TypeError` for `timeout=None` on a known
  subscriber. It does not block forever.
- Pub/Sub `delete_subscriber` raises `NotFound` for a missing subscription, in both
  files. It does not only log a warning.
- main.py's Pub/Sub `create_subscriber` keeps the old binding of a taken name. It does
  not delete and recreate the subscription.
- main.py's `send_message`, for both backends, sends the payload as it is. It does not
  add an id.

## Model

| member | source | states |
|---|---|---|
| Utf8.DecodeEncode | UnifiedAPI/adapter.py:72-78 | decoding the UTF-8 encoding of any string gives the string back |
| Utf8.EncodeDecode | UnifiedAPI/adapter.py:76-78 | bytes that decode as UTF-8 are exactly the encoding of what they decode to |
| JsonValue.Get | UnifiedAPI/adapter.py:64-70 | a key lookup finds a value exactly when the key is present, and the value is the one stored under it |
| JsonValue.FromUniquePairs | UnifiedAPI/adapter.py:76-78 | reading an object whose keys are distinct gives its members in order |
| JsonValue.UpsertKeys | UnifiedAPI/adapter.py:76-78 | assigning a key appends it when new and keeps the key order otherwise |
| JsonValue.FromPairsUnique | UnifiedAPI/adapter.py:76-78 | whatever members are read, with repeats, the decoded object has unique keys |
| JsonWrite.Dumps | UnifiedAPI/adapter.py:72-74 | the text `json.dumps` writes is never empty, and its first character tells an object, an array, a string and an integer apart (its other properties are the rows below) |
| JsonRead.Loads | UnifiedAPI/adapter.py:76-78 | every object in what `json.loads` returns has each key once, at every depth; `JsonRoundTrip.LoadsDumps` is its round trip with `Dumps` |
| JsonWrite.DumpsIsAscii | UnifiedAPI/adapter.py:72-74 | the text `json.dumps` writes is printable ASCII for every value |
| JsonRoundTrip.NumberRoundTrip | UnifiedAPI/adapter.py:72-78 | an integer's decimal text, followed by any delimiter, reads back as that integer |
| JsonRoundTrip.Hex4RoundTrip | UnifiedAPI/adapter.py:72-78 | a `\uXXXX` escape reads back as the code unit it was written for |
| JsonRoundTrip.StringBodyRoundTrip | UnifiedAPI/adapter.py:72-78 | an escaped string, followed by its closing quote, reads back as the same string, surrogate pairs included |
| JsonRoundTrip.ValueRoundTrip | UnifiedAPI/adapter.py:72-78 | a dumped value followed by any delimiter reads back as the value |
| JsonRoundTrip.LoadsDumps | UnifiedAPI/adapter.py:72-78 | `json.loads(json.dumps(v)) == v` for every value whose objects have unique keys |
| Envelope.DecodeEncodeData | UnifiedAPI/adapter.py:72-78 | `decode_data(encode_data(v)) == v` for every such value (main.py:45-51 has the same codec) |
| Envelope.EncodeData | UnifiedAPI/adapter.py:72-74 | an encoded message has one byte per character of its JSON text, each printable ASCII (main.py:45-47 is the same function) |
| Envelope.DecodeData | UnifiedAPI/adapter.py:76-78 | what `decode_data` returns holds dicts with unique keys; `Utf8.DecodeRejects` says when it raises `UnicodeDecodeError` and `Envelope.DecodeEncodeData` that it inverts `encode_data` |
| Utf8.DecodeRejects | UnifiedAPI/adapter.py:76-78 | `bytes.decode("utf-8")` fails exactly on the byte strings that are the encoding of no string |
| Envelope.WithId | UnifiedAPI/adapter.py:64-70 | `add_id` only appends: the old members stay where they were, and at most one member is added (the rows below say which) |
| Envelope.WithIdAbsent | UnifiedAPI/adapter.py:64-70 | on a dict without "id", `add_id` adds exactly the key "id", last, bound to the new id, and keeps every other key's value |
| Envelope.WithIdPresent | UnifiedAPI/adapter.py:67-68 | a dict that already has an "id" is left unchanged |
| Envelope.WithIdIdempotent | UnifiedAPI/adapter.py:64-70 | after `add_id` the dict has an "id", so a second call, whatever id it draws, changes nothing |
| Envelope.WithIdUnique | UnifiedAPI/adapter.py:64-70 | `add_id` keeps the keys unique |
| Envelope.WithIdWellFormed | UnifiedAPI/adapter.py:64-70 | `add_id` keeps a JSON-representable dict JSON-representable |
| Envelope.ConsumerSeesId | UnifiedAPI/test_UnifiedAPI.py:37-45 | a message sent with `add_id` decodes to the tagged dict, whose "id" is the one it had or else the new one |
| Envelope.AddId | UnifiedAPI/adapter.py:64-70 | mutates the caller's dict to the tagged dict and returns that same object |
| PubsubPaths.TopicPath | UnifiedAPI/adapter.py:174-181 | a topic path is the project and topic plus 17 fixed characters |
| PubsubPaths.SubscriptionPath | UnifiedAPI/adapter.py:183-190 | a subscription path is the project and name plus 24 fixed characters |
| PubsubPaths.TopicName | UnifiedAPI/adapter.py:174-181 | the topic name reads back from its path |
| PubsubPaths.SubscriptionName | UnifiedAPI/adapter.py:183-190 | the subscription name reads back from its path |
| PubsubPaths.TopicPathInjective | UnifiedAPI/adapter.py:174-181 | within a project, two topics share a path exactly when their names are equal |
| PubsubPaths.SubscriptionPathInjective | UnifiedAPI/adapter.py:183-190 | within a project, two subscriptions share a path exactly when their names are equal |
| PubsubPaths.TopicIsNotSubscription | UnifiedAPI/main.py:131-147 | no topic path of a project is also a subscription path of it |
| PubsubService.Detach | UnifiedAPI/adapter.py:116-116 | deleting a topic keeps every subscription and points those of the deleted topic at `_deleted-topic_` |
| PubsubService.Service.CreateTopic | UnifiedAPI/adapter.py:103-108 | an existing topic raises `AlreadyExists`; afterwards the topic exists |
| PubsubService.Service.DeleteTopic | UnifiedAPI/adapter.py:115-119 | a missing topic raises `NotFound`; afterwards the topic is gone and its subscriptions are detached |
| PubsubService.Service.CreateSubscription | UnifiedAPI/adapter.py:130-137 | a taken name raises `AlreadyExists`, a missing topic `NotFound`, and otherwise binds the name to the topic |
| PubsubService.Service.DeleteSubscription | UnifiedAPI/adapter.py:143-143 | a missing subscription raises `NotFound`; afterwards it is gone |
| PubsubService.Service.Publish | UnifiedAPI/adapter.py:152-155 | publishing to a missing topic fails with `NotFound`; otherwise the message is appended to what was published |
| AdapterPubsub.PubsubBroker.CreateTopic | UnifiedAPI/adapter.py:98-110 | the topic exists afterwards, nothing is raised, and the response is the new topic or `{}` when it already existed |
| AdapterPubsub.PubsubBroker.DeleteTopic | UnifiedAPI/adapter.py:112-119 | the topic is gone afterwards, and a missing topic is not an error |
| AdapterPubsub.PubsubBroker.CreateSubscriber | UnifiedAPI/adapter.py:121-138 | at most two attempts, two exactly when the name was taken; on an existing topic the name ends up bound to it; on a missing one `NotFound` is raised after the old binding was deleted |
| AdapterPubsub.PubsubBroker.DeleteSubscriber | UnifiedAPI/adapter.py:140-145 | the subscription is gone afterwards; a missing one raises `NotFound` |
| AdapterPubsub.PubsubBroker.SendMessage | UnifiedAPI/adapter.py:147-158 | tags the caller's dict with an "id", publishes its encoding, raises `NotFound` exactly when the topic is missing, and what was published decodes to the tagged dict |
| MainPubsub.PubsubBroker.CreateTopic | UnifiedAPI/main.py:67-79 | the topic exists afterwards and `AlreadyExists` is swallowed |
| MainPubsub.PubsubBroker.DeleteTopic | UnifiedAPI/main.py:81-86 | the topic is gone afterwards; a missing topic raises `NotFound` |
| MainPubsub.PubsubBroker.CreateSubscriber | UnifiedAPI/main.py:88-100 | one attempt; a taken name keeps its old topic without error; a missing topic raises `NotFound` |
| MainPubsub.PubsubBroker.DeleteSubscriber | UnifiedAPI/main.py:102-107 | the subscription is gone afterwards; a missing one raises `NotFound` |
| MainPubsub.PubsubBroker.SendMessage | UnifiedAPI/main.py:109-112 | publishes the payload's encoding as it is, with no id, and raises `NotFound` exactly when the topic is missing |
| Delivery.HandleOne | UnifiedAPI/adapter.py:277-280 | handling a message succeeds exactly when its bytes decode and the callback returns on the payload, and reports which of the two raised |
| Delivery.PubsubCallback | UnifiedAPI/adapter.py:192-196 | the message is acknowledged exactly when the callback returned on its decoded payload |
| Delivery.DeliverAll | UnifiedAPI/adapter.py:267-269 | the recursive specification of the consume loop: when nothing raises, the callback is called once per message; `DeliverAllInOrder` and `DeliverAllStops` give the calls themselves |
| Delivery.Deliver | UnifiedAPI/adapter.py:267-269 | the consume loop calls the callback with the same payloads, and ends with the same outcome, as the recursive specification `DeliverAll` |
| Delivery.DeliverAllInOrder | UnifiedAPI/adapter.py:267-269 | the loop raises exactly when some message fails; when none fails, the callback is called once per message, in order, with that message's payload |
| Delivery.DeliverAllStops | UnifiedAPI/main.py:218-221 | at the first failing message the loop stops with its error, after calling the callback on the payloads before it (and on its own payload when the callback raised) |
| Delivery.DeliverEncoded | UnifiedAPI/adapter.py:261-275 | a consumer handed the encodings of JSON-representable payloads calls an accepting callback with exactly those payloads, in order |
| KafkaCluster.Lift | UnifiedAPI/adapter.py:267-269 | the loop's outcome passes through `consume` unchanged: a failure is re-raised as it was |
| AdapterKafka.KafkaBroker.constructor | UnifiedAPI/adapter.py:205-211 | the broker keeps the registry it is given, which stands for the class-level `subscriptions` dict; that all brokers of the class get the same one is the caller's discipline |
| AdapterKafka.SharedSubscriptions | UnifiedAPI/adapter.py:205-207 | two brokers over one registry share subscribers: one created through the first is consumed through the second, with the loop's calls and outcome |
| AdapterKafka.KafkaBroker.CreateTopic | UnifiedAPI/adapter.py:225-233 | the topic exists afterwards and an existing topic is not an error |
| AdapterKafka.KafkaBroker.CreateSubscriber | UnifiedAPI/adapter.py:241-252 | the name is bound to a fresh consumer of the topic in the given group, with client id = name and auto-commit, replacing any earlier one |
| AdapterKafka.KafkaBroker.DeleteSubscriber | UnifiedAPI/adapter.py:254-259 | the name is unbound afterwards; an unknown name is not an error |
| AdapterKafka.KafkaBroker.Consume | UnifiedAPI/adapter.py:261-269 | a given timeout in seconds becomes the known consumer's timeout in milliseconds; an unknown name raises `KeyError`; otherwise the callback sees what the delivery loop hands it |
| AdapterKafka.KafkaBroker.SendMessage | UnifiedAPI/adapter.py:271-275 | tags the caller's dict with an "id" and sends the encoding of the tagged dict to the topic |
| AdapterKafka.ConsumerSeesSentIds | UnifiedAPI/test_UnifiedAPI.py:37-45 | a consumer of the records sent for a sequence of dicts calls an accepting callback with those dicts, in order, each carrying its own or its new "id" |
| MainKafka.KafkaBroker.constructor | UnifiedAPI/main.py:154-160 | the broker keeps the registry it is given, which stands for the class-level `subscriptions` dict; that all brokers of the class get the same one is the caller's discipline |
| MainKafka.SharedSubscriptions | UnifiedAPI/main.py:154-156 | two brokers over one registry share subscribers: one created through the first is consumed through the second |
| MainKafka.KafkaBroker.CreateSubscriber | UnifiedAPI/main.py:190-204 | a new name gets a group-less auto-committing consumer of the topic reading from the earliest offset; a taken name keeps its consumer |
| MainKafka.KafkaBroker.DeleteSubscriber | UnifiedAPI/main.py:206-211 | the name is unbound afterwards; an unknown name is not an error |
| MainKafka.KafkaBroker.Consume | UnifiedAPI/main.py:213-224 | a known name with timeout `None` raises `TypeError`; otherwise the timeout becomes milliseconds; an unknown name raises `KeyError`; then the callback sees what the delivery loop hands it, and a `KafkaTimeoutError` it raises ends `consume` normally |
| MainKafka.CatchTimeout | UnifiedAPI/main.py:218-224 | the loop ends without error exactly when nothing raised or the callback raised `KafkaTimeoutError`; anything else is re-raised as it was |
| MainKafka.TimeoutEndsQuietly | UnifiedAPI/main.py:218-224 | a callback that raises `KafkaTimeoutError` on the k-th message ends `consume` normally, after being called with the k payloads before it and this one |
| MainKafka.KafkaBroker.SendMessage | UnifiedAPI/main.py:226-229 | sends the payload's encoding as it is, with no id |
| Partition.Take | trainer.py:44-44 | `take` keeps a prefix of the requested length, or all of it for a negative or too large count |
| Partition.Skip | trainer.py:45-46 | `skip` keeps a suffix, all but the requested count, and nothing for a negative or too large count |
| Partition.TakeSkip | trainer.py:44-46 | what `take(k)` keeps and `skip(k)` keeps together are the dataset |
| Partition.TakeSkipTwice | ImageClassifier/trainer.py:39-41 | taking a part, then a part of the rest, then the rest of the rest gives back the dataset, whatever the counts |
| Partition.Trunc | trainer.py:41-42 | `int()` truncates toward zero |
| Partition.SplitSize | trainer.py:41-42 | a non-negative fraction asks for the whole number of elements its share of the dataset contains, a negative one for none or a negative count |
| Partition.PartitionDs | trainer.py:35-48 | the assertion fails exactly when the three fractions do not add up to 1 (ImageClassifier/trainer.py:30-43 is the same function) |
| Partition.PartitionCovers | trainer.py:44-46 | whatever the fractions, train, validation and test in order are the dataset: nothing lost or repeated (likewise ImageClassifier/trainer.py:39-41) |
| Partition.SplitSizeBounds | trainer.py:41-42 | a fraction between 0 and 1 asks for between 0 and n elements, and at most that fraction of n |
| Partition.SplitSizesFit | ImageClassifier/trainer.py:36-37 | train and validation sizes together never exceed the dataset size |
| Partition.PartitionSizes | trainer.py:41-46 | with fractions in [0, 1] adding up to 1, train has `int(train_split*n)` elements, validation `int(val_split*n)`, which is `min(val_size, n - train_size)`, and test the rest (likewise ImageClassifier/trainer.py:36-41) |
| Labels.Split | trainer.py:53-53 | a split has at least one component |
| Labels.SplitHasNoSeparator | trainer.py:53-53 | no component of a split contains the separator |
| Labels.JoinSplit | trainer.py:53-53 | joining the components with the separator gives back the path |
| Labels.SplitJoin | trainer.py:53-53 | separator-free components joined by the separator split back into those components |
| Labels.SplitAt | trainer.py:53-53 | splitting at a separator splits each side on its own |
| Labels.ArgMax | trainer.py:55-57 | the index of the first class equal to the component when there is one, and 0 when there is none |
| Labels.Label | trainer.py:51-57 | the lookup fails for a path without a separator and for an empty class list, and otherwise gives an index into the class list (likewise ImageClassifier/trainer.py:46-52) |
| Labels.LabelOfListedFile | trainer.py:53-57 | a file `root/<class>/<file>` gets the position of `<class>` among distinct class names, and 0 when its directory is not a class (likewise ImageClassifier/trainer.py:48-52) |
| Training.TrainerSource | trainer.py:75-81 | the example dataset is used exactly when it is named or no path is given; otherwise the given path |
| Training.ClassifierSource | ImageClassifier/trainer.py:70-79 | the example dataset exactly when "fashion_mnist" is named; otherwise `NotADirectoryError` exactly when the dataset directory is missing |
| Training.Padded | trainer.py:95-95 | a zero-padded field has exactly its width, all digits |
| Training.PaddedRoundTrip | trainer.py:95-95 | a zero-padded field reads back as its number when the number fits |
| Training.Timestamp | trainer.py:95-95 | a timestamp has 15 characters with `-` between date and time |
| Training.TimestampRoundTrip | trainer.py:95-95 | a timestamp reads back as the moment it was made from, so distinct moments give distinct timestamps |
| Training.ModelName | trainer.py:96-96 | the model name is the dataset name plus 16 characters |
| Training.ModelNameRoundTrip | trainer.py:95-96 | a model name reads back as its dataset name and moment |
| Training.ModelNameInjective | ImageClassifier/trainer.py:93-94 | two models share a name exactly when they come from the same dataset at the same second |

## Left out

- Pub/Sub `consume` (adapter.py and main.py): waiting on a streaming-pull future with a timeout, `cancel`, and `KeyboardInterrupt` are background-thread and wall-clock behaviour. Only its per-message `broker_callback` is modelled.
- The network clients (`PublisherClient`, `SubscriberClient`, `KafkaProducer`, `KafkaConsumer`, `KafkaAdminClient`) are replaced by the `Service`, `Cluster` and `Registry` state. Connection failures, retries and `**kwargs` passed through to them are not modelled.
- Kafka `delete_topic` (adapter.py and main.py) and main.py's Kafka `create_topic` are `pass`, so they have no member.
- `num_partitions` and `replication_factor` of Kafka `create_topic` are not modelled.
- Which records a Kafka consumer yields is not modelled. Offsets, partitions, groups, auto-commit and `auto_offset_reset` are recorded in `ConsumerConfig` but not interpreted. `consume` takes the yielded messages as a finite sequence, and a consumer that waits forever (no timeout) is not represented.
- `PubsubService.Service.CreateSubscription` reports a taken name (`AlreadyExists`) before a missing topic (`NotFound`). That order of the remote service's checks is an assumption. For a taken name on a missing topic, two rows depend on it: `AdapterPubsub.PubsubBroker.CreateSubscriber` (deletes the old binding, then raises `NotFound`) and `MainPubsub.PubsubBroker.CreateSubscriber` (keeps the old binding without error).
- `AdapterKafka.KafkaBroker.constructor`: nothing makes all brokers of the class share one `Registry`, or keeps the two `KafkaBroker` classes from sharing one. The class attribute is modelled as a registry object the caller passes to each broker.
- `MainKafka.KafkaBroker.constructor`: likewise, sharing the class's one `Registry` is left to the caller.
- Default arguments are not modelled: callers pass them. These are `group="mygroup"` (adapter.py:241), the Kafka `consume` timeouts (`None` at adapter.py:261, `10` at main.py:213) and `callback=print`.
- Whether a raising callback raised `KafkaTimeoutError` is a parameter of main.py's Kafka `consume` (`raisesTimeout`), like the callback itself. A `KafkaTimeoutError` from the consumer's iteration is covered by `yielded`: it ends the loop like the consumer stopping.
- The future returned by Kafka `send_message`, and the `send_success` result handed to `add_callback`, are not modelled.
- Pub/Sub `send_message` returns its future; only whether it raised is modelled.
- `print` logging, the `__del__` close calls, the `subscriber`/`producer` properties and the `subclasses` registry are teardown, side output or plumbing.
- `JsonRoundTrip.LoadsDumps` and `Envelope.DecodeEncodeData` hold for integers of every size. CPython limits int-to-text conversion to 4300 digits by default, and `json.dumps` raises `ValueError` above that; the limit is not modelled.
- JSON values are limited to null, booleans, integers, strings, lists and string-keyed dicts. Floats, `NaN`/`Infinity` and lone surrogates decode to the `Unsupported` error. Python's recursion limit and non-string dict keys are not modelled.
- `Training.ModelName`: years before 1000 are padded to four digits. Whether `strftime` pads them depends on the platform.
- The TensorFlow work is not modelled. This covers:
  - model building, `configure_for_performance`, image reading, decoding and resizing
  - `fit`, `evaluate` and `save`
  - `tfds.load`, `list_files` and the shuffle

  The dataset is a fixed sequence.
- Partition: fractions are exact reals, so float rounding in `train_split * n` and in the sum compared with 1 is not modelled.
- Labels: the class list is taken as given. The lookup relies only on its names being distinct, which holds for the sorted sub-directory names.
- trainer.py imports `EXAMPLE_TF_DATASET` from `ImageClassifier/settings.py`, which defines only `EXAMPLE_DATASET`, so that import would fail. `Training.TrainerSource` takes the example name as a parameter.
- The client, predictor and settings modules, the tests, and both `main()` entry points are not part of this model.
