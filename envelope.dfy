/**
 * The payload helpers every broker shares: `MessageBroker.add_id`,
 * `encode_data` and `decode_data`. A message travels as the UTF-8 bytes of
 * its `json.dumps` text; a dict payload is tagged with an "id" key.
 */
module Envelope {
  import opened Wrappers
  import opened JsonValue
  import JsonWrite
  import JsonRead
  import JsonRoundTrip
  import Utf8

  type Bytes = seq<Utf8.Byte>

  /** Why `decode_data` raised: UnicodeDecodeError, or what `json.loads` rejected. */
  datatype CodecError = BadUtf8 | BadJson(reason: JsonRead.DecodeError)

  /**
   * `json.dumps(data).encode("utf-8")`. With `ensure_ascii` each byte of an
   * encoded message is one printable ASCII character of its JSON text.
   */
  function EncodeData(v: Value): (bs: Bytes)
    ensures |bs| == |JsonWrite.Dumps(v)|
    ensures forall i :: 0 <= i < |bs| ==> bs[i] as int == JsonWrite.Dumps(v)[i] as int && 0x20 <= bs[i] as int <= 0x7E
  {
    JsonWrite.DumpsIsAscii(v);
    AsciiEncode(JsonWrite.Dumps(v));
    Utf8.Encode(JsonWrite.Dumps(v))
  }

  /**
   * `json.loads(data.decode("utf-8"))`: every dict in what it returns has
   * each key once.
   */
  function DecodeData(bs: Bytes): (r: Result<Value, CodecError>)
    ensures r.Ok? ==> WellFormed(r.value)
  {
    match Utf8.Decode(bs)
    case None => Err(BadUtf8)
    case Some(s) =>
      match JsonRead.Loads(s)
      case Err(e) => Err(BadJson(e))
      case Ok(v) => Ok(v)
  }

  /** Encoding then decoding gives back every value whose objects are dicts. */
  lemma DecodeEncodeData(v: Value)
    requires WellFormed(v)
    ensures DecodeData(EncodeData(v)) == Ok(v)
  {
    Utf8.DecodeEncode(JsonWrite.Dumps(v));
    JsonRoundTrip.LoadsDumps(v);
  }

  lemma {:induction false} AsciiEncode(s: string)
    requires JsonWrite.IsPrintableAscii(s)
    ensures |Utf8.Encode(s)| == |s| && forall i :: 0 <= i < |s| ==> Utf8.Encode(s)[i] as int == s[i] as int
  {
    if s != [] {
      AsciiEncode(s[1..]);
      assert Utf8.Encode(s) == Utf8.EncodeChar(s[0]) + Utf8.Encode(s[1..]);
      assert Utf8.EncodeChar(s[0]) == [s[0] as int as Utf8.Byte];
    }
  }

  /** The payload after `add_id`: unchanged when it has an "id", else extended by one. */
  function WithId(ms: seq<Member>, newId: string): (r: seq<Member>)
    ensures ms <= r && |r| <= |ms| + 1
  {
    if HasKey(ms, "id") then ms else ms + [Member("id", Str(newId))]
  }

  lemma {:induction false} KeysAppend(ms: seq<Member>, m: Member)
    ensures Keys(ms + [m]) == Keys(ms) + [m.key]
  {
    if ms != [] {
      assert (ms + [m])[1..] == ms[1..] + [m];
      KeysAppend(ms[1..], m);
    }
  }

  lemma {:induction false} GetAppend(ms: seq<Member>, m: Member, key: string)
    ensures Get(ms + [m], key) == if HasKey(ms, key) then Get(ms, key) else if key == m.key then Some(m.value) else None
  {
    if ms == [] {
      assert [m][1..] == [];
    } else {
      assert (ms + [m])[1..] == ms[1..] + [m];
      assert Keys(ms) == [ms[0].key] + Keys(ms[1..]);
      GetAppend(ms[1..], m, key);
    }
  }

  /**
   * On a dict without "id", `add_id` adds exactly the key "id", last, bound
   * to the new id string; every other key keeps its value.
   */
  lemma WithIdAbsent(ms: seq<Member>, newId: string)
    requires !HasKey(ms, "id")
    ensures Keys(WithId(ms, newId)) == Keys(ms) + ["id"]
    ensures Get(WithId(ms, newId), "id") == Some(Str(newId))
    ensures forall k :: k != "id" ==> Get(WithId(ms, newId), k) == Get(ms, k)
  {
    var m := Member("id", Str(newId));
    KeysAppend(ms, m);
    GetAppend(ms, m, "id");
    forall k | k != "id" ensures Get(WithId(ms, newId), k) == Get(ms, k) {
      GetAppend(ms, m, k);
    }
  }

  /** On a dict that has an "id", `add_id` changes nothing. */
  lemma WithIdPresent(ms: seq<Member>, newId: string)
    requires HasKey(ms, "id")
    ensures WithId(ms, newId) == ms
  {
  }

  /** After `add_id` the dict has an "id", so a second call changes nothing, whatever new id it draws. */
  lemma WithIdIdempotent(ms: seq<Member>, newId: string, other: string)
    ensures HasKey(WithId(ms, newId), "id")
    ensures WithId(WithId(ms, newId), other) == WithId(ms, newId)
  {
    if !HasKey(ms, "id") {
      KeysAppend(ms, Member("id", Str(newId)));
    }
  }

  /** `add_id` keeps the dict a dict: no key twice. */
  lemma WithIdUnique(ms: seq<Member>, newId: string)
    requires UniqueKeys(ms)
    ensures UniqueKeys(WithId(ms, newId))
  {
    if !HasKey(ms, "id") {
      var r := WithId(ms, newId);
      forall i, j | 0 <= i < j < |r| ensures r[i].key != r[j].key {
        if j == |ms| {
          assert Keys(ms)[i] == ms[i].key;
        }
      }
    }
  }

  /** `add_id` keeps a JSON-representable dict JSON-representable. */
  lemma WithIdWellFormed(ms: seq<Member>, newId: string)
    requires WellFormed(Obj(ms))
    ensures WellFormed(Obj(WithId(ms, newId)))
  {
    var r := WithId(ms, newId);
    WithIdUnique(ms, newId);
    forall i | 0 <= i < |r| ensures WellFormed(r[i].value) {
      if i < |ms| { assert r[i] == ms[i]; }
    }
  }

  /**
   * What a consumer decodes from a message sent with `add_id` is the sent
   * dict, and its "id" is the one the dict already had or else the new one.
   */
  lemma ConsumerSeesId(ms: seq<Member>, newId: string)
    requires WellFormed(Obj(ms))
    ensures DecodeData(EncodeData(Obj(WithId(ms, newId)))) == Ok(Obj(WithId(ms, newId)))
    ensures Get(WithId(ms, newId), "id") == if HasKey(ms, "id") then Get(ms, "id") else Some(Str(newId))
  {
    if !HasKey(ms, "id") {
      WithIdAbsent(ms, newId);
    }
    WithIdWellFormed(ms, newId);
    DecodeEncodeData(Obj(WithId(ms, newId)));
  }

  /** A Python dict of JSON-representable values, shared by reference between the caller and the broker. */
  class Dict {
    var members: seq<Member>

    predicate Valid()
      reads this
    {
      WellFormed(Obj(members))
    }

    constructor (members: seq<Member>)
      requires WellFormed(Obj(members))
      ensures Valid() && this.members == members
    {
      this.members := members;
    }
  }

  /**
   * `MessageBroker.add_id`: stores a new "id" in the caller's dict when it
   * has none, and returns that same dict. `newId` stands for `str(uuid.uuid4())`.
   */
  method AddId(message: Dict, newId: string) returns (r: Dict)
    requires message.Valid()
    modifies message
    ensures r == message && message.Valid()
    ensures message.members == WithId(old(message.members), newId)
  {
    if !HasKey(message.members, "id") {
      WithIdWellFormed(message.members, newId);
      message.members := message.members + [Member("id", Str(newId))];
    }
    r := message;
  }
}
