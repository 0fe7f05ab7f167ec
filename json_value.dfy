/**
 * JSON values as Python's `json` module produces and consumes them, and the
 * Python dicts that carry message payloads.
 *
 * A dict is an ordered list of members: Python dicts keep insertion order,
 * `json.dumps` writes members in that order and `json.loads` rebuilds them in
 * document order, so the order is part of what a round trip must keep.
 * Floats are not modelled.
 */
module JsonValue {
  import opened Wrappers

  datatype Value =
    | Null
    | Bool(b: bool)
    | Int(i: int)
    | Str(s: string)
    | Arr(items: seq<Value>)
    | Obj(members: seq<Member>)

  datatype Member = Member(key: string, value: Value)

  /** No key occurs twice, as in every Python dict. */
  predicate UniqueKeys(ms: seq<Member>)
  {
    forall i, j :: 0 <= i < j < |ms| ==> ms[i].key != ms[j].key
  }

  /** `d.keys()`, in order. */
  function Keys(ms: seq<Member>): (ks: seq<string>)
    ensures |ks| == |ms| && forall i :: 0 <= i < |ms| ==> ks[i] == ms[i].key
  {
    if ms == [] then [] else [ms[0].key] + Keys(ms[1..])
  }

  /** `key in d` */
  predicate HasKey(ms: seq<Member>, key: string)
  {
    key in Keys(ms)
  }

  /** Every object inside `v` is a dict: its keys are unique. */
  predicate WellFormed(v: Value)
  {
    match v
    case Arr(items) => forall i :: 0 <= i < |items| ==> WellFormed(items[i])
    case Obj(ms) => UniqueKeys(ms) && forall i :: 0 <= i < |ms| ==> WellFormed(ms[i].value)
    case _ => true
  }

  /** `d.get(key)` */
  function Get(ms: seq<Member>, key: string): (r: Option<Value>)
    ensures r.Some? <==> HasKey(ms, key)
    ensures r.Some? ==> exists i :: 0 <= i < |ms| && ms[i] == Member(key, r.value)
  {
    if ms == [] then None
    else if ms[0].key == key then Some(ms[0].value)
    else
      var r := Get(ms[1..], key);
      assert Keys(ms) == [ms[0].key] + Keys(ms[1..]);
      assert r.Some? ==> exists i :: 0 < i < |ms| && ms[i] == Member(key, r.value) by {
        if r.Some? {
          var i :| 0 <= i < |ms[1..]| && ms[1..][i] == Member(key, r.value);
          assert ms[i + 1] == Member(key, r.value);
        }
      }
      r
  }

  /**
   * `d[key] = value`: replaces the value in place when the key is present,
   * otherwise appends a new member at the end.
   */
  function Upsert(ms: seq<Member>, key: string, value: Value): (r: seq<Member>)
  {
    if ms == [] then [Member(key, value)]
    else if ms[0].key == key then [Member(key, value)] + ms[1..]
    else [ms[0]] + Upsert(ms[1..], key, value)
  }

  /**
   * The dict that Python builds from a list of key/value pairs read in order
   * (what `json.loads` does with an object): a repeated key keeps the position
   * of its first occurrence and the value of its last.
   */
  function FromPairs(ps: seq<Member>): (r: seq<Member>)
  {
    if ps == [] then []
    else
      var last := ps[|ps| - 1];
      Upsert(FromPairs(ps[..|ps| - 1]), last.key, last.value)
  }

  lemma {:induction false} UpsertAbsent(ms: seq<Member>, key: string, value: Value)
    requires !HasKey(ms, key)
    ensures Upsert(ms, key, value) == ms + [Member(key, value)]
  {
    if ms != [] {
      assert Keys(ms) == [ms[0].key] + Keys(ms[1..]);
      UpsertAbsent(ms[1..], key, value);
      assert ms == [ms[0]] + ms[1..];
    }
  }

  /** Reading back the pairs of a dict that has no repeated key gives that dict. */
  lemma {:induction false} FromUniquePairs(ps: seq<Member>)
    requires UniqueKeys(ps)
    ensures FromPairs(ps) == ps
  {
    if ps != [] {
      var init, last := ps[..|ps| - 1], ps[|ps| - 1];
      assert UniqueKeys(init);
      FromUniquePairs(init);
      assert !HasKey(init, last.key) by {
        forall i | 0 <= i < |init| ensures Keys(init)[i] != last.key {
          assert init[i] == ps[i];
        }
      }
      UpsertAbsent(init, last.key, last.value);
      assert init + [last] == ps;
    }
  }

  /** Assignment adds the key at the end when it is new, and keeps the key order otherwise. */
  lemma {:induction false} UpsertKeys(ms: seq<Member>, key: string, value: Value)
    ensures Keys(Upsert(ms, key, value)) == if key in Keys(ms) then Keys(ms) else Keys(ms) + [key]
  {
    if ms != [] && ms[0].key != key {
      UpsertKeys(ms[1..], key, value);
      assert Keys(ms) == [ms[0].key] + Keys(ms[1..]);
      assert Keys(Upsert(ms, key, value)) == [ms[0].key] + Keys(Upsert(ms[1..], key, value));
    } else if ms != [] {
      assert Keys(ms) == [key] + Keys(ms[1..]);
      assert Keys(Upsert(ms, key, value)) == [key] + Keys(ms[1..]);
    }
  }

  /** Upsert keeps a dict a dict. */
  lemma UpsertKeepsUnique(ms: seq<Member>, key: string, value: Value)
    requires UniqueKeys(ms)
    ensures UniqueKeys(Upsert(ms, key, value))
  {
    UpsertKeys(ms, key, value);
    var r := Upsert(ms, key, value);
    forall i, j | 0 <= i < j < |r| ensures r[i].key != r[j].key {
      assert Keys(r)[i] == r[i].key && Keys(r)[j] == r[j].key;
      if j < |ms| {
        assert Keys(ms)[i] == ms[i].key && Keys(ms)[j] == ms[j].key;
      } else {
        assert Keys(ms)[i] == ms[i].key;
      }
    }
  }

  /** Whatever pairs are read, the dict built from them has unique keys. */
  lemma {:induction false} FromPairsUnique(ps: seq<Member>)
    ensures UniqueKeys(FromPairs(ps))
  {
    if ps != [] {
      var init, last := ps[..|ps| - 1], ps[|ps| - 1];
      FromPairsUnique(init);
      UpsertKeepsUnique(FromPairs(init), last.key, last.value);
    }
  }

  /** Assignment of a JSON-representable value keeps every value JSON-representable. */
  lemma {:induction false} UpsertWellFormed(ms: seq<Member>, key: string, value: Value)
    requires forall i :: 0 <= i < |ms| ==> WellFormed(ms[i].value)
    requires WellFormed(value)
    ensures forall i :: 0 <= i < |Upsert(ms, key, value)| ==> WellFormed(Upsert(ms, key, value)[i].value)
  {
    if ms != [] && ms[0].key != key {
      UpsertWellFormed(ms[1..], key, value);
      var r := Upsert(ms, key, value);
      forall i | 0 < i < |r| ensures WellFormed(r[i].value) {
        assert r[i] == Upsert(ms[1..], key, value)[i - 1];
      }
    } else if ms != [] {
      var r := Upsert(ms, key, value);
      forall i | 0 < i < |r| ensures WellFormed(r[i].value) {
        assert r[i] == ms[i];
      }
    }
  }

  /** The dict built from pairs of JSON-representable values is JSON-representable. */
  lemma {:induction false} FromPairsWellFormed(ps: seq<Member>)
    requires forall i :: 0 <= i < |ps| ==> WellFormed(ps[i].value)
    ensures WellFormed(Obj(FromPairs(ps)))
  {
    FromPairsUnique(ps);
    if ps != [] {
      var init, last := ps[..|ps| - 1], ps[|ps| - 1];
      FromPairsWellFormed(init);
      UpsertWellFormed(FromPairs(init), last.key, last.value);
    }
  }
}
