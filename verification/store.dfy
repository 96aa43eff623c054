/**
 * The launch store: the application-level storage operations of the server, each a small state
 * transition of the Redis keyspace. Values are kept in Redis as JSON texts written by
 * `JsonCodec.Encode` and read back with `JsonCodec.Decode`.
 */
module Store {
  import opened Js
  import opened JsonCodec
  import opened Redis

  /** What `log` resolves with: the id of the logged event and the time it was logged at. */
  datatype Receipt = Receipt(id: nat, timestamp: string)

  /**
   * What `getLaunch` resolves with: the whole launch hash with every field decoded (nil when the
   * hash does not exist), or one decoded field.
   */
  datatype LaunchReply = AllFields(fields: Option<map<string, Json>>) | OneField(value: Json)

  /**
   * The record `log` pushes onto `events`. JSON.stringify leaves the `body` member out when the
   * logged data is `undefined`.
   */
  function EventRecord(eventName: string, data: JsValue, user: Option<User>, timestamp: string): (r: Json)
    ensures r.JObj? && DistinctKeys(r.members)
    ensures Lookup(r.members, "event") == Some(JStr(eventName))
    ensures Lookup(r.members, "user") == Some(if user.Some? then JStr(user.value.username) else JNull)
    ensures Lookup(r.members, "timestamp") == Some(JStr(timestamp))
    ensures Lookup(r.members, "body") == (if data.Value? then Some(data.v) else None)
  {
    var author := if user.Some? then JStr(user.value.username) else JNull;
    var members := [("event", JStr(eventName)), ("user", author), ("timestamp", JStr(timestamp))];
    assert DistinctKeys(members) && members[2].0 == "timestamp";
    if data.Value? then
      var withBody := members + [("body", data.v)];
      assert withBody[..3] == members && withBody[3].0 == "body" && DistinctKeys(withBody);
      assert Lookup(withBody, "timestamp") == Some(withBody[2].1);
      JObj(withBody)
    else
      assert !HasKey(members, "body");
      JObj(members)
  }

  /** The string the Redis client sends for a boolean argument. */
  function BoolText(b: bool): string
  {
    if b then "true" else "false"
  }

  /** An object whose every value has been replaced by its JSON text, as `setLaunch` does first. */
  function Stringified(members: seq<(string, Json)>): seq<(string, Json)>
  {
    seq(|members|, i requires 0 <= i < |members| => (members[i].0, JStr(Encode(members[i].1))))
  }

  /** The field/value pairs HMSET receives for an object whose values are all strings. */
  function HashArgs(members: seq<(string, Json)>): seq<(string, string)>
    requires forall i :: 0 <= i < |members| ==> members[i].1.JStr?
  {
    seq(|members|, i requires 0 <= i < |members| => (members[i].0, members[i].1.s))
  }

  /** What `setLaunch` writes into the launch hash for an object: each field with its value's JSON text. */
  function EncodedFields(members: seq<(string, Json)>): (pairs: seq<(string, string)>)
    ensures |pairs| == |members|
    ensures forall i :: 0 <= i < |members| ==> pairs[i] == (members[i].0, Encode(members[i].1))
  {
    seq(|members|, i requires 0 <= i < |members| => (members[i].0, Encode(members[i].1)))
  }

  /** Every field of a hash holds a JSON text. */
  ghost predicate AllDecode(hash: map<string, string>) {
    forall f :: f in hash ==> Decode(hash[f]).Some?
  }

  /** The launch hash with every field decoded, as `getLaunch()` resolves it. */
  function DecodeAll(hash: map<string, string>): (r: map<string, Json>)
    requires AllDecode(hash)
    ensures r.Keys == hash.Keys
    ensures forall f :: f in hash ==> Decode(hash[f]) == Some(r[f])
  {
    map f | f in hash :: Decode(hash[f]).value
  }

  /** The store keeps JSON texts only: every launch field, logged event and launch status decodes. */
  ghost predicate Stored(ks: Keyspace)
    reads ks
  {
    AllDecode(ks.launch) &&
    (forall i :: 0 <= i < |ks.events| ==> Decode(ks.events[i]).Some?) &&
    (forall i :: 0 <= i < |ks.launchStatuses| ==> Decode(ks.launchStatuses[i]).Some?)
  }

  /** `JSON.parse("null")`: what a missing hash field reads back as, since JSON.parse(null) parses "null". */
  lemma DecodeNull()
    ensures Decode("null") == Some(JNull)
  {
    DecodeEncode(JNull);
  }

  /** Writing an object into a hash of JSON texts keeps it a hash of JSON texts. */
  lemma MergeKeepsDecoding(hash: map<string, string>, members: seq<(string, Json)>)
    requires AllDecode(hash) && DistinctKeys(members)
    ensures AllDecode(Merge(hash, EncodedFields(members)))
  {
    var pairs := EncodedFields(members);
    MergeFields(hash, pairs);
    forall f | f in Merge(hash, pairs) ensures Decode(Merge(hash, pairs)[f]).Some? {
      if Names(pairs, f) {
        var i :| 0 <= i < |pairs| && pairs[i].0 == f;
        ReadAfterWrite(hash, members, i);
      } else {
        MergeKeeps(hash, pairs, f);
      }
    }
  }

  /** After `setLaunch(obj)`, each field of `obj` reads back from the launch hash as its value. */
  lemma ReadAfterWrite(hash: map<string, string>, members: seq<(string, Json)>, i: int)
    requires DistinctKeys(members) && 0 <= i < |members|
    ensures members[i].0 in Merge(hash, EncodedFields(members))
    ensures Decode(Merge(hash, EncodedFields(members))[members[i].0]) == Some(members[i].1)
  {
    var pairs := EncodedFields(members);
    assert LastOfItsField(pairs, i);
    MergeLastWins(hash, pairs, i);
    DecodeEncode(members[i].1);
  }

  /** `setLaunch(obj)` leaves every launch field that `obj` does not name as it was: a merge, not a replace. */
  lemma WriteKeepsOtherFields(hash: map<string, string>, members: seq<(string, Json)>, f: string)
    requires f in hash && !HasKey(members, f)
    ensures f in Merge(hash, EncodedFields(members)) && Merge(hash, EncodedFields(members))[f] == hash[f]
  {
    var pairs := EncodedFields(members);
    assert !Names(pairs, f) by {
      forall i | 0 <= i < |pairs| ensures pairs[i].0 != f {
        assert pairs[i].0 == members[i].0;
      }
    }
    MergeKeeps(hash, pairs, f);
  }

  /** The logged record reads back from `events` with the author and timestamp it was logged with. */
  lemma LoggedRecordReadsBack(eventName: string, data: JsValue, user: Option<User>, timestamp: string)
    ensures Decode(Encode(EventRecord(eventName, data, user, timestamp))).Some?
    ensures var r := Decode(Encode(EventRecord(eventName, data, user, timestamp))).value;
            r.JObj? &&
            Lookup(r.members, "user") == Some(if user.Some? then JStr(user.value.username) else JNull) &&
            Lookup(r.members, "timestamp") == Some(JStr(timestamp))
  {
    DecodeEncode(EventRecord(eventName, data, user, timestamp));
  }

  /** The `forEach` of `getLaunch()` that replaces each field of the HGETALL reply by its decoded value. */
  method DecodeFields(hash: map<string, string>) returns (decoded: map<string, Json>)
    requires AllDecode(hash)
    ensures decoded == DecodeAll(hash)
  {
    decoded := map[];
    var pending := hash.Keys;
    while pending != {}
      invariant pending <= hash.Keys
      invariant decoded.Keys == hash.Keys - pending
      invariant forall f :: f in decoded ==> Decode(hash[f]) == Some(decoded[f])
      decreases |pending|
    {
      var f :| f in pending;
      decoded := decoded[f := Decode(hash[f]).value];
      pending := pending - {f};
    }
  }

  /** The storage service of the server, wrapping a Redis client. */
  class StoreService {
    const client: Keyspace

    ghost predicate Valid()
      reads client
    {
      Stored(client)
    }

    /** A service over a connected client; connecting is not part of this model. */
    constructor (client: Keyspace)
      requires Stored(client)
      ensures this.client == client && Valid()
    {
      this.client := client;
    }

    /**
     * `log(eventName, data, user)`: pushes the JSON text of the event record onto `events` and
     * resolves with the RPUSH reply (the new length of the list) as id and the record's timestamp.
     * The clock is a parameter.
     */
    method Log(eventName: string, data: JsValue, user: Option<User>, timestamp: string) returns (receipt: Receipt)
      requires Valid()
      modifies client
      ensures Valid()
      ensures client.events == old(client.events) + [Encode(EventRecord(eventName, data, user, timestamp))]
      ensures receipt == Receipt(|client.events|, timestamp)
      ensures client.isActive == old(client.isActive) && client.launch == old(client.launch)
      ensures client.launchStatuses == old(client.launchStatuses)
    {
      var record := EventRecord(eventName, data, user, timestamp);
      DecodeEncode(record);
      var id := client.Rpush(Events, Encode(record));
      receipt := Receipt(id, timestamp);
    }

    /**
     * `isAppActive(setter)`: with no argument (or null) reads the flag, which is set only when the
     * stored string is "true"; with a boolean stores it and resolves with nothing; with anything
     * else rejects without touching the store.
     */
    method IsAppActive(setter: JsValue) returns (r: Settled<Option<bool>>)
      requires Valid()
      modifies client
      ensures Valid()
      ensures IsNullish(setter) ==>
                r == Resolved(Some(client.isActive == Some("true"))) && client.isActive == old(client.isActive)
      ensures setter.Value? && setter.v.JBool? ==>
                r == Resolved(None) && client.isActive == Some(BoolText(setter.v.b))
      ensures !IsNullish(setter) && !(setter.Value? && setter.v.JBool?) ==>
                r == Rejected && client.isActive == old(client.isActive)
      ensures client.launch == old(client.launch) && client.events == old(client.events)
      ensures client.launchStatuses == old(client.launchStatuses)
    {
      if IsNullish(setter) {
        var reply := client.Get();
        r := Resolved(Some(reply == Some("true")));
      } else if setter.Value? && setter.v.JBool? {
        client.Set(BoolText(setter.v.b));
        r := Resolved(None);
      } else {
        r := Rejected;
      }
    }

    /**
     * `getLaunch(property)`: with no argument (or null) resolves with the whole launch hash, every
     * field decoded, or nil when the hash does not exist; with a string resolves with that field
     * decoded, a missing field reading as null; with anything else rejects without reading.
     */
    method GetLaunch(property: JsValue) returns (r: Settled<LaunchReply>)
      requires Valid()
      ensures IsNullish(property) ==>
                r == Resolved(AllFields(if client.launch == map[] then None else Some(DecodeAll(client.launch))))
      ensures property.Value? && property.v.JStr? ==>
                r == Resolved(OneField(if property.v.s in client.launch
                                       then Decode(client.launch[property.v.s]).value else JNull))
      ensures !IsNullish(property) && !(property.Value? && property.v.JStr?) ==> r == Rejected
    {
      if IsNullish(property) {
        var reply := client.Hgetall();
        if reply == None {
          r := Resolved(AllFields(None));
        } else {
          var decoded := DecodeFields(reply.value);
          r := Resolved(AllFields(Some(decoded)));
        }
      } else if property.Value? && property.v.JStr? {
        var reply := client.Hget(property.v.s);
        var text := if reply.Some? then reply.value else "null";
        DecodeNull();
        r := Resolved(OneField(Decode(text).value));
      } else {
        r := Rejected;
      }
    }

    /**
     * `setLaunch(dataObj)`: replaces each value of the object by its JSON text, in place, then
     * writes the fields into the launch hash with HMSET and resolves with its reply. For a null
     * object, listing its keys throws before anything is written, and the promise rejects.
     */
    method SetLaunch(dataObj: JsObject?) returns (r: Settled<Option<string>>)
      requires Valid()
      requires dataObj != null ==> dataObj.Valid()
      modifies client, dataObj
      ensures Valid()
      ensures dataObj == null ==> r == Rejected && client.launch == old(client.launch)
      ensures dataObj != null ==>
                dataObj.Valid() && dataObj.members == Stringified(old(dataObj.members))
      ensures dataObj != null && old(dataObj.members) == [] ==>
                r == Resolved(None) && client.launch == old(client.launch)
      ensures dataObj != null && old(dataObj.members) != [] ==>
                r == Resolved(Some("OK")) &&
                client.launch == Merge(old(client.launch), EncodedFields(old(dataObj.members)))
      ensures client.isActive == old(client.isActive) && client.events == old(client.events)
      ensures client.launchStatuses == old(client.launchStatuses)
    {
      if dataObj == null {
        return Rejected;
      }
      ghost var original := dataObj.members;
      var i := 0;
      while i < |dataObj.members|
        invariant |dataObj.members| == |original|
        invariant 0 <= i <= |original|
        invariant forall j :: 0 <= j < i ==> dataObj.members[j] == (original[j].0, JStr(Encode(original[j].1)))
        invariant forall j :: i <= j < |original| ==> dataObj.members[j] == original[j]
        invariant unchanged(client)
      {
        var (key, value) := dataObj.members[i];
        dataObj.members := dataObj.members[i := (key, JStr(Encode(value)))];
        i := i + 1;
      }
      assert dataObj.members == Stringified(original);
      if dataObj != null {
        assert HashArgs(dataObj.members) == EncodedFields(original);
        MergeKeepsDecoding(client.launch, original);
        var reply := client.Hmset(HashArgs(dataObj.members));
        r := Resolved(reply);
      } else {
        // unreachable: listing the keys of a null object has already thrown
        assert false;
      }
    }

    /**
     * `addLaunchStatus(data)` up to its RPUSH: pushes the JSON text of `data` onto
     * `launchStatuses`, then sets `data.statusId` to the RPUSH reply, the new length of the list.
     */
    method AddLaunchStatus(data: JsObject)
      requires Valid() && data.Valid()
      modifies client, data
      ensures Valid() && data.Valid()
      ensures client.launchStatuses == old(client.launchStatuses) + [Encode(JObj(old(data.members)))]
      ensures data.members == SetProperty(old(data.members), "statusId", JNum(|client.launchStatuses|))
      ensures client.isActive == old(client.isActive) && client.launch == old(client.launch)
      ensures client.events == old(client.events)
    {
      DecodeEncode(JObj(data.members));
      var index := client.Rpush(LaunchStatuses, Encode(JObj(data.members)));
      SetPropertyKeepsDistinct(data.members, "statusId", JNum(index));
      data.members := SetProperty(data.members, "statusId", JNum(index));
    }
  }

  /** A boolean stored with `isAppActive(b)` is what the getter then reports. */
  method SetThenGetActive(store: StoreService, b: bool) returns (r: Settled<Option<bool>>)
    requires store.Valid()
    modifies store.client
    ensures store.Valid()
    ensures r == Resolved(Some(b))
  {
    var _ := store.IsAppActive(Value(JBool(b)));
    r := store.IsAppActive(Undefined);
  }

  /** A value written with `setLaunch({key: value})` is what `getLaunch(key)` then resolves with. */
  method SetThenGetLaunch(store: StoreService, key: string, value: Json) returns (r: Settled<LaunchReply>)
    requires store.Valid()
    modifies store.client
    ensures store.Valid()
    ensures r == Resolved(OneField(value))
  {
    var obj := new JsObject([(key, value)]);
    var _ := store.SetLaunch(obj);
    ReadAfterWrite(old(store.client.launch), [(key, value)], 0);
    r := store.GetLaunch(Value(JStr(key)));
  }

  /** The first launch status pushed onto an empty list is given statusId 1, not 0. */
  method FirstStatusId(store: StoreService, data: JsObject)
    requires store.Valid() && data.Valid() && store.client.launchStatuses == []
    modifies store.client, data
    ensures Lookup(data.members, "statusId") == Some(JNum(1))
  {
    store.AddLaunchStatus(data);
  }
}
