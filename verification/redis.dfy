/**
 * The part of a Redis keyspace the launch store uses, with each command given its documented
 * Redis meaning. Only the four keys the store touches are modelled: the string `isActive`, the
 * hash `launch` and the lists `events` and `launchStatuses`.
 */
module Redis {
  import opened Js

  /** The two list keys the store pushes onto. */
  datatype ListKey = Events | LaunchStatuses

  /** Some pair of `pairs` names `field`. */
  predicate Names(pairs: seq<(string, string)>, field: string) {
    exists i :: 0 <= i < |pairs| && pairs[i].0 == field
  }

  /** The pair at `i` is the last one that names its field. */
  predicate LastOfItsField(pairs: seq<(string, string)>, i: int)
    requires 0 <= i < |pairs|
  {
    forall j :: i < j < |pairs| ==> pairs[j].0 != pairs[i].0
  }

  /** The hash after HMSET writes `pairs` into it, in order. */
  function Merge(hash: map<string, string>, pairs: seq<(string, string)>): map<string, string>
  {
    if pairs == [] then hash
    else Merge(hash, pairs[..|pairs| - 1])[pairs[|pairs| - 1].0 := pairs[|pairs| - 1].1]
  }

  /** Merging adds exactly the written fields to the hash. */
  lemma {:induction false} MergeFields(hash: map<string, string>, pairs: seq<(string, string)>)
    ensures forall f :: f in Merge(hash, pairs) <==> f in hash || Names(pairs, f)
  {
    if pairs != [] {
      var init := pairs[..|pairs| - 1];
      MergeFields(hash, init);
      forall f ensures Names(pairs, f) <==> Names(init, f) || f == pairs[|pairs| - 1].0 {
        if Names(init, f) {
          var i :| 0 <= i < |init| && init[i].0 == f;
          assert pairs[i].0 == f;
        }
        if Names(pairs, f) && f != pairs[|pairs| - 1].0 {
          var i :| 0 <= i < |pairs| && pairs[i].0 == f;
          assert init[i].0 == f;
        }
      }
    }
  }

  /** Merging leaves every field that no pair names as it was: HMSET merges, it does not replace. */
  lemma {:induction false} MergeKeeps(hash: map<string, string>, pairs: seq<(string, string)>, f: string)
    requires f in hash && !Names(pairs, f)
    ensures f in Merge(hash, pairs) && Merge(hash, pairs)[f] == hash[f]
  {
    if pairs != [] {
      var init := pairs[..|pairs| - 1];
      assert !Names(init, f) by {
        forall i | 0 <= i < |init| ensures init[i].0 != f {
          assert init[i] == pairs[i];
        }
      }
      assert pairs[|pairs| - 1].0 != f;
      MergeKeeps(hash, init, f);
    }
  }

  /** A written field holds the value of the last pair that names it. */
  lemma {:induction false} MergeLastWins(hash: map<string, string>, pairs: seq<(string, string)>, i: int)
    requires 0 <= i < |pairs| && LastOfItsField(pairs, i)
    ensures pairs[i].0 in Merge(hash, pairs) && Merge(hash, pairs)[pairs[i].0] == pairs[i].1
  {
    var n := |pairs| - 1;
    if i < n {
      var init := pairs[..n];
      assert init[i] == pairs[i];
      assert LastOfItsField(init, i) by {
        forall j | i < j < |init| ensures init[j].0 != init[i].0 {
          assert init[j] == pairs[j];
        }
      }
      MergeLastWins(hash, init, i);
      assert pairs[n].0 != pairs[i].0;
    }
  }

  /** The Redis keyspace, as seen through the store's commands. */
  class Keyspace {
    /** The string key `isActive`; `None` when it was never set. */
    var isActive: Option<string>
    /** The hash key `launch`; a hash with no field does not exist in Redis. */
    var launch: map<string, string>
    var events: seq<string>
    var launchStatuses: seq<string>

    /** An empty keyspace. */
    constructor ()
      ensures isActive == None && launch == map[] && events == [] && launchStatuses == []
    {
      isActive := None;
      launch := map[];
      events := [];
      launchStatuses := [];
    }

    /** GET isActive: the stored string, or nil. */
    method Get() returns (reply: Option<string>)
      ensures reply == isActive
    {
      reply := isActive;
    }

    /** SET isActive value: stores the string, whatever was there before. */
    method Set(value: string)
      modifies this
      ensures isActive == Some(value)
      ensures launch == old(launch) && events == old(events) && launchStatuses == old(launchStatuses)
    {
      isActive := Some(value);
    }

    /** HGET launch field: the value of the field, or nil when the hash has no such field. */
    method Hget(field: string) returns (reply: Option<string>)
      ensures field in launch ==> reply == Some(launch[field])
      ensures field !in launch ==> reply == None
    {
      reply := if field in launch then Some(launch[field]) else None;
    }

    /** HGETALL launch: all fields and values, or nil when the hash does not exist. */
    method Hgetall() returns (reply: Option<map<string, string>>)
      ensures launch == map[] ==> reply == None
      ensures launch != map[] ==> reply == Some(launch)
    {
      reply := if launch == map[] then None else Some(launch);
    }

    /**
     * HMSET launch field value ...: merges the pairs into the hash and replies "OK". Without any
     * pair the command has the wrong number of arguments; Redis refuses it and changes nothing.
     */
    method Hmset(pairs: seq<(string, string)>) returns (reply: Option<string>)
      modifies this
      ensures pairs == [] ==> reply == None && launch == old(launch)
      ensures pairs != [] ==> reply == Some("OK") && launch == Merge(old(launch), pairs)
      ensures isActive == old(isActive) && events == old(events) && launchStatuses == old(launchStatuses)
    {
      if pairs == [] {
        reply := None;
      } else {
        launch := Merge(launch, pairs);
        reply := Some("OK");
      }
    }

    /** RPUSH key value: appends to the list and replies with its new length. */
    method Rpush(key: ListKey, value: string) returns (len: nat)
      modifies this
      ensures key == Events ==> events == old(events) + [value] && launchStatuses == old(launchStatuses)
      ensures key == LaunchStatuses ==> launchStatuses == old(launchStatuses) + [value] && events == old(events)
      ensures len == (if key == Events then |events| else |launchStatuses|)
      ensures isActive == old(isActive) && launch == old(launch)
    {
      if key == Events {
        events := events + [value];
        len := |events|;
      } else {
        launchStatuses := launchStatuses + [value];
        len := |launchStatuses|;
      }
    }
  }
}
