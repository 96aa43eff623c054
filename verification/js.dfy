/** JavaScript values as they cross the boundary of the modelled server and client code. */
module Js {

  datatype Option<+T> = None | Some(value: T)

  /** A settled JavaScript promise: resolved with a value, or rejected (the source rejects without a reason). */
  datatype Settled<+T> = Resolved(value: T) | Rejected

  /**
   * A JSON value (RFC 8259). Numbers are integers; an object keeps its members in the order
   * they were added.
   */
  datatype Json =
    | JNull
    | JBool(b: bool)
    | JNum(n: int)
    | JStr(s: string)
    | JArr(items: seq<Json>)
    | JObj(members: seq<(string, Json)>)

  /** An argument of a JavaScript function: `undefined`, or a value JSON can represent. */
  datatype JsValue = Undefined | Value(v: Json)

  /** `x == undefined` under JavaScript's loose equality: true for `undefined` and `null` only. */
  predicate IsNullish(x: JsValue) {
    x == Undefined || x == Value(JNull)
  }

  /** JavaScript truthiness: `undefined`, `null`, `false`, `0` and `""` are falsy, everything else is truthy. */
  predicate Truthy(x: JsValue) {
    match x
    case Undefined => false
    case Value(v) =>
      match v
      case JNull => false
      case JBool(b) => b
      case JNum(n) => n != 0
      case JStr(s) => s != ""
      case JArr(_) => true
      case JObj(_) => true
  }

  /** The property names of an object are pairwise distinct. */
  predicate DistinctKeys(members: seq<(string, Json)>) {
    forall i, j :: 0 <= i < j < |members| ==> members[i].0 != members[j].0
  }

  /** `key in obj`: the object has a property of that name. */
  predicate HasKey(members: seq<(string, Json)>, key: string) {
    exists i :: 0 <= i < |members| && members[i].0 == key
  }

  /** Property read `obj[key]`; `None` stands for `undefined`. */
  function Lookup(members: seq<(string, Json)>, key: string): (r: Option<Json>)
    ensures r.Some? <==> HasKey(members, key)
    ensures DistinctKeys(members) ==>
              forall i :: 0 <= i < |members| && members[i].0 == key ==> r == Some(members[i].1)
  {
    if members == [] then None
    else if members[0].0 == key then Some(members[0].1)
    else
      var r := Lookup(members[1..], key);
      assert HasKey(members, key) <==> HasKey(members[1..], key) by {
        if HasKey(members, key) {
          var i :| 0 <= i < |members| && members[i].0 == key;
          assert members[1..][i - 1].0 == key;
        }
        if HasKey(members[1..], key) {
          var i :| 0 <= i < |members[1..]| && members[1..][i].0 == key;
          assert members[i + 1].0 == key;
        }
      }
      r
  }

  /**
   * Property write `obj[key] = v`: an existing property keeps its place and takes the new value,
   * a new one is added after all existing properties.
   */
  function SetProperty(members: seq<(string, Json)>, key: string, v: Json): (r: seq<(string, Json)>)
    ensures Lookup(r, key) == Some(v)
    ensures forall k :: k != key ==> Lookup(r, k) == Lookup(members, k)
    ensures HasKey(members, key) ==> |r| == |members|
    ensures DistinctKeys(members) && HasKey(members, key) ==>
              forall i :: 0 <= i < |members| ==> r[i] == (if members[i].0 == key then (key, v) else members[i])
    ensures !HasKey(members, key) ==> r == members + [(key, v)]
  {
    if members == [] then [(key, v)]
    else if members[0].0 == key then
      var r := [(key, v)] + members[1..];
      assert r[0] == (key, v) && r[1..] == members[1..];
      r
    else
      var tail := SetProperty(members[1..], key, v);
      var r := [members[0]] + tail;
      assert r[0] == members[0] && r[1..] == tail;
      assert HasKey(members, key) ==> HasKey(members[1..], key) by {
        if HasKey(members, key) {
          var i :| 0 <= i < |members| && members[i].0 == key;
          assert members[1..][i - 1].0 == key;
        }
      }
      r
  }

  /** Writing a property keeps the property names of an object distinct. */
  lemma {:induction false} SetPropertyKeepsDistinct(members: seq<(string, Json)>, key: string, v: Json)
    requires DistinctKeys(members)
    ensures DistinctKeys(SetProperty(members, key, v))
  {
    if members != [] && members[0].0 != key {
      SetPropertyKeepsDistinct(members[1..], key, v);
      var tail := SetProperty(members[1..], key, v);
      var r := [members[0]] + tail;
      assert Lookup(members[1..], members[0].0).None?;
      forall i, j | 0 <= i < j < |r| ensures r[i].0 != r[j].0 {
        if i == 0 {
          assert tail[j - 1].0 != members[0].0 by {
            assert Lookup(tail, members[0].0).None?;
          }
        }
      }
    }
  }

  /** A JavaScript object that the modelled code mutates in place. */
  class JsObject {
    var members: seq<(string, Json)>

    /** Every JavaScript object has distinct property names. */
    ghost predicate Valid()
      reads this
    {
      DistinctKeys(members)
    }

    constructor (members: seq<(string, Json)>)
      requires DistinctKeys(members)
      ensures Valid() && this.members == members
    {
      this.members := members;
    }
  }

  /** The user record that the authentication service resolves a token to. */
  datatype User = User(username: string, privileges: seq<string>)
}
