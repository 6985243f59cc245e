/** Key/value pairs attached to a buffer, on their way between the media service and its
    client. */
module Pairs {

  datatype Pair = Pair(key: nat, value: nat)

  const KEY_NO_VALUES := 0
  const NO_KEY := 0xffff_ffff

  /** The value of the first pair with the key. */
  function Lookup(pairs: seq<Pair>, key: nat): (value: nat) {
    if pairs == [] then KEY_NO_VALUES
    else if pairs[0].key == key then pairs[0].value
    else Lookup(pairs[1..], key)
  }

  predicate HasKey(pairs: seq<Pair>, key: nat) {
    exists p | p in pairs :: p.key == key
  }

  /** The first pair with the key has the value. */
  ghost predicate IsFirst(pairs: seq<Pair>, key: nat, value: nat) {
    exists i | 0 <= i < |pairs| :: pairs[i] == Pair(key, value) && forall j | 0 <= j < i :: pairs[j].key != key
  }

  lemma {:induction false} LookupIsFirst(pairs: seq<Pair>, key: nat)
    ensures if HasKey(pairs, key) then IsFirst(pairs, key, Lookup(pairs, key)) else Lookup(pairs, key) == 0
  {
    if pairs == [] {
    } else if pairs[0].key == key {
      assert pairs[0] == Pair(key, Lookup(pairs, key)) && pairs[0] in pairs;
    } else {
      var rest := pairs[1..];
      LookupIsFirst(rest, key);
      assert pairs == [pairs[0]] + rest;
      if HasKey(rest, key) {
        var i :| 0 <= i < |rest| && rest[i] == Pair(key, Lookup(rest, key)) && forall j | 0 <= j < i :: rest[j].key != key;
        assert pairs[i + 1] == rest[i] && forall j | 0 < j < i + 1 :: pairs[j] == rest[j - 1];
      }
    }
  }

  /** The service's side: a counter over a vector that may be longer. */
  class ServiceBuffer {
    var bufferType: nat
    var bufferId: nat
    var size: nat
    var length: nat
    var counter: nat
    var pairs: seq<Pair>

    predicate Valid()
      reads this
    {
      counter <= |pairs|
    }

    function Used(): (r: seq<Pair>)
      requires Valid()
      reads this
    {
      pairs[..counter]
    }

    constructor ()
      ensures Valid() && Used() == []
    {
      bufferType, bufferId, size, length, counter, pairs := 0, 0, 0, 0, 0, [];
    }

    /** `capacity` is 10 for a dequeued frame. */
    method Resize(capacity: nat)
      modifies this`counter, this`pairs
      ensures Valid() && Used() == [] && |pairs| == capacity
    {
      counter := 0;
      pairs := seq(capacity, _ => Pair(0, 0));
    }

    method SetValue(key: nat, value: nat)
      requires Valid() && counter < |pairs|
      modifies this`counter, this`pairs
      ensures Valid() && Used() == old(Used()) + [Pair(key, value)] && |pairs| == old(|pairs|)
    {
      var at := counter;
      counter := counter + 1;
      pairs := pairs[at := Pair(key, value)];
    }

    method GetValue(key: nat) returns (value: nat)
      requires Valid()
      ensures value == Lookup(Used(), key)
      ensures if HasKey(Used(), key) then IsFirst(Used(), key, value) else value == 0
    {
      LookupIsFirst(Used(), key);
      value := KEY_NO_VALUES;
      var i := 0;
      while i < counter
        invariant i <= counter && value == KEY_NO_VALUES
        invariant Lookup(Used(), key) == Lookup(Used()[i..], key)
      {
        if pairs[i].key == key {
          value := pairs[i].value;
          break;
        }
        assert Used()[i..][1..] == Used()[i + 1..];
        i := i + 1;
      }
    }

    /** The service's copy of a null parameter block. */
    method FromNull()
      modifies this`counter, this`pairs
      ensures Valid() && Used() == [] && pairs == [Pair(0xffff_ffff, 1)]
    {
      counter := 0;
      pairs := [Pair(NO_KEY, 1)];
    }
  }

  /** The client's side: a counter and an array, which the client may leave out. */
  class ClientBuffer {
    var bufferType: nat
    var bufferId: nat
    var size: nat
    var length: nat
    var counter: nat
    var pairs: array?<Pair>

    predicate Valid()
      reads this
    {
      counter <= Room()
    }

    function Room(): (n: nat)
      reads this
    {
      if pairs == null then 0 else pairs.Length
    }

    function Used(): (r: seq<Pair>)
      requires Valid()
      reads this, pairs
    {
      if pairs == null then [] else pairs[..counter]
    }

    constructor (brought: array?<Pair>)
      ensures Valid() && Used() == [] && pairs == brought
    {
      bufferType, bufferId, size, length, counter := 0, 0, 0, 0, 0;
      pairs := brought;
    }

    predicate SameFields(hw: ServiceBuffer)
      reads this, hw
    {
      bufferType == hw.bufferType && bufferId == hw.bufferId && size == hw.size && length == hw.length
    }

    method ToService(hw: ServiceBuffer)
      requires Valid()
      modifies hw
      ensures hw.Valid() && hw.Used() == Used() && SameFields(hw)
    {
      hw.bufferType, hw.bufferId, hw.size, hw.length := bufferType, bufferId, size, length;
      hw.Resize(counter);
      hw.counter := counter;
      for i := 0 to counter
        invariant hw.counter == counter == |hw.pairs| && SameFields(hw)
        invariant i > 0 ==> pairs != null && hw.pairs[..i] == pairs[..i]
      {
        hw.pairs := hw.pairs[i := pairs[i]];
      }
    }

    /** A missing array is replaced by one sized by the counter that has just been cleared;
        `mallocOk` is whether allocating nothing yields a pointer. `fits` is whether every pair
        that is written fits the array; the call ends at the first that does not. */
    method FromService(hw: ServiceBuffer, mallocOk: bool) returns (fits: bool)
      requires hw.Valid()
      modifies this, pairs
      ensures fits <==>
        hw.counter == 0 || hw.counter <= old(Room()) || (old(pairs) == null && !mallocOk)
      ensures SameFields(hw)
      ensures fits && (hw.counter == 0 || old(pairs) != null) ==> Valid() && Used() == hw.Used()
      ensures fits && hw.counter > 0 && old(pairs) == null ==> Valid() && Used() == [] != hw.Used()
      ensures old(pairs) != null ==> pairs == old(pairs) && (fits ==> pairs[counter..] == old(pairs[..])[counter..])
    {
      bufferType, bufferId, size, length := hw.bufferType, hw.bufferId, hw.size, hw.length;
      counter := 0;
      fits := true;
      if hw.counter > 0 {
        if pairs == null && mallocOk {
          pairs := new Pair[counter](_ => Pair(0, 0));
        }
        if pairs != null {
          var dst: array<Pair> := pairs;
          counter := hw.counter;
          for i := 0 to hw.counter
            invariant pairs == dst && counter == hw.counter && SameFields(hw) && i <= dst.Length
            invariant old(pairs) == null ==> fresh(dst) && dst.Length == 0
            invariant dst[..i] == hw.pairs[..i]
            invariant old(pairs) != null ==> dst[i..] == old(pairs[..])[i..]
          {
            if i == dst.Length {
              return false;
            }
            ghost var rest := dst[i..];
            dst[i] := hw.pairs[i];
            assert dst[i + 1..] == rest[1..];
            if old(pairs) != null {
              assert old(pairs[..])[i + 1..] == old(pairs[..])[i..][1..];
            }
          }
        }
      }
    }
  }

  /** Client to service and back restores every field, and every pair in use exactly when the
      receiving client has an array with room for them, or there is none. */
  method ThereAndBack(from: ClientBuffer, to: ClientBuffer, mallocOk: bool) returns (fits: bool)
    requires from.Valid() && from != to && (from.pairs == null || from.pairs != to.pairs)
    modifies to, to.pairs
    ensures to.bufferType == from.bufferType && to.bufferId == from.bufferId
    ensures to.size == from.size && to.length == from.length
    ensures fits && to.Valid() && to.Used() == from.Used() <==> from.counter <= old(to.Room())
  {
    var hw := new ServiceBuffer();
    from.ToService(hw);
    fits := to.FromService(hw, mallocOk);
  }

  // ---- Setting and getting ---------------------------------------------------------

  lemma {:induction false} LookupAppend(pairs: seq<Pair>, p: Pair, key: nat)
    ensures Lookup(pairs + [p], key) ==
      if HasKey(pairs, key) then Lookup(pairs, key) else if p.key == key then p.value else KEY_NO_VALUES
  {
    if pairs == [] {
    } else {
      LookupAppend(pairs[1..], p, key);
      assert (pairs + [p])[1..] == pairs[1..] + [p];
      assert HasKey(pairs, key) <==> pairs[0].key == key || HasKey(pairs[1..], key);
    }
  }

  /** A value that is set is the value that is got exactly when the key was not there
      before, or was there with that very value. */
  lemma GetAfterSetIff(pairs: seq<Pair>, key: nat, value: nat)
    ensures Lookup(pairs + [Pair(key, value)], key) == value <==> !HasKey(pairs, key) || Lookup(pairs, key) == value
  {
    LookupAppend(pairs, Pair(key, value), key);
  }

  ghost predicate DistinctKeys(pairs: seq<Pair>) {
    forall i, j | 0 <= i < j < |pairs| :: pairs[i].key != pairs[j].key
  }

  /** Whatever is set under pairwise distinct keys, as `dequeue` does, is what is got. */
  lemma {:induction false} GetEachSet(pairs: seq<Pair>, i: nat)
    requires DistinctKeys(pairs) && i < |pairs|
    ensures Lookup(pairs, pairs[i].key) == pairs[i].value
  {
    if i == 0 {
    } else {
      GetEachSet(pairs[1..], i - 1);
      assert pairs[0].key != pairs[i].key;
    }
  }
}
