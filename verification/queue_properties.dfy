/**
  Turning on profiling in a list of OpenCL queue properties: keys and values in turn,
  ended by a zero key (OpenCL API specification, section 5.1).
 */
module QueueProperties {

  type Property = bv64       // cl_queue_properties

  const CL_QUEUE_PROPERTIES: Property := 0x1093
  const CL_QUEUE_PROFILING_ENABLE: Property := 2

  datatype Pair = Pair(key: Property, value: Property)

  /** A zero key ends the list before the memory does. */
  predicate IsList(s: seq<Property>) {
    |s| > 0 && (s[0] == 0 || (|s| > 2 && IsList(s[2..])))
  }

  function Pairs(s: seq<Property>): (pairs: seq<Pair>)
    requires IsList(s)
    ensures 2 * |pairs| < |s|
    ensures forall i :: 0 <= i < |pairs| ==> pairs[i].key != 0
  {
    if s[0] == 0 then [] else [Pair(s[0], s[1])] + Pairs(s[2..])
  }

  /** The position of the last pair with the key, or -1. */
  function LastIndex(pairs: seq<Pair>, key: Property): (at: int)
    ensures -1 <= at < |pairs|
    ensures at >= 0 ==> pairs[at].key == key
    ensures forall i :: at < i < |pairs| ==> pairs[i].key != key
  {
    if pairs == [] then -1
    else if pairs[|pairs| - 1].key == key then |pairs| - 1
    else LastIndex(pairs[..|pairs| - 1], key)
  }

  /** The pairs with profiling: in the last pair of queue properties, or in a new one. */
  function WithProfiling(pairs: seq<Pair>): seq<Pair> {
    var at := LastIndex(pairs, CL_QUEUE_PROPERTIES);
    if at >= 0 then pairs[at := Pair(CL_QUEUE_PROPERTIES, pairs[at].value | CL_QUEUE_PROFILING_ENABLE)]
    else pairs + [Pair(CL_QUEUE_PROPERTIES, CL_QUEUE_PROFILING_ENABLE)]
  }

  /** The list that holds just these pairs. */
  function Listed(pairs: seq<Pair>): seq<Property> {
    if pairs == [] then [0] else [pairs[0].key, pairs[0].value] + Listed(pairs[1..])
  }

  /** Where the pairs are in a list. */
  lemma {:induction false} PairsAt(s: seq<Property>)
    requires IsList(s)
    ensures s[2 * |Pairs(s)|] == 0
    ensures forall i :: 0 <= i < |Pairs(s)| ==> Pairs(s)[i] == Pair(s[2 * i], s[2 * i + 1])
  {
    if s[0] != 0 {
      PairsAt(s[2..]);
      forall i | 0 < i < |Pairs(s)| ensures Pairs(s)[i] == Pair(s[2 * i], s[2 * i + 1]) {
        assert Pairs(s)[i] == Pairs(s[2..])[i - 1];
        assert s[2..][2 * (i - 1)] == s[2 * i] && s[2..][2 * (i - 1) + 1] == s[2 * i + 1];
      }
      assert s[2..][2 * |Pairs(s[2..])|] == s[2 * |Pairs(s)|];
    }
  }

  /** A list is well formed, exactly sized and holds the pairs if they are where they belong. */
  lemma {:induction false} ListedAt(pairs: seq<Pair>, s: seq<Property>)
    requires |s| == 2 * |pairs| + 1 && s[2 * |pairs|] == 0
    requires forall i :: 0 <= i < |pairs| ==>
        pairs[i].key != 0 && s[2 * i] == pairs[i].key && s[2 * i + 1] == pairs[i].value
    ensures IsList(s) && Pairs(s) == pairs && s == Listed(pairs)
  {
    if pairs != [] {
      var rest := s[2..];
      forall i | 0 <= i < |pairs[1..]|
        ensures pairs[1..][i].key != 0 && rest[2 * i] == pairs[1..][i].key && rest[2 * i + 1] == pairs[1..][i].value
      {
        assert pairs[1..][i] == pairs[i + 1] && rest[2 * i] == s[2 * (i + 1)] && rest[2 * i + 1] == s[2 * (i + 1) + 1];
      }
      ListedAt(pairs[1..], rest);
      assert s == [s[0], s[1]] + rest;
    }
  }

  /** After `n` keys, the scan has found the last position of CL_QUEUE_PROPERTIES, or -1. */
  ghost predicate Scanned(s: seq<Property>, n: nat, count: nat, id: int)
    requires IsList(s)
  {
    && n <= |Pairs(s)| && count == 2 * n
    && id == PositionOf(LastIndex(Pairs(s)[..n], CL_QUEUE_PROPERTIES))
  }

  /** The position of a pair's key in the list. */
  function PositionOf(at: int): int {
    if at < 0 then -1 else 2 * at
  }

  lemma ScanOne(s: seq<Property>, n: nat, count: nat, id: int)
    requires IsList(s) && Scanned(s, n, count, id)
    ensures count < |s|
    ensures s[count] == 0 <==> n == |Pairs(s)|
    ensures s[count] != 0 ==> Scanned(s, n + 1, count + 2, if s[count] == CL_QUEUE_PROPERTIES then count else id)
  {
    PairsAt(s);
    if n < |Pairs(s)| {
      LastIndexAppend(Pairs(s)[..n], Pairs(s)[n], CL_QUEUE_PROPERTIES);
      assert Pairs(s)[..n + 1] == Pairs(s)[..n] + [Pairs(s)[n]];
    }
  }

  lemma LastIndexAppend(pairs: seq<Pair>, p: Pair, key: Property)
    ensures LastIndex(pairs + [p], key) == if p.key == key then |pairs| else LastIndex(pairs, key)
  {
    assert (pairs + [p])[..|pairs|] == pairs;
  }

  /** A copy with one value replaced is the list of the pairs with that value replaced. */
  lemma ValueReplaced(s: seq<Property>, at: nat, count: nat, id: nat, value: Property, result: seq<Property>)
    requires IsList(s) && at < |Pairs(s)|
    requires count == 2 * |Pairs(s)| && id == 2 * at
    requires |result| == count + 1 && result[count] == 0
    requires forall k :: 0 <= k < count && k != id + 1 ==> result[k] == s[k]
    requires result[id + 1] == value
    ensures var pairs := Pairs(s)[at := Pair(Pairs(s)[at].key, value)];
            IsList(result) && Pairs(result) == pairs && result == Listed(pairs)
  {
    PairsAt(s);
    var pairsBefore := Pairs(s);
    var pairs := pairsBefore[at := Pair(pairsBefore[at].key, value)];
    forall i | 0 <= i < |pairs|
      ensures pairs[i].key != 0 && result[2 * i] == pairs[i].key && result[2 * i + 1] == pairs[i].value
    {
      assert pairsBefore[i] == Pair(s[2 * i], s[2 * i + 1]);
      if i == at {
        assert result[2 * i] == s[2 * i];
      } else {
        assert result[2 * i] == s[2 * i] && result[2 * i + 1] == s[2 * i + 1];
      }
    }
    ListedAt(pairs, result);
  }

  /** The copy with the bit set is the list of the rewritten pairs. */
  lemma BitIsSet(s: seq<Property>, at: nat, count: nat, id: nat, result: seq<Property>)
    requires IsList(s) && LastIndex(Pairs(s), CL_QUEUE_PROPERTIES) == at
    requires count == 2 * |Pairs(s)| && id == 2 * at
    requires |result| == count + 1 && result[count] == 0
    requires forall k :: 0 <= k < count && k != id + 1 ==> result[k] == s[k]
    requires result[id + 1] == s[id + 1] | CL_QUEUE_PROFILING_ENABLE
    ensures IsList(result) && Pairs(result) == WithProfiling(Pairs(s)) && result == Listed(WithProfiling(Pairs(s)))
  {
    PairAt(s, at, id);
    ValueReplaced(s, at, count, id, result[id + 1], result);
  }

  lemma PairAt(s: seq<Property>, at: nat, id: nat)
    requires IsList(s) && at < |Pairs(s)| && id == 2 * at
    ensures id + 1 < |s| && Pairs(s)[at] == Pair(s[id], s[id + 1])
  {
    PairsAt(s);
  }

  /** The copy with a new pair is the list of the rewritten pairs. */
  lemma PairIsAdded(s: seq<Property>, result: seq<Property>)
    requires IsList(s) && LastIndex(Pairs(s), CL_QUEUE_PROPERTIES) == -1
    requires result == s[..2 * |Pairs(s)|] + [CL_QUEUE_PROPERTIES, CL_QUEUE_PROFILING_ENABLE, 0]
    ensures IsList(result) && Pairs(result) == WithProfiling(Pairs(s)) && result == Listed(WithProfiling(Pairs(s)))
  {
    PairsAt(s);
    ListedAt(WithProfiling(Pairs(s)), result);
  }

  /** The scan: where the list ends, and where the key was last seen. */
  method Scan(props: array<Property>) returns (count: nat, id: int)
    requires IsList(props[..])
    ensures count == 2 * |Pairs(props[..])|
    ensures id == PositionOf(LastIndex(Pairs(props[..]), CL_QUEUE_PROPERTIES))
  {
    ghost var s, n := props[..], 0;
    id, count := -1, 0;
    ScanOne(s, n, count, id);
    while props[count] != 0
      invariant Scanned(s, n, count, id) && count < props.Length
      decreases props.Length - count
    {
      ScanOne(s, n, count, id);
      if props[count] == CL_QUEUE_PROPERTIES {
        id := count;
      }
      count, n := count + 2, n + 1;
      ScanOne(s, n, count, id);
    }
    ScanOne(s, n, count, id);
    assert Pairs(s)[..n] == Pairs(s);
  }

  /** A new array of the given size that starts with the first `count` elements. */
  method CopyFirst(from: array<Property>, count: nat, size: nat) returns (to: array<Property>)
    requires count <= from.Length && count <= size
    ensures fresh(to) && to.Length == size
    ensures forall k :: 0 <= k < count ==> to[k] == from[k]
  {
    to := new Property[size];
    for i := 0 to count
      invariant forall k :: 0 <= k < i ==> to[k] == from[k]
    {
      to[i] := from[i];
    }
  }

  method CopyWithBit(props: array<Property>, count: nat, id: nat) returns (result: array<Property>)
    requires IsList(props[..]) && count == 2 * |Pairs(props[..])| && id + 1 < count
    requires id == 2 * LastIndex(Pairs(props[..]), CL_QUEUE_PROPERTIES)
    ensures fresh(result) && result[..] == Listed(WithProfiling(Pairs(props[..])))
    ensures IsList(result[..]) && Pairs(result[..]) == WithProfiling(Pairs(props[..]))
  {
    ghost var s := props[..];
    result := CopyFirst(props, count, count + 1);
    result[id + 1] := result[id + 1] | CL_QUEUE_PROFILING_ENABLE;
    result[count] := 0;
    BitIsSet(s, LastIndex(Pairs(s), CL_QUEUE_PROPERTIES), count, id, result[..]);
  }

  method CopyWithPair(props: array<Property>, count: nat) returns (result: array<Property>)
    requires IsList(props[..]) && count == 2 * |Pairs(props[..])|
    requires LastIndex(Pairs(props[..]), CL_QUEUE_PROPERTIES) == -1
    ensures fresh(result) && result[..] == Listed(WithProfiling(Pairs(props[..])))
    ensures IsList(result[..]) && Pairs(result[..]) == WithProfiling(Pairs(props[..]))
  {
    result := CopyFirst(props, count, count + 3);
    result[count] := CL_QUEUE_PROPERTIES;
    result[count + 1] := CL_QUEUE_PROFILING_ENABLE;
    result[count + 2] := 0;
    PairIsAdded(props[..], result[..]);
  }

  /**
    The new list is well formed and exactly sized; it holds the old pairs with
    profiling. A null list has no pairs.
   */
  method EnableQueueProfiling(props: array?<Property>) returns (result: array<Property>)
    requires props != null ==> IsList(props[..])
    ensures fresh(result)
    ensures var pairs := WithProfiling(if props == null then [] else Pairs(props[..]));
            result[..] == Listed(pairs) && IsList(result[..]) && Pairs(result[..]) == pairs
  {
    if props == null {
      result := new Property[3];
      result[0] := CL_QUEUE_PROPERTIES;
      result[1] := CL_QUEUE_PROFILING_ENABLE;
      result[2] := 0;
      ListedAt([Pair(CL_QUEUE_PROPERTIES, CL_QUEUE_PROFILING_ENABLE)], result[..]);
      return;
    }
    var count, id := Scan(props);
    if id >= 0 && id + 1 < count {
      result := CopyWithBit(props, count, id);
    } else {
      result := CopyWithPair(props, count);
    }
  }

  // ---------------------------------------------------------------- what the rewriting means

  /** The value that counts for a key: that of its last pair. */
  function ValueOf(pairs: seq<Pair>, key: Property): Property {
    var at := LastIndex(pairs, key);
    if at >= 0 then pairs[at].value else 0
  }

  lemma LastIndexIs(pairs: seq<Pair>, key: Property, at: nat)
    requires at < |pairs| && pairs[at].key == key && forall i :: at < i < |pairs| ==> pairs[i].key != key
    ensures LastIndex(pairs, key) == at
  {
  }

  /** Every other key keeps its value; queue properties gain profiling and keep every other bit. */
  lemma OnlyProfilingChanges(pairs: seq<Pair>, key: Property)
    ensures ValueOf(WithProfiling(pairs), key)
            == if key == CL_QUEUE_PROPERTIES then ValueOf(pairs, key) | CL_QUEUE_PROFILING_ENABLE
               else ValueOf(pairs, key)
  {
    var at, at' := LastIndex(pairs, CL_QUEUE_PROPERTIES), LastIndex(pairs, key);
    var pairsAfter := WithProfiling(pairs);
    if key == CL_QUEUE_PROPERTIES {
      LastIndexIs(pairsAfter, key, if at >= 0 then at else |pairs|);
    } else if at >= 0 && at' >= 0 {
      LastIndexIs(pairsAfter, key, at');
    } else if at < 0 {
      LastIndexAppend(pairs, Pair(CL_QUEUE_PROPERTIES, CL_QUEUE_PROFILING_ENABLE), key);
    }
  }

  /** Every pair but that of the queue properties is where it was, and asking twice changes nothing. */
  lemma ProfilingTwiceIsOnce(pairs: seq<Pair>)
    ensures WithProfiling(WithProfiling(pairs)) == WithProfiling(pairs)
    ensures |pairs| <= |WithProfiling(pairs)| <= |pairs| + 1
    ensures forall i :: 0 <= i < |pairs| && i != LastIndex(pairs, CL_QUEUE_PROPERTIES) ==>
        WithProfiling(pairs)[i] == pairs[i]
  {
    var at := LastIndex(pairs, CL_QUEUE_PROPERTIES);
    LastIndexIs(WithProfiling(pairs), CL_QUEUE_PROPERTIES, if at >= 0 then at else |pairs|);
  }
}
