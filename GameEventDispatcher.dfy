/** The aggregating game event dispatcher (Game/GameEventDispatcher), as its unit tests
    (UnitTests/GameEventDispatcherTests.cpp) fix its behaviour: stress events are not passed
    on when they happen but summed per (material, underwater) key, and Flush hands the
    handler one event per key with the summed size and forgets the sums; the sinking of a
    ship is passed on at once. The handler is modelled as the sequence of the events it has
    received. */
module GameEvents {

  type ShipId = nat

  /** What stress events are summed by: the material (identified by its name, as the tests
      identify it) and whether the stressed part is underwater. */
  datatype StressKey = StressKey(material: string, isUnderwater: bool)

  /** One OnStress call. */
  datatype StressCall = StressCall(key: StressKey, size: nat)

  /** An event as the registered handler receives it. */
  datatype Event =
    | StressEvent(key: StressKey, size: nat)
    | SinkingBeginEvent(shipId: ShipId)

  // ---- The reference: sums per key ----

  /** The total size of the calls with key `key`. */
  function StressSizeSum(calls: seq<StressCall>, key: StressKey): nat {
    if calls == [] then 0
    else
      var last := calls[|calls| - 1];
      StressSizeSum(calls[..|calls| - 1], key) + (if last.key == key then last.size else 0)
  }

  /** The keys that occur among the calls. */
  ghost function CalledKeys(calls: seq<StressCall>): set<StressKey> {
    set c | c in calls :: c.key
  }

  /** The entry of `key`, zero when there is none. */
  function SizeOf(aggregate: map<StressKey, nat>, key: StressKey): nat {
    if key in aggregate then aggregate[key] else 0
  }

  /** `aggregate` with `size` added to the entry of `key`. */
  function Added(aggregate: map<StressKey, nat>, key: StressKey, size: nat): map<StressKey, nat> {
    aggregate[key := SizeOf(aggregate, key) + size]
  }

  /** The aggregate the dispatcher keeps for a sequence of OnStress calls: each call adds its
      size to its key's entry, creating it at zero. */
  function Aggregate(calls: seq<StressCall>): (m: map<StressKey, nat>)
    ensures m.Keys == CalledKeys(calls)
    ensures forall k | k in m :: m[k] == StressSizeSum(calls, k)
  {
    if calls == [] then map[]
    else
      var prefix := calls[..|calls| - 1];
      var last := calls[|calls| - 1];
      var m := Aggregate(prefix);
      assert calls == prefix + [last];
      assert CalledKeys(calls) == CalledKeys(prefix) + {last.key};
      if last.key in m then Added(m, last.key, last.size)
      else
        UncalledKeySumsToZero(prefix, last.key);
        Added(m, last.key, last.size)
  }

  /** One more call adds its size to its key's entry. */
  lemma AggregateAppend(calls: seq<StressCall>, c: StressCall)
    ensures Aggregate(calls + [c]) == Added(Aggregate(calls), c.key, c.size)
  {
    assert (calls + [c])[..|calls|] == calls;
  }

  /** A key that was never called has no entry, and so contributes nothing. */
  lemma {:induction false} UncalledKeySumsToZero(calls: seq<StressCall>, key: StressKey)
    requires key !in CalledKeys(calls)
    ensures StressSizeSum(calls, key) == 0
  {
    if calls != [] {
      var prefix := calls[..|calls| - 1];
      assert calls == prefix + [calls[|calls| - 1]];
      assert CalledKeys(prefix) <= CalledKeys(calls);
      UncalledKeySumsToZero(prefix, key);
    }
  }

  /** The aggregate does not depend on the order of the calls: swapping two neighbouring calls
      changes nothing. */
  lemma SwapCallsKeepsAggregate(before: seq<StressCall>, a: StressCall, b: StressCall, after: seq<StressCall>)
    ensures Aggregate(before + [a, b] + after) == Aggregate(before + [b, a] + after)
  {
    var s := before + [a, b] + after;
    var t := before + [b, a] + after;
    SwapSameSums(before, a, b, after);
    assert multiset(s) == multiset(t);
    forall c ensures c in s <==> c in t {
      assert c in s <==> c in multiset(s);
      assert c in t <==> c in multiset(t);
    }
    assert CalledKeys(s) == CalledKeys(t);
  }

  /** Swapping two adjacent calls leaves every key's sum unchanged. */
  lemma {:induction false} SwapSameSums(before: seq<StressCall>, a: StressCall, b: StressCall, after: seq<StressCall>)
    ensures forall k :: StressSizeSum(before + [a, b] + after, k) == StressSizeSum(before + [b, a] + after, k)
  {
    if after == [] {
      assert (before + [a, b] + after)[..|before| + 1] == before + [a];
      assert (before + [b, a] + after)[..|before| + 1] == before + [b];
      assert (before + [a])[..|before|] == before;
      assert (before + [b])[..|before|] == before;
    } else {
      var p := after[..|after| - 1];
      SwapSameSums(before, a, b, p);
      assert (before + [a, b] + after)[..|before + [a, b] + after| - 1] == before + [a, b] + p;
      assert (before + [b, a] + after)[..|before + [b, a] + after| - 1] == before + [b, a] + p;
    }
  }

  // ---- What one Flush delivers ----

  /** `events` is what flushing `aggregate` hands over: only stress events, one per key of the
      aggregate and none for any other key, each carrying that key's summed size. */
  ghost predicate DrainsExactly(events: seq<Event>, aggregate: map<StressKey, nat>) {
    |events| == |aggregate|
    && (forall i :: 0 <= i < |events| ==>
      events[i].StressEvent? && events[i].key in aggregate && events[i].size == aggregate[events[i].key])
    && (forall i, j :: 0 <= i < j < |events| && events[i].StressEvent? && events[j].StressEvent? ==>
      events[i].key != events[j].key)
    && (forall k | k in aggregate :: StressEvent(k, aggregate[k]) in events)
  }

  /** The events one Flush hands over for `aggregate`, in no particular order. */
  method DrainAll(aggregate: map<StressKey, nat>) returns (flushed: seq<Event>)
    ensures DrainsExactly(flushed, aggregate)
  {
    var keys := aggregate.Keys;
    flushed := [];
    while keys != {}
      invariant keys <= aggregate.Keys
      invariant |flushed| + |keys| == |aggregate|
      invariant forall i :: 0 <= i < |flushed| ==>
        flushed[i].StressEvent? && flushed[i].key in aggregate && flushed[i].key !in keys
        && flushed[i].size == aggregate[flushed[i].key]
      invariant forall i, j :: 0 <= i < j < |flushed| && flushed[i].StressEvent? && flushed[j].StressEvent? ==>
        flushed[i].key != flushed[j].key
      invariant forall k | k in aggregate && k !in keys :: StressEvent(k, aggregate[k]) in flushed
      decreases |keys|
    {
      var k :| k in keys;
      flushed := flushed + [StressEvent(k, aggregate[k])];
      keys := keys - {k};
    }
  }

  class GameEventDispatcher {
    /** The summed stress sizes not yet flushed. */
    var stressAggregate: map<StressKey, nat>
    /** The events the registered handler has received, oldest first. */
    var delivered: seq<Event>

    /** A dispatcher with nothing aggregated and nothing delivered. */
    constructor ()
      ensures stressAggregate == map[] && delivered == []
    {
      stressAggregate := map[];
      delivered := [];
    }

    /** OnStress: the size is added to the key's sum and nothing reaches the handler. */
    method OnStress(material: string, isUnderwater: bool, size: nat)
      modifies this
      ensures stressAggregate == Added(old(stressAggregate), StressKey(material, isUnderwater), size)
      ensures delivered == old(delivered)
    {
      stressAggregate := Added(stressAggregate, StressKey(material, isUnderwater), size);
    }

    /** OnSinkingBegin: passed on to the handler at once; the stress sums are untouched. */
    method OnSinkingBegin(shipId: ShipId)
      modifies this
      ensures delivered == old(delivered) + [SinkingBeginEvent(shipId)]
      ensures stressAggregate == old(stressAggregate)
    {
      delivered := delivered + [SinkingBeginEvent(shipId)];
    }

    /** Flush: the handler receives one stress event per aggregated key, with the key's summed
        size, in no particular order; then the aggregate is empty. */
    method Flush()
      modifies this
      ensures stressAggregate == map[]
      ensures |old(delivered)| <= |delivered| && delivered[..|old(delivered)|] == old(delivered)
      ensures DrainsExactly(delivered[|old(delivered)|..], old(stressAggregate))
    {
      var flushed := DrainAll(stressAggregate);
      delivered := delivered + flushed;
      assert delivered[|old(delivered)|..] == flushed;
      stressAggregate := map[];
    }
  }

  /** Replaying OnStress calls on a dispatcher with nothing pending leaves it holding their
      aggregate, and delivers nothing. */
  method ReplayStresses(d: GameEventDispatcher, calls: seq<StressCall>)
    requires d.stressAggregate == map[]
    modifies d
    ensures d.stressAggregate == Aggregate(calls)
    ensures d.delivered == old(d.delivered)
  {
    var i := 0;
    while i < |calls|
      invariant 0 <= i <= |calls|
      invariant d.stressAggregate == Aggregate(calls[..i])
      invariant d.delivered == old(d.delivered)
    {
      AggregateAppend(calls[..i], calls[i]);
      assert calls[..i + 1] == calls[..i] + [calls[i]];
      d.OnStress(calls[i].key.material, calls[i].key.isUnderwater, calls[i].size);
      i := i + 1;
    }
    assert calls[..i] == calls;
  }

  /** Each key's entry in the aggregate is the total size of the calls with that key, and
      zero for a key no call had. */
  lemma AggregateIsPerKeySum(calls: seq<StressCall>, key: StressKey)
    ensures SizeOf(Aggregate(calls), key) == StressSizeSum(calls, key)
  {
    if key !in Aggregate(calls) {
      UncalledKeySumsToZero(calls, key);
    }
  }

  /** Aggregates_OnStress: two stresses of one key, then a flush: one event with size 5. */
  method AggregatesOnStress() returns (beforeFlush: seq<Event>, flushed: seq<Event>)
    ensures beforeFlush == []
    ensures flushed == [StressEvent(StressKey("Foo", true), 5)]
  {
    var d := new GameEventDispatcher();
    d.OnStress("Foo", true, 3);
    d.OnStress("Foo", true, 2);
    beforeFlush := d.delivered;
    d.Flush();
    flushed := d.delivered;
    assert StressEvent(StressKey("Foo", true), 5) in flushed;
  }

  /** The seven stresses of Aggregates_OnStress_MultipleKeys, on a dispatcher with nothing
      pending: three keys, one material under and above water counting as two. */
  method StressThreeKeys(d: GameEventDispatcher)
    requires d.stressAggregate == map[]
    modifies d
    ensures d.stressAggregate ==
      map[StressKey("Foo2", false) := 3][StressKey("Foo1", false) := 13][StressKey("Foo2", true) := 4]
    ensures d.delivered == old(d.delivered)
  {
    var foo1 := StressKey("Foo1", false);
    var foo2 := StressKey("Foo2", false);
    var foo2Underwater := StressKey("Foo2", true);
    assert foo1 != foo2 by { assert "Foo1"[3] != "Foo2"[3]; }
    d.OnStress("Foo2", false, 1);
    d.OnStress("Foo1", false, 3);
    assert d.stressAggregate == map[foo2 := 1][foo1 := 3];
    d.OnStress("Foo2", false, 2);
    d.OnStress("Foo1", false, 9);
    assert d.stressAggregate == map[foo2 := 3][foo1 := 12];
    d.OnStress("Foo1", false, 1);
    d.OnStress("Foo2", true, 2);
    assert d.stressAggregate == map[foo2 := 3][foo1 := 13][foo2Underwater := 2];
    d.OnStress("Foo2", true, 2);
  }

  /** Aggregates_OnStress_MultipleKeys: the seven stresses reach the handler only at the flush,
      as three events with the per-key sums. */
  method AggregatesMultipleKeys() returns (beforeFlush: seq<Event>, flushed: seq<Event>)
    ensures beforeFlush == []
    ensures |flushed| == 3
    ensures StressEvent(StressKey("Foo1", false), 13) in flushed
    ensures StressEvent(StressKey("Foo2", false), 3) in flushed
    ensures StressEvent(StressKey("Foo2", true), 4) in flushed
  {
    var d := new GameEventDispatcher();
    StressThreeKeys(d);
    beforeFlush := d.delivered;
    var foo1 := StressKey("Foo1", false);
    var foo2 := StressKey("Foo2", false);
    var foo2Underwater := StressKey("Foo2", true);
    assert foo1 != foo2 by { assert "Foo1"[3] != "Foo2"[3]; }
    var aggregate := d.stressAggregate;
    assert |aggregate| == 3;
    assert aggregate[foo1] == 13 && aggregate[foo2] == 3 && aggregate[foo2Underwater] == 4;
    d.Flush();
    flushed := d.delivered;
    assert flushed[|beforeFlush|..] == flushed;
  }

  /** OnSinkingBegin_MultipleShips: each sinking reaches the handler at once, in call order. */
  method SinkingBeginPassesThrough() returns (afterFirst: seq<Event>, afterSecond: seq<Event>)
    ensures afterFirst == [SinkingBeginEvent(7)]
    ensures afterSecond == [SinkingBeginEvent(7), SinkingBeginEvent(3)]
  {
    var d := new GameEventDispatcher();
    d.OnSinkingBegin(7);
    afterFirst := d.delivered;
    d.OnSinkingBegin(3);
    afterSecond := d.delivered;
  }

  /** ClearsStateAtUpdate: a second flush delivers nothing. */
  method SecondFlushDeliversNothing() returns (firstFlush: seq<Event>, secondFlush: seq<Event>)
    ensures firstFlush == [StressEvent(StressKey("Foo", false), 5)]
    ensures secondFlush == []
  {
    var d := new GameEventDispatcher();
    d.OnStress("Foo", false, 3);
    d.OnStress("Foo", false, 2);
    d.Flush();
    firstFlush := d.delivered;
    assert StressEvent(StressKey("Foo", false), 5) in firstFlush;
    d.Flush();
    secondFlush := d.delivered[|firstFlush|..];
  }
}
