/**
 The TTL least-recently-used store under the tile cache, as functions on its ordered contents.
 An OrderedDict is a sequence of slots with distinct keys, least recently used first.
 */
module TileStore {
  import opened Wrappers

  datatype Entry<V> = Entry(tile: V, expiresAt: real, byteSize: nat)

  datatype Slot<K, V> = Slot(key: K, entry: Entry<V>)

  datatype Limits = Limits(maxBytes: nat, ttl: real, maxEntries: nat, maxInFlight: nat) {
    // What the constructor of the cache demands of its arguments.
    predicate Valid() {
      maxBytes >= 1 && ttl > 0.0 && maxEntries >= 1 && maxInFlight >= 1
    }
  }

  ghost predicate DistinctKeys<K, V>(slots: seq<Slot<K, V>>) {
    forall i, j {:trigger slots[i].key, slots[j].key} :: 0 <= i < j < |slots| ==> slots[i].key != slots[j].key
  }

  function TotalBytes<K, V>(slots: seq<Slot<K, V>>): nat {
    if slots == [] then 0 else slots[0].entry.byteSize + TotalBytes(slots[1..])
  }

  /** The position of a key, or the length when the key is absent. */
  function Find<K(==), V>(slots: seq<Slot<K, V>>, key: K): (i: nat)
    ensures i <= |slots|
    ensures forall j :: 0 <= j < i ==> slots[j].key != key
    ensures i < |slots| ==> slots[i].key == key
  {
    if slots == [] || slots[0].key == key then 0 else 1 + Find(slots[1..], key)
  }

  function Without<K(==), V>(slots: seq<Slot<K, V>>, key: K): seq<Slot<K, V>> {
    var i := Find(slots, key);
    if i == |slots| then slots else slots[..i] + slots[i + 1..]
  }

  predicate Fits<K, V>(slots: seq<Slot<K, V>>, limits: Limits) {
    TotalBytes(slots) <= limits.maxBytes && |slots| <= limits.maxEntries
  }

  /** What remains after the d oldest slots are dropped fits both bounds. */
  predicate SuffixFits<K, V>(slots: seq<Slot<K, V>>, d: nat, limits: Limits)
    requires d <= |slots|
  {
    Fits(slots[d..], limits)
  }

  function Evict<K, V>(slots: seq<Slot<K, V>>, limits: Limits): seq<Slot<K, V>> {
    if Fits(slots, limits) || slots == [] then slots else Evict(slots[1..], limits)
  }

  /** A lookup: an expired entry is dropped, a live one becomes the most recently used. */
  function Touch<K(==), V>(slots: seq<Slot<K, V>>, key: K, now: real): (r: (Option<V>, seq<Slot<K, V>>)) {
    var i := Find(slots, key);
    if i == |slots| then (None, slots)
    else if slots[i].entry.expiresAt <= now then (None, Without(slots, key))
    else (Some(slots[i].entry.tile), Without(slots, key) + [slots[i]])
  }

  /** The store with a fresh slot of the key at the recent end, before eviction. */
  function Pushed<K(==), V>(slots: seq<Slot<K, V>>, limits: Limits, key: K, tile: V, byteSize: nat,
      now: real): seq<Slot<K, V>>
  {
    Without(slots, key) + [Slot(key, Entry(tile, now + limits.ttl, byteSize))]
  }

  function Put<K(==), V>(slots: seq<Slot<K, V>>, limits: Limits, key: K, tile: V, byteSize: nat,
      now: real): seq<Slot<K, V>>
  {
    if byteSize > limits.maxBytes then slots else Evict(Pushed(slots, limits, key, tile, byteSize, now), limits)
  }

  ghost predicate StoreValid<K, V>(slots: seq<Slot<K, V>>, limits: Limits) {
    DistinctKeys(slots) && Fits(slots, limits)
  }

  // ---------- facts about the building blocks ----------

  lemma {:induction false} TotalAppend<K, V>(a: seq<Slot<K, V>>, b: seq<Slot<K, V>>)
    ensures TotalBytes(a + b) == TotalBytes(a) + TotalBytes(b)
  {
    if a == [] {
      assert a + b == b;
    } else {
      assert (a + b)[1..] == a[1..] + b;
      TotalAppend(a[1..], b);
    }
  }

  /** Removal keeps the other slots distinct and leaves no slot of the key. */
  lemma {:induction false} WithoutKeepsDistinct<K, V>(slots: seq<Slot<K, V>>, key: K)
    requires DistinctKeys(slots)
    ensures DistinctKeys(Without(slots, key))
    ensures forall j :: 0 <= j < |Without(slots, key)| ==> Without(slots, key)[j].key != key
  {
    var i, rest := Find(slots, key), Without(slots, key);
    if i < |slots| {
      forall j | 0 <= j < |rest| ensures rest[j] == slots[if j < i then j else j + 1] {
      }
    }
  }

  /** Removal keeps the byte total exact. */
  lemma {:induction false} WithoutTotal<K, V>(slots: seq<Slot<K, V>>, key: K)
    ensures var i := Find(slots, key);
            TotalBytes(Without(slots, key)) == TotalBytes(slots) - (if i < |slots| then slots[i].entry.byteSize else 0)
  {
    var i := Find(slots, key);
    if i < |slots| {
      var front, one, back := slots[..i], [slots[i]], slots[i + 1..];
      assert slots == front + (one + back);
      TotalAppend(front, one + back);
      TotalAppend(one, back);
      TotalAppend(front, back);
      assert TotalBytes(one) == slots[i].entry.byteSize;
    }
  }

  lemma {:induction false} WithoutMembers<K, V>(slots: seq<Slot<K, V>>, key: K, s: Slot<K, V>)
    requires DistinctKeys(slots)
    ensures s in Without(slots, key) <==> s in slots && s.key != key
  {
    var i := Find(slots, key);
    var rest := Without(slots, key);
    if s in slots && s.key != key {
      var j :| 0 <= j < |slots| && slots[j] == s;
      assert rest[if j < i then j else j - 1] == s;
    }
    if s in rest {
      var j :| 0 <= j < |rest| && rest[j] == s;
      assert slots[if j < i then j else j + 1] == s;
    }
  }

  /** Dropping slots from the front never increases either measure. */
  lemma {:induction false} SuffixMeasures<K, V>(slots: seq<Slot<K, V>>, d: nat)
    requires d <= |slots|
    ensures TotalBytes(slots[d..]) <= TotalBytes(slots)
  {
    assert slots == slots[..d] + slots[d..];
    TotalAppend(slots[..d], slots[d..]);
  }

  /** Eviction keeps the longest most recent suffix that fits both bounds. */
  lemma {:induction false} EvictKeepsLongestFittingSuffix<K, V>(slots: seq<Slot<K, V>>, limits: Limits) returns (d: nat)
    ensures d <= |slots| && Evict(slots, limits) == slots[d..] && Fits(Evict(slots, limits), limits)
    ensures forall i :: 0 <= i <= |slots| ==> (SuffixFits(slots, i, limits) <==> d <= i)
  {
    if Fits(slots, limits) || slots == [] {
      d := 0;
      forall i | 0 <= i <= |slots| ensures SuffixFits(slots, i, limits) {
        SuffixMeasures(slots, i);
      }
    } else {
      var e := EvictKeepsLongestFittingSuffix(slots[1..], limits);
      d := e + 1;
      forall i | 0 <= i <= |slots| ensures SuffixFits(slots, i, limits) <==> d <= i {
        if i == 0 {
          assert slots[0..] == slots;
        } else {
          assert slots[1..][i - 1..] == slots[i..];
          assert SuffixFits(slots[1..], i - 1, limits) <==> e <= i - 1;
        }
      }
    }
  }

  // ---------- the store's promises ----------

  lemma {:induction false} MovedKeepsStore<K, V>(slots: seq<Slot<K, V>>, limits: Limits, key: K)
    requires StoreValid(slots, limits) && Find(slots, key) < |slots|
    ensures StoreValid(Without(slots, key), limits)
    ensures StoreValid(Without(slots, key) + [slots[Find(slots, key)]], limits)
  {
    var moved := [slots[Find(slots, key)]];
    WithoutKeepsDistinct(slots, key);
    WithoutTotal(slots, key);
    TotalAppend(Without(slots, key), moved);
    assert TotalBytes(moved) == moved[0].entry.byteSize;
  }

  /** A lookup keeps both bounds, and answers exactly from a live entry of the key. */
  lemma {:induction false} TouchKeepsStore<K, V>(slots: seq<Slot<K, V>>, limits: Limits, key: K, now: real)
    requires StoreValid(slots, limits)
    ensures StoreValid(Touch(slots, key, now).1, limits)
    ensures Touch(slots, key, now).0.Some? <==>
            exists j :: 0 <= j < |slots| && slots[j].key == key && slots[j].entry.expiresAt > now
  {
    var i := Find(slots, key);
    if i < |slots| {
      MovedKeepsStore(slots, limits, key);
      assert slots[i].key == key;
    }
  }

  /** The slots after a lookup: all of them on a hit, all but the key's own on a miss. */
  lemma {:induction false} TouchMembers<K, V>(slots: seq<Slot<K, V>>, key: K, now: real, s: Slot<K, V>)
    requires DistinctKeys(slots)
    ensures s in Touch(slots, key, now).1 <==> s in slots && (s.key == key ==> Touch(slots, key, now).0.Some?)
  {
    WithoutMembers(slots, key, s);
    var i := Find(slots, key);
    if i < |slots| {
      assert slots[i] in slots;
    }
  }

  /** What fitting means: within both bounds. */
  lemma {:induction false} SuffixFitsBounds<K, V>(slots: seq<Slot<K, V>>, d: nat, limits: Limits)
    requires d <= |slots|
    ensures SuffixFits(slots, d, limits) <==>
              TotalBytes(slots[d..]) <= limits.maxBytes && |slots| - d <= limits.maxEntries
  {
  }

  lemma {:induction false} PushedIsDistinct<K, V>(slots: seq<Slot<K, V>>, limits: Limits, key: K, tile: V,
      byteSize: nat, now: real)
    requires DistinctKeys(slots)
    ensures DistinctKeys(Pushed(slots, limits, key, tile, byteSize, now))
  {
    WithoutKeepsDistinct(slots, key);
  }

  lemma {:induction false} LastAloneFits<K, V>(slots: seq<Slot<K, V>>, limits: Limits)
    requires limits.Valid() && |slots| > 0 && slots[|slots| - 1].entry.byteSize <= limits.maxBytes
    ensures SuffixFits(slots, |slots| - 1, limits)
  {
    assert slots[|slots| - 1..] == [slots[|slots| - 1]];
    assert TotalBytes([slots[|slots| - 1]]) == slots[|slots| - 1].entry.byteSize;
  }

  /**
   Storing: an oversized tile changes nothing; otherwise the new slot goes last, a previous slot of
   the key goes away, and what is kept is the longest most recent suffix that fits both bounds. The
   new slot is always kept.
   */
  lemma {:induction false} PutKeepsLongestSuffix<K, V>(slots: seq<Slot<K, V>>, limits: Limits, key: K, tile: V,
      byteSize: nat, now: real)
    returns (d: nat)
    requires limits.Valid() && StoreValid(slots, limits)
    ensures StoreValid(Put(slots, limits, key, tile, byteSize, now), limits)
    ensures byteSize > limits.maxBytes ==> Put(slots, limits, key, tile, byteSize, now) == slots
    ensures byteSize <= limits.maxBytes ==>
              var full := Pushed(slots, limits, key, tile, byteSize, now);
              && d < |full|
              && Put(slots, limits, key, tile, byteSize, now) == full[d..]
              && forall i :: 0 <= i <= |full| ==> (SuffixFits(full, i, limits) <==> d <= i)
  {
    d := 0;
    if byteSize <= limits.maxBytes {
      var full := Pushed(slots, limits, key, tile, byteSize, now);
      PushedIsDistinct(slots, limits, key, tile, byteSize, now);
      d := EvictKeepsLongestFittingSuffix(full, limits);
      LastAloneFits(full, limits);
    }
  }

  lemma {:induction false} FindIs<K, V>(slots: seq<Slot<K, V>>, key: K, i: nat)
    requires DistinctKeys(slots) && i < |slots| && slots[i].key == key
    ensures Find(slots, key) == i
  {
  }

  /** A stored tile is found until its time-to-live is over. */
  lemma {:induction false} PutThenTouch<K, V>(slots: seq<Slot<K, V>>, limits: Limits, key: K, tile: V, byteSize: nat,
      now: real, later: real)
    requires limits.Valid() && StoreValid(slots, limits) && byteSize <= limits.maxBytes
    ensures var stored := Put(slots, limits, key, tile, byteSize, now);
            Touch(stored, key, later).0 == if later < now + limits.ttl then Some(tile) else None
  {
    var stored := Put(slots, limits, key, tile, byteSize, now);
    var d := PutKeepsLongestSuffix(slots, limits, key, tile, byteSize, now);
    var full := Pushed(slots, limits, key, tile, byteSize, now);
    var last := |stored| - 1;
    assert full[|full| - 1] == Slot(key, Entry(tile, now + limits.ttl, byteSize));
    assert stored[last] == full[|full| - 1];
    FindIs(stored, key, last);
  }

  /** Storing brings in nothing but the new slot. */
  lemma {:induction false} PutMembers<K, V>(slots: seq<Slot<K, V>>, limits: Limits, key: K, tile: V, byteSize: nat,
      now: real, s: Slot<K, V>)
    requires DistinctKeys(slots) && s in Put(slots, limits, key, tile, byteSize, now)
    ensures s in slots || s == Slot(key, Entry(tile, now + limits.ttl, byteSize))
  {
    if byteSize <= limits.maxBytes {
      var d := EvictKeepsLongestFittingSuffix(Pushed(slots, limits, key, tile, byteSize, now), limits);
      WithoutMembers(slots, key, s);
    }
  }

  // ---------- list order is last-access order ----------

  ghost function LastUse<K>(uses: seq<K>, key: K): int {
    if uses == [] then -1
    else if uses[|uses| - 1] == key then |uses| - 1
    else LastUse(uses[..|uses| - 1], key)
  }

  ghost predicate InUseOrder<K, V>(slots: seq<Slot<K, V>>, uses: seq<K>) {
    forall i, j {:trigger slots[i].key, slots[j].key} ::
      0 <= i < j < |slots| ==> LastUse(uses, slots[i].key) < LastUse(uses, slots[j].key)
  }

  lemma {:induction false} LastUseBound<K>(uses: seq<K>, key: K)
    ensures LastUse(uses, key) < |uses|
  {
    if uses != [] {
      LastUseBound(uses[..|uses| - 1], key);
    }
  }

  lemma {:induction false} UseAppend<K>(uses: seq<K>, used: K, key: K)
    ensures LastUse(uses + [used], key) == if key == used then |uses| else LastUse(uses, key)
  {
    assert (uses + [used])[..|uses|] == uses;
  }

  /** Moving a key to the end is recording its use. */
  lemma {:induction false} AppendKeepsUseOrder<K, V>(rest: seq<Slot<K, V>>, slot: Slot<K, V>, uses: seq<K>)
    requires InUseOrder(rest, uses) && forall j :: 0 <= j < |rest| ==> rest[j].key != slot.key
    ensures InUseOrder(rest + [slot], uses + [slot.key])
  {
    var all := rest + [slot];
    forall i, j | 0 <= i < j < |all|
      ensures LastUse(uses + [slot.key], all[i].key) < LastUse(uses + [slot.key], all[j].key)
    {
      UseAppend(uses, slot.key, all[i].key);
      UseAppend(uses, slot.key, all[j].key);
      LastUseBound(uses, all[i].key);
    }
  }

  lemma {:induction false} PartKeepsUseOrder<K, V>(slots: seq<Slot<K, V>>, key: K, d: nat, uses: seq<K>)
    requires InUseOrder(slots, uses) && d <= |slots|
    ensures InUseOrder(Without(slots, key), uses)
    ensures InUseOrder(slots[d..], uses)
  {
    var i, rest := Find(slots, key), Without(slots, key);
    if i < |slots| {
      forall j | 0 <= j < |rest| ensures rest[j] == slots[if j < i then j else j + 1] {
      }
    }
  }

  /** The list stays in order of last access when a lookup hits or misses. */
  lemma {:induction false} TouchKeepsUseOrder<K, V>(slots: seq<Slot<K, V>>, key: K, now: real, uses: seq<K>)
    requires DistinctKeys(slots) && InUseOrder(slots, uses)
    ensures var (hit, touched) := Touch(slots, key, now);
            InUseOrder(touched, if hit.Some? then uses + [key] else uses)
  {
    var i := Find(slots, key);
    PartKeepsUseOrder(slots, key, 0, uses);
    WithoutKeepsDistinct(slots, key);
    if i < |slots| {
      AppendKeepsUseOrder(Without(slots, key), slots[i], uses);
    }
  }

  lemma {:induction false} PushedKeepsUseOrder<K, V>(slots: seq<Slot<K, V>>, limits: Limits, key: K, tile: V,
      byteSize: nat, now: real, uses: seq<K>)
    requires DistinctKeys(slots) && InUseOrder(slots, uses)
    ensures InUseOrder(Pushed(slots, limits, key, tile, byteSize, now), uses + [key])
  {
    PartKeepsUseOrder(slots, key, 0, uses);
    WithoutKeepsDistinct(slots, key);
    AppendKeepsUseOrder(Without(slots, key), Slot(key, Entry(tile, now + limits.ttl, byteSize)), uses);
  }

  /** The list stays in order of last access when a tile is stored: storing is a use of its key. */
  lemma {:induction false} PutKeepsUseOrder<K, V>(slots: seq<Slot<K, V>>, limits: Limits, key: K, tile: V,
      byteSize: nat, now: real, uses: seq<K>)
    requires DistinctKeys(slots) && InUseOrder(slots, uses)
    ensures InUseOrder(Put(slots, limits, key, tile, byteSize, now),
                       if byteSize > limits.maxBytes then uses else uses + [key])
  {
    if byteSize <= limits.maxBytes {
      var full := Pushed(slots, limits, key, tile, byteSize, now);
      PushedKeepsUseOrder(slots, limits, key, tile, byteSize, now, uses);
      var d := EvictKeepsLongestFittingSuffix(full, limits);
      PartKeepsUseOrder(full, key, d, uses + [key]);
    }
  }
}
