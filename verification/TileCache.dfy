/**
 The tile cache as the source writes it: one object whose fields are updated in place. Each method
 is one critical section, and its contract ties the new fields to the functions of TileStore and
 TileFlight whose promises are proved there and in TileSystem.
 */
module TileCache {
  import opened Wrappers
  import opened TileStore
  import opened TileFlight

  /** A shared computation; callers hold on to the object itself. */
  class InFlight {
    const id: nat
    var waiters: int
    var retiring: bool

    constructor (id: nat)
      ensures this.id == id && waiters == 0 && !retiring
    {
      this.id := id;
      waiters, retiring := 0, false;
    }
  }

  /** Tables with the same records under the same keys are the same. */
  lemma {:induction false} SameRecords<K>(s: Table<K>, t: Table<K>)
    requires s.inFlight.Keys == t.inFlight.Keys && s.nextId == t.nextId
    requires forall k :: k in s.inFlight ==> s.inFlight[k] == t.inFlight[k]
    ensures s == t
  {
    assert s.inFlight == t.inFlight;
  }

  function SetRecord<K>(t: Table<K>, key: K, record: Record): Table<K> {
    t.(inFlight := t.inFlight[key := record])
  }

  lemma {:induction false} SetTwice<K>(t: Table<K>, key: K, first: Record, second: Record)
    ensures SetRecord(SetRecord(t, key, first), key, second) == SetRecord(t, key, second)
  {
    SameRecords(SetRecord(SetRecord(t, key, first), key, second), SetRecord(t, key, second));
  }

  lemma {:induction false} ForgetSet<K>(t: Table<K>, key: K, record: Record)
    ensures SetRecord(t, key, record).inFlight - {key} == t.inFlight - {key}
  {
  }

  class TileCache<K(==), V> {
    const limits: Limits
    var entries: seq<Slot<K, V>>
    var bytes: int
    var inFlight: map<K, InFlight>
    var nextId: nat
    ghost var uses: seq<K>

    ghost predicate ValidStore()
      reads this`entries, this`bytes, this`uses
    {
      limits.Valid() && StoreValid(entries, limits) && bytes == TotalBytes(entries) && InUseOrder(entries, uses)
    }

    ghost predicate ValidTable()
      reads this`inFlight, this`nextId, inFlight.Values
    {
      && (forall k :: k in inFlight ==> inFlight[k].id < nextId)
      && (forall j, k :: j in inFlight && k in inFlight && j != k ==> inFlight[j] != inFlight[k])
    }

    ghost predicate Valid()
      reads this, inFlight.Values
    {
      ValidStore() && ValidTable()
    }

    /** The single-flight table these fields represent. */
    ghost function Table(): (t: Table<K>)
      reads this`inFlight, this`nextId, inFlight.Values
      ensures t.inFlight.Keys == inFlight.Keys && |t.inFlight| == |inFlight|
    {
      var records := map k | k in inFlight :: Record(inFlight[k].id, inFlight[k].waiters, inFlight[k].retiring);
      assert records.Keys == inFlight.Keys;
      assert |records| == |records.Keys| && |inFlight| == |inFlight.Keys|;
      TileFlight.Table(records, nextId)
    }

    constructor (limits: Limits)
      requires limits.Valid()
      ensures Valid() && this.limits == limits && entries == [] && Table() == TileFlight.Table(map[], 0)
    {
      this.limits := limits;
      entries, bytes, inFlight, nextId, uses := [], 0, map[], 0, [];
    }

    method RemoveEntry(key: K)
      requires DistinctKeys(entries) && bytes == TotalBytes(entries)
      requires exists i :: 0 <= i < |entries| && entries[i].key == key
      modifies this`entries, this`bytes
      ensures entries == Without(old(entries), key) && bytes == TotalBytes(entries)
    {
      WithoutTotal(entries, key);
      var i := Find(entries, key);
      bytes := bytes - entries[i].entry.byteSize;
      entries := entries[..i] + entries[i + 1..];
    }

    /** Answers from a live entry, making it the most recently used; drops an expired one. */
    method Cached(key: K, now: real) returns (hit: Option<V>)
      requires ValidStore()
      modifies this`entries, this`bytes, this`uses
      ensures ValidStore()
      ensures (hit, entries) == Touch(old(entries), key, now)
      ensures hit.Some? <==> exists i ::
                0 <= i < |old(entries)| && old(entries)[i].key == key && old(entries)[i].entry.expiresAt > now
      ensures uses == if hit.Some? then old(uses) + [key] else old(uses)
    {
      TouchKeepsStore(entries, limits, key, now);
      TouchKeepsUseOrder(entries, key, now, uses);
      var i := Find(entries, key);
      if i == |entries| {
        return None;
      }
      var slot := entries[i];
      if slot.entry.expiresAt <= now {
        RemoveEntry(key);
        return None;
      }
      WithoutTotal(entries, key);
      TotalAppend(Without(entries, key), [slot]);
      entries := Without(entries, key) + [slot];
      uses := uses + [key];
      return Some(slot.entry.tile);
    }

    /** The eviction loop of a store: the oldest slots go until both bounds hold. */
    method EvictOverflow()
      requires bytes == TotalBytes(entries)
      modifies this`entries, this`bytes
      ensures entries == Evict(old(entries), limits) && bytes == TotalBytes(entries)
    {
      while bytes > limits.maxBytes || |entries| > limits.maxEntries
        invariant bytes == TotalBytes(entries)
        invariant Evict(entries, limits) == Evict(old(entries), limits)
        decreases |entries|
      {
        bytes := bytes - entries[0].entry.byteSize;
        entries := entries[1..];
      }
    }

    /** Replaces the slot of the key by a new one at the recent end. */
    method Push(key: K, tile: V, byteSize: nat, now: real)
      requires DistinctKeys(entries) && bytes == TotalBytes(entries)
      modifies this`entries, this`bytes
      ensures entries == Pushed(old(entries), limits, key, tile, byteSize, now) && bytes == TotalBytes(entries)
    {
      if Find(entries, key) < |entries| {
        RemoveEntry(key);
      }
      var slot := Slot(key, Entry(tile, now + limits.ttl, byteSize));
      TotalAppend(entries, [slot]);
      entries := entries + [slot];
      bytes := bytes + byteSize;
    }

    /** Keeps the newest slots that fit; a tile larger than the whole store is not kept. */
    method Store(key: K, tile: V, byteSize: nat, now: real)
      requires ValidStore()
      modifies this`entries, this`bytes, this`uses
      ensures ValidStore()
      ensures entries == Put(old(entries), limits, key, tile, byteSize, now)
      ensures uses == if byteSize > limits.maxBytes then old(uses) else old(uses) + [key]
    {
      if byteSize > limits.maxBytes {
        return;
      }
      ghost var d := PutKeepsLongestSuffix(entries, limits, key, tile, byteSize, now);
      PutKeepsUseOrder(entries, limits, key, tile, byteSize, now, uses);
      Push(key, tile, byteSize, now);
      EvictOverflow();
      uses := uses + [key];
    }

    /** A lookup that missed the store joins, starts, waits for a retirement, or is refused for lack of room. */
    method EnterTable(key: K) returns (admission: Admission, record: InFlight?)
      requires ValidTable()
      modifies this`inFlight, this`nextId, inFlight.Values
      ensures ValidTable()
      ensures (admission, Table()) == TileFlight.Enter(old(Table()), limits.maxInFlight, key)
      ensures !admission.Refused? ==> key in inFlight && record == inFlight[key] && record.id == admission.id
    {
      admission, record := Refused, null;
      if key !in inFlight {
        if |inFlight| >= limits.maxInFlight {
          return;
        }
        Start(key);
      }
      record := inFlight[key];
      if record.retiring {
        admission := Blocked(record.id);
      } else {
        record.waiters := record.waiters + 1;
        admission := Joined(record.id);
      }
      assert Table().inFlight == TileFlight.Enter(old(Table()), limits.maxInFlight, key).1.inFlight;
    }

    /** Records a new computation under a key that has none. */
    method Start(key: K)
      requires ValidTable() && key !in inFlight
      modifies this`inFlight, this`nextId
      ensures ValidTable() && key in inFlight && fresh(inFlight[key])
      ensures inFlight == old(inFlight)[key := inFlight[key]]
      ensures inFlight[key].id == old(nextId) && inFlight[key].waiters == 0 && !inFlight[key].retiring
      ensures nextId == old(nextId) + 1
    {
      var started := new InFlight(nextId);
      inFlight := inFlight[key := started];
      nextId := nextId + 1;
    }

    /** The critical section of a lookup: the store answers, or the caller enters the single-flight table. */
    method Enter(key: K, now: real) returns (hit: Option<V>, admission: Admission, record: InFlight?)
      requires Valid()
      modifies this, inFlight.Values
      ensures Valid()
      ensures (hit, entries) == Touch(old(entries), key, now)
      ensures hit.Some? ==> Table() == old(Table())
      ensures hit.None? ==> (admission, Table()) == TileFlight.Enter(old(Table()), limits.maxInFlight, key)
      ensures hit.None? && !admission.Refused? ==>
                key in inFlight && record == inFlight[key] && record.id == admission.id
    {
      admission, record := Refused, null;
      hit := Cached(key, now);
      if hit.None? {
        admission, record := EnterTable(key);
      }
    }

    /** Takes a waiter off the record of this key. */
    method Discount(key: K, record: InFlight)
      requires ValidTable() && key in inFlight && inFlight[key] == record
      modifies record`waiters
      ensures ValidTable() && record.waiters == old(record.waiters) - 1
      ensures Table() == SetRecord(old(Table()), key, Record(record.id, old(record.waiters) - 1, record.retiring))
    {
      record.waiters := record.waiters - 1;
      SameRecords(Table(), SetRecord(old(Table()), key, Record(record.id, record.waiters, record.retiring)));
    }

    method StartRetiring(key: K, record: InFlight)
      requires ValidTable() && key in inFlight && inFlight[key] == record
      modifies record`retiring
      ensures ValidTable()
      ensures Table() == SetRecord(old(Table()), key, Record(record.id, record.waiters, true))
    {
      record.retiring := true;
      SameRecords(Table(), SetRecord(old(Table()), key, Record(record.id, record.waiters, true)));
    }

    method Forget(key: K)
      requires ValidTable()
      modifies this`inFlight
      ensures ValidTable() && Table() == old(Table()).(inFlight := old(Table()).inFlight - {key})
    {
      inFlight := inFlight - {key};
      SameRecords(Table(), old(Table()).(inFlight := old(Table()).inFlight - {key}));
    }

    /** The critical section of a release: the last waiter removes the record or starts its retirement. */
    method Release(key: K, record: InFlight, taskDone: bool) returns (departure: Departure)
      requires ValidTable()
      requires forall k :: k in inFlight && inFlight[k].id == record.id ==> inFlight[k] == record
      modifies this`inFlight, record
      ensures ValidTable()
      ensures (departure, Table()) == TileFlight.Release(old(Table()), key, record.id, taskDone)
    {
      if key !in inFlight || inFlight[key] != record {
        return Mismatch;
      }
      ghost var before, left := Table(), Record(record.id, record.waiters - 1, record.retiring);
      Discount(key, record);
      if record.waiters != 0 {
        departure := Stays;
      } else if taskDone {
        Forget(key);
        ForgetSet(before, key, left);
        departure := Removed;
      } else {
        StartRetiring(key, record);
        SetTwice(before, key, left, left.(retiring := true));
        departure := Retires;
      }
    }

    /** The final critical section of a retirement. */
    method Retire(key: K, record: InFlight)
      requires ValidTable()
      requires forall k :: k in inFlight && inFlight[k].id == record.id ==> inFlight[k] == record
      modifies this`inFlight
      ensures ValidTable()
      ensures Table() == TileFlight.Retire(old(Table()), key, record.id)
    {
      if key in inFlight && inFlight[key] == record {
        inFlight := inFlight - {key};
      }
      assert Table().inFlight == TileFlight.Retire(old(Table()), key, record.id).inFlight;
    }
  }
}
