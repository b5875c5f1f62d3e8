/**
 The single-flight table of the tile cache: which computation serves which key, how many callers
 wait for it, and how it is retired.

 No critical section of the source suspends, so each one is an atomic step on the table: entering a
 lookup that missed the store, releasing a waiter, ending a retirement. Around them the environment
 decides when computations finish or fail and when callers are resumed or cancelled.
 */
module TileFlight {
  import opened Counting

  // ---------- the table and its critical sections ----------

  datatype Record = Record(id: nat, waiters: int, retiring: bool)

  datatype Table<K> = Table(inFlight: map<K, Record>, nextId: nat)

  datatype Admission = Refused | Blocked(id: nat) | Joined(id: nat)

  datatype Departure = Mismatch | Stays | Removed | Retires

  /** One pass of the lookup loop after a miss: a refusal, a wait for a retirement, or a joined computation. */
  function Enter<K>(t: Table<K>, maxInFlight: nat, key: K): (Admission, Table<K>) {
    if key in t.inFlight then
      var r := t.inFlight[key];
      if r.retiring then (Blocked(r.id), t)
      else (Joined(r.id), t.(inFlight := t.inFlight[key := r.(waiters := r.waiters + 1)]))
    else if |t.inFlight| >= maxInFlight then (Refused, t)
    else (Joined(t.nextId), Table(t.inFlight[key := Record(t.nextId, 1, false)], t.nextId + 1))
  }

  /** A waiter leaves: the last one removes a finished record or starts retiring a running one. */
  function Release<K>(t: Table<K>, key: K, id: nat, taskDone: bool): (Departure, Table<K>) {
    if key !in t.inFlight || t.inFlight[key].id != id then (Mismatch, t)
    else
      var r := t.inFlight[key].(waiters := t.inFlight[key].waiters - 1);
      if r.waiters != 0 then (Stays, t.(inFlight := t.inFlight[key := r]))
      else if taskDone then (Removed, t.(inFlight := t.inFlight - {key}))
      else (Retires, t.(inFlight := t.inFlight[key := r.(retiring := true)]))
  }

  /** A retirement ends: the record goes, if it is still the one in the table. */
  function Retire<K>(t: Table<K>, key: K, id: nat): Table<K> {
    if key in t.inFlight && t.inFlight[key].id == id then t.(inFlight := t.inFlight - {key}) else t
  }

  // ---------- callers and computations around the table ----------

  datatype Outcome<V> = Running | Succeeded(tile: V) | Failed

  datatype Task<K, V> = Task(key: K, outcome: Outcome<V>)

  /** What a normal return rests on: a live entry of the store, or a finished computation. */
  datatype Basis = FromStore(at: real) | FromTask(id: nat)

  /** What an exception rests on: a full table, a cancellation of the caller, or a failed computation. */
  datatype Cause = AtCapacity | Cancelled | TaskFailed(id: nat)

  /** A caller suspended on a computation, on a retirement, on its own clean-up, or finished. */
  datatype Call<K, V> =
    | Awaiting(key: K, id: nat)
    | Suspended(key: K, id: nat)
    | Draining(key: K, id: nat)
    | Returned(key: K, tile: V, basis: Basis)
    | Raised(key: K, cause: Cause)
  {
    predicate Pending() {
      Awaiting? || Suspended? || Draining?
    }
  }

  datatype Flight<K, V> = Flight(
    table: Table<K>,
    tasks: map<nat, Task<K, V>>,
    retired: set<nat>,
    callers: map<nat, Call<K, V>>)

  predicate Done<K, V>(f: Flight<K, V>, id: nat) {
    id in f.tasks && !f.tasks[id].outcome.Running?
  }

  /** The record of this computation is the one in the table under its key. */
  predicate InTable<K, V>(f: Flight<K, V>, id: nat) {
    id in f.tasks && f.tasks[id].key in f.table.inFlight && f.table.inFlight[f.tasks[id].key].id == id
  }

  function RecordOf<K, V>(f: Flight<K, V>, id: nat): Record
    requires InTable(f, id)
  {
    f.table.inFlight[f.tasks[id].key]
  }

  predicate IsIdle<K, V>(f: Flight<K, V>, c: nat) {
    c !in f.callers || f.callers[c].Suspended?
  }

  /** A caller that was answered by the store, refused, or cancelled while blocked. */
  function Settle<K, V>(f: Flight<K, V>, c: nat, call: Call<K, V>): Flight<K, V> {
    f.(callers := f.callers[c := call])
  }

  /** A caller whose lookup missed the store enters the table. */
  function Entering<K, V>(f: Flight<K, V>, maxInFlight: nat, c: nat, key: K): Flight<K, V> {
    var (admission, table) := Enter(f.table, maxInFlight, key);
    match admission
    case Refused => Settle(f, c, Raised(key, AtCapacity))
    case Blocked(id) => Settle(f, c, Suspended(key, id))
    case Joined(id) =>
      f.(table := table,
      tasks := if id in f.tasks then f.tasks else f.tasks[id := Task(key, Running)],
      callers := f.callers[c := Awaiting(key, id)])
  }

  /** A resumed or cancelled waiter releases its record; the last one out of a running computation drains it. */
  function Leaving<K, V>(f: Flight<K, V>, c: nat, after: Call<K, V>): Flight<K, V>
    requires c in f.callers && f.callers[c].Awaiting?
  {
    var Awaiting(key, id) := f.callers[c];
    var (departure, table) := Release(f.table, key, id, Done(f, id));
    f.(table := table, callers := f.callers[c := if departure.Retires? then Draining(key, id) else after])
  }

  function Answer<K, V>(key: K, id: nat, outcome: Outcome<V>): Call<K, V> {
    if outcome.Succeeded? then Returned(key, outcome.tile, FromTask(id)) else Raised(key, TaskFailed(id))
  }

  /** A caller that awaits a finished computation is answered; awaiting one that is finished does not suspend. */
  function Resuming<K, V>(f: Flight<K, V>, c: nat): Flight<K, V> {
    if c in f.callers && f.callers[c].Awaiting? && Done(f, f.callers[c].id) then
      Leaving(f, c, Answer(f.callers[c].key, f.callers[c].id, f.tasks[f.callers[c].id].outcome))
    else f
  }

  function Concluding<K, V>(f: Flight<K, V>, id: nat, outcome: Outcome<V>): Flight<K, V>
    requires id in f.tasks
  {
    f.(tasks := f.tasks[id := Task(f.tasks[id].key, outcome)])
  }

  function Retiring<K, V>(f: Flight<K, V>, id: nat): Flight<K, V>
    requires id in f.tasks
  {
    f.(table := Retire(f.table, f.tasks[id].key, id), retired := f.retired + {id})
  }

  // ---------- the invariant ----------

  function Awaiters<K, V>(callers: map<nat, Call<K, V>>, id: nat): set<nat> {
    set c | c in callers && callers[c].Awaiting? && callers[c].id == id
  }

  ghost predicate WellFormed<K, V>(f: Flight<K, V>) {
    && (forall id :: id in f.tasks ==> id < f.table.nextId)
    && (forall k :: k in f.table.inFlight ==>
          f.table.inFlight[k].id in f.tasks && f.tasks[f.table.inFlight[k].id].key == k)
    && (forall c :: c in f.callers && f.callers[c].Pending() ==>
          f.callers[c].id in f.tasks && f.tasks[f.callers[c].id].key == f.callers[c].key)
  }

  /** Every running computation is the one recorded under its key. */
  ghost predicate RunningIsRecorded<K, V>(f: Flight<K, V>) {
    forall id :: id in f.tasks && f.tasks[id].outcome.Running? ==> InTable(f, id)
  }

  /** The waiter count of a record is the number of callers suspended on it. */
  ghost predicate WaitersCounted<K, V>(f: Flight<K, V>) {
    forall k :: k in f.table.inFlight ==> f.table.inFlight[k].waiters == |Awaiters(f.callers, f.table.inFlight[k].id)|
  }

  /** A caller suspended on a record finds that record in the table, and not retiring. */
  ghost predicate AwaitedIsRecorded<K, V>(f: Flight<K, V>) {
    forall c :: c in f.callers && f.callers[c].Awaiting? ==>
      InTable(f, f.callers[c].id) && !RecordOf(f, f.callers[c].id).retiring
  }

  ghost predicate HasDrainer<K, V>(f: Flight<K, V>, id: nat) {
    exists c :: c in f.callers && f.callers[c].Draining? && f.callers[c].id == id
  }

  /** No record is orphaned: it has a waiter, or it is retiring under a caller that stays for it. */
  ghost predicate NoOrphan<K, V>(f: Flight<K, V>) {
    forall k :: k in f.table.inFlight ==>
      var r := f.table.inFlight[k];
      if r.retiring then r.waiters == 0 && HasDrainer(f, r.id) else r.waiters > 0
  }

  /** Callers blocked on a retirement, and the caller draining it, wait for one that is under way. */
  ghost predicate RetirementPending<K, V>(f: Flight<K, V>) {
    forall c ::
      c in f.callers && (f.callers[c].Suspended? || f.callers[c].Draining?) && f.callers[c].id !in f.retired ==>
      InTable(f, f.callers[c].id) && RecordOf(f, f.callers[c].id).retiring
  }

  /** A retirement has ended only after the computation finished and its record left the table. */
  ghost predicate RetiredIsGone<K, V>(f: Flight<K, V>) {
    forall id :: id in f.retired ==> Done(f, id) && !InTable(f, id)
  }

  ghost predicate Linked<K, V>(f: Flight<K, V>) {
    && WellFormed(f)
    && RunningIsRecorded(f)
    && AwaitedIsRecorded(f)
    && RetirementPending(f)
    && RetiredIsGone(f)
  }

  ghost predicate FlightInv<K, V>(f: Flight<K, V>, maxInFlight: nat) {
    && Linked(f)
    && WaitersCounted(f)
    && NoOrphan(f)
    && |f.table.inFlight| <= maxInFlight
  }

  // ---------- every step keeps it ----------

  lemma {:induction false} AwaitersUpdate<K, V>(callers: map<nat, Call<K, V>>, c: nat, call: Call<K, V>, id: nat)
    ensures |Awaiters(callers[c := call], id)| ==
            |Awaiters(callers, id)| - (if c in Awaiters(callers, id) then 1 else 0)
                + (if call.Awaiting? && call.id == id then 1 else 0)
  {
    var before, now := Awaiters(callers, id), Awaiters(callers[c := call], id);
    var others := before - {c};
    assert before == if c in before then others + {c} else others;
    assert now == if call.Awaiting? && call.id == id then others + {c} else others;
  }

  lemma {:induction false} CountsAfter<K, V>(f: Flight<K, V>, t: Flight<K, V>, c: nat)
    requires c in t.callers && t.callers == f.callers[c := t.callers[c]]
    requires forall k :: k in t.table.inFlight ==>
               var id := t.table.inFlight[k].id;
               t.table.inFlight[k].waiters ==
                   |Awaiters(f.callers, id)| - (if c in Awaiters(f.callers, id) then 1 else 0)
                 + (if t.callers[c].Awaiting? && t.callers[c].id == id then 1 else 0)
    ensures WaitersCounted(t)
  {
    forall k | k in t.table.inFlight
      ensures t.table.inFlight[k].waiters == |Awaiters(t.callers, t.table.inFlight[k].id)|
    {
      AwaitersUpdate(f.callers, c, t.callers[c], t.table.inFlight[k].id);
    }
  }

  lemma {:induction false} SettleKeepsLinks<K, V>(f: Flight<K, V>, c: nat, call: Call<K, V>)
    requires Linked(f) && !call.Awaiting? && !call.Draining?
    requires call.Suspended? ==>
               InTable(f, call.id) && RecordOf(f, call.id).retiring && f.tasks[call.id].key == call.key
    ensures Linked(Settle(f, c, call))
  {
  }

  lemma {:induction false} SettleKeepsInv<K, V>(f: Flight<K, V>, maxInFlight: nat, c: nat, call: Call<K, V>)
    requires FlightInv(f, maxInFlight) && IsIdle(f, c) && !call.Awaiting? && !call.Draining?
    requires call.Suspended? ==>
               InTable(f, call.id) && RecordOf(f, call.id).retiring && f.tasks[call.id].key == call.key
    ensures FlightInv(Settle(f, c, call), maxInFlight)
  {
    var t := Settle(f, c, call);
    SettleKeepsLinks(f, c, call);
    CountsAfter(f, t, c);
    forall k | k in t.table.inFlight && t.table.inFlight[k].retiring ensures HasDrainer(t, t.table.inFlight[k].id) {
      var d :| d in f.callers && f.callers[d].Draining? && f.callers[d].id == t.table.inFlight[k].id;
      assert t.callers[d] == f.callers[d];
    }
  }

  /** A drainer of a computation is still one after another caller changed. */
  lemma {:induction false} DrainersStay<K, V>(f: Flight<K, V>, t: Flight<K, V>, c: nat, id: nat)
    requires c in t.callers && t.callers == f.callers[c := t.callers[c]]
    requires HasDrainer(f, id) && (c in f.callers && f.callers[c].Draining? ==> f.callers[c].id != id)
    ensures HasDrainer(t, id)
  {
    var d :| d in f.callers && f.callers[d].Draining? && f.callers[d].id == id;
    assert t.callers[d] == f.callers[d];
  }

  lemma {:induction false} JoinKeepsLinks<K, V>(f: Flight<K, V>, maxInFlight: nat, c: nat, key: K)
    requires Linked(f) && IsIdle(f, c)
    requires key in f.table.inFlight && !f.table.inFlight[key].retiring
    ensures Linked(Entering(f, maxInFlight, c, key))
  {
  }

  lemma {:induction false} JoinKeepsInv<K, V>(f: Flight<K, V>, maxInFlight: nat, c: nat, key: K)
    requires FlightInv(f, maxInFlight) && IsIdle(f, c)
    requires key in f.table.inFlight && !f.table.inFlight[key].retiring
    ensures FlightInv(Entering(f, maxInFlight, c, key), maxInFlight)
  {
    var t := Entering(f, maxInFlight, c, key);
    JoinKeepsLinks(f, maxInFlight, c, key);
    CountsAfter(f, t, c);
    assert t.table.inFlight.Keys == f.table.inFlight.Keys;
    forall k | k in t.table.inFlight && t.table.inFlight[k].retiring ensures HasDrainer(t, t.table.inFlight[k].id) {
      DrainersStay(f, t, c, t.table.inFlight[k].id);
    }
  }

  lemma {:induction false} StartKeepsForm<K, V>(f: Flight<K, V>, maxInFlight: nat, c: nat, key: K)
    requires Linked(f) && IsIdle(f, c)
    requires key !in f.table.inFlight && |f.table.inFlight| < maxInFlight
    ensures WellFormed(Entering(f, maxInFlight, c, key)) && RunningIsRecorded(Entering(f, maxInFlight, c, key))
  {
  }

  lemma {:induction false} StartKeepsWaits<K, V>(f: Flight<K, V>, maxInFlight: nat, c: nat, key: K)
    requires Linked(f) && IsIdle(f, c)
    requires key !in f.table.inFlight && |f.table.inFlight| < maxInFlight
    ensures AwaitedIsRecorded(Entering(f, maxInFlight, c, key))
    ensures RetirementPending(Entering(f, maxInFlight, c, key)) && RetiredIsGone(Entering(f, maxInFlight, c, key))
  {
  }

  lemma {:induction false} StartKeepsLinks<K, V>(f: Flight<K, V>, maxInFlight: nat, c: nat, key: K)
    requires Linked(f) && IsIdle(f, c)
    requires key !in f.table.inFlight && |f.table.inFlight| < maxInFlight
    ensures Linked(Entering(f, maxInFlight, c, key))
  {
    StartKeepsForm(f, maxInFlight, c, key);
    StartKeepsWaits(f, maxInFlight, c, key);
  }

  lemma {:induction false} StartKeepsInv<K, V>(f: Flight<K, V>, maxInFlight: nat, c: nat, key: K)
    requires FlightInv(f, maxInFlight) && IsIdle(f, c)
    requires key !in f.table.inFlight && |f.table.inFlight| < maxInFlight
    ensures FlightInv(Entering(f, maxInFlight, c, key), maxInFlight)
  {
    var t := Entering(f, maxInFlight, c, key);
    StartKeepsLinks(f, maxInFlight, c, key);
    assert Awaiters(f.callers, f.table.nextId) == {};
    CountsAfter(f, t, c);
    forall k | k in t.table.inFlight && t.table.inFlight[k].retiring ensures HasDrainer(t, t.table.inFlight[k].id) {
      DrainersStay(f, t, c, t.table.inFlight[k].id);
    }
  }

  lemma {:induction false} EnteringKeepsInv<K, V>(f: Flight<K, V>, maxInFlight: nat, c: nat, key: K)
    requires FlightInv(f, maxInFlight) && IsIdle(f, c)
    ensures FlightInv(Entering(f, maxInFlight, c, key), maxInFlight)
  {
    if key in f.table.inFlight {
      if f.table.inFlight[key].retiring {
        SettleKeepsInv(f, maxInFlight, c, Suspended(key, f.table.inFlight[key].id));
      } else {
        JoinKeepsInv(f, maxInFlight, c, key);
      }
    } else if |f.table.inFlight| >= maxInFlight {
      SettleKeepsInv(f, maxInFlight, c, Raised(key, AtCapacity));
    } else {
      StartKeepsInv(f, maxInFlight, c, key);
    }
  }

  /**
   A caller that missed the store shares the computation of its key if there is one, waits if that one
   is retiring, and otherwise starts one; it is refused only when the table is full of other keys.
   */
  lemma {:induction false} EnteringSharesOrStarts<K, V>(f: Flight<K, V>, maxInFlight: nat, c: nat, key: K)
    requires FlightInv(f, maxInFlight) && IsIdle(f, c)
    ensures var t := Entering(f, maxInFlight, c, key);
            var call, recorded := t.callers[c], key in f.table.inFlight;
            && (call.Raised? <==> !recorded && |f.table.inFlight| == maxInFlight)
            && (call.Suspended? <==> recorded && f.table.inFlight[key].retiring)
            && (call.Awaiting? ==> InTable(t, call.id) && t.tasks[call.id].key == key)
            && (recorded ==> t.tasks == f.tasks && (call.Awaiting? ==> call.id == f.table.inFlight[key].id))
            && (!recorded && call.Awaiting? ==>
                  call.id !in f.tasks && t.tasks == f.tasks[call.id := Task(key, Running)])
  {
  }

  /** The identity test of the release never fails: a waiter's record is always the one in the table. */
  lemma {:induction false} ReleaseNeverMismatches<K, V>(f: Flight<K, V>, maxInFlight: nat, c: nat)
    requires FlightInv(f, maxInFlight) && c in f.callers && f.callers[c].Awaiting?
    ensures Release(f.table, f.callers[c].key, f.callers[c].id, Done(f, f.callers[c].id)).0 != Mismatch
    ensures RecordOf(f, f.callers[c].id).waiters >= 1 && !RecordOf(f, f.callers[c].id).retiring
  {
    assert f.tasks[f.callers[c].id].key == f.callers[c].key;
  }

  /** When the count says one, the leaving caller is the only one suspended on the record. */
  lemma {:induction false} LastWaiterIsAlone<K, V>(f: Flight<K, V>, maxInFlight: nat, c: nat, d: nat)
    requires FlightInv(f, maxInFlight) && c in f.callers && f.callers[c].Awaiting?
    requires d in f.callers && f.callers[d].Awaiting? && f.callers[d].id == f.callers[c].id
    requires RecordOf(f, f.callers[c].id).waiters == 1
    ensures d == c
  {
    var id := f.callers[c].id;
    assert RecordOf(f, id).waiters == |Awaiters(f.callers, id)|;
    assert {c, d} <= Awaiters(f.callers, id);
    SubsetCount({c, d}, Awaiters(f.callers, id));
  }

  lemma {:induction false} LeavingAmongKeepsLinks<K, V>(f: Flight<K, V>, c: nat, after: Call<K, V>)
    requires Linked(f) && c in f.callers && f.callers[c].Awaiting? && !after.Pending()
    requires RecordOf(f, f.callers[c].id).waiters != 1
    ensures Linked(Leaving(f, c, after))
  {
  }

  lemma {:induction false} LeavingLastKeepsLinks<K, V>(f: Flight<K, V>, c: nat, after: Call<K, V>)
    requires Linked(f) && c in f.callers && f.callers[c].Awaiting? && !after.Pending()
    requires RecordOf(f, f.callers[c].id).waiters == 1
    requires forall d :: d in f.callers && f.callers[d].Awaiting? && f.callers[d].id == f.callers[c].id ==> d == c
    ensures Linked(Leaving(f, c, after))
  {
    var t, id := Leaving(f, c, after), f.callers[c].id;
    forall d | d in t.callers && t.callers[d].Awaiting?
      ensures InTable(t, t.callers[d].id) && !RecordOf(t, t.callers[d].id).retiring
    {
      assert f.callers[d].id != id;
    }
  }

  lemma {:induction false} LeavingKeepsLinks<K, V>(f: Flight<K, V>, maxInFlight: nat, c: nat, after: Call<K, V>)
    requires FlightInv(f, maxInFlight) && c in f.callers && f.callers[c].Awaiting? && !after.Pending()
    ensures Linked(Leaving(f, c, after))
  {
    if RecordOf(f, f.callers[c].id).waiters == 1 {
      forall d | d in f.callers && f.callers[d].Awaiting? && f.callers[d].id == f.callers[c].id ensures d == c {
        LastWaiterIsAlone(f, maxInFlight, c, d);
      }
      LeavingLastKeepsLinks(f, c, after);
    } else {
      LeavingAmongKeepsLinks(f, c, after);
    }
  }

  lemma {:induction false} LeavingKeepsRecords<K, V>(f: Flight<K, V>, maxInFlight: nat, c: nat, after: Call<K, V>)
    requires FlightInv(f, maxInFlight) && c in f.callers && f.callers[c].Awaiting?
    requires !after.Pending()
    ensures NoOrphan(Leaving(f, c, after))
  {
    var t := Leaving(f, c, after);
    ReleaseNeverMismatches(f, maxInFlight, c);
    forall k | k in t.table.inFlight && t.table.inFlight[k].retiring ensures HasDrainer(t, t.table.inFlight[k].id) {
      if f.table.inFlight[k].retiring {
        DrainersStay(f, t, c, t.table.inFlight[k].id);
      } else {
        assert t.callers[c].Draining?;
      }
    }
  }

  lemma {:induction false} LeavingKeepsCounts<K, V>(f: Flight<K, V>, maxInFlight: nat, c: nat, after: Call<K, V>)
    requires FlightInv(f, maxInFlight) && c in f.callers && f.callers[c].Awaiting?
    requires !after.Pending()
    ensures WaitersCounted(Leaving(f, c, after))
    ensures Leaving(f, c, after).table.inFlight.Keys <= f.table.inFlight.Keys
  {
    ReleaseNeverMismatches(f, maxInFlight, c);
    CountsAfter(f, Leaving(f, c, after), c);
  }

  lemma {:induction false} LeavingKeepsInv<K, V>(f: Flight<K, V>, maxInFlight: nat, c: nat, after: Call<K, V>)
    requires FlightInv(f, maxInFlight) && c in f.callers && f.callers[c].Awaiting?
    requires !after.Pending()
    ensures FlightInv(Leaving(f, c, after), maxInFlight)
  {
    LeavingKeepsLinks(f, maxInFlight, c, after);
    LeavingKeepsRecords(f, maxInFlight, c, after);
    LeavingKeepsCounts(f, maxInFlight, c, after);
    SubsetCount(Leaving(f, c, after).table.inFlight.Keys, f.table.inFlight.Keys);
  }

  lemma {:induction false} ResumingKeepsInv<K, V>(f: Flight<K, V>, maxInFlight: nat, c: nat)
    requires FlightInv(f, maxInFlight)
    ensures FlightInv(Resuming(f, c), maxInFlight)
  {
    if c in f.callers && f.callers[c].Awaiting? && Done(f, f.callers[c].id) {
      LeavingKeepsInv(f, maxInFlight, c, Answer(f.callers[c].key, f.callers[c].id, f.tasks[f.callers[c].id].outcome));
    }
  }

  lemma {:induction false} ConcludingKeepsInv<K, V>(f: Flight<K, V>, maxInFlight: nat, id: nat, outcome: Outcome<V>)
    requires FlightInv(f, maxInFlight) && id in f.tasks && !outcome.Running?
    ensures FlightInv(Concluding(f, id, outcome), maxInFlight)
  {
    var t := Concluding(f, id, outcome);
    forall k | k in t.table.inFlight && t.table.inFlight[k].retiring ensures HasDrainer(t, t.table.inFlight[k].id) {
      assert HasDrainer(f, f.table.inFlight[k].id);
    }
  }

  lemma {:induction false} RetiringKeepsLinks<K, V>(f: Flight<K, V>, id: nat)
    requires Linked(f) && Done(f, id) && InTable(f, id) && RecordOf(f, id).retiring
    ensures Linked(Retiring(f, id))
  {
  }

  lemma {:induction false} RetiringKeepsInv<K, V>(f: Flight<K, V>, maxInFlight: nat, id: nat)
    requires FlightInv(f, maxInFlight) && Done(f, id) && InTable(f, id) && RecordOf(f, id).retiring
    ensures FlightInv(Retiring(f, id), maxInFlight)
  {
    var t := Retiring(f, id);
    RetiringKeepsLinks(f, id);
    assert t.table.inFlight.Keys == f.table.inFlight.Keys - {f.tasks[id].key};
    forall k | k in t.table.inFlight && t.table.inFlight[k].retiring ensures HasDrainer(t, t.table.inFlight[k].id) {
      assert HasDrainer(f, f.table.inFlight[k].id);
    }
  }

  lemma {:induction false} DrainedKeepsInv<K, V>(f: Flight<K, V>, maxInFlight: nat, c: nat, call: Call<K, V>)
    requires FlightInv(f, maxInFlight) && c in f.callers && f.callers[c].Draining? && f.callers[c].id in f.retired
    requires !call.Pending()
    ensures FlightInv(Settle(f, c, call), maxInFlight)
  {
    var t := Settle(f, c, call);
    CountsAfter(f, t, c);
    forall k | k in t.table.inFlight && t.table.inFlight[k].retiring ensures HasDrainer(t, t.table.inFlight[k].id) {
      assert !InTable(f, f.callers[c].id);
      DrainersStay(f, t, c, t.table.inFlight[k].id);
    }
  }

  // ---------- what the invariant says ----------

  ghost function RunningTasks<K, V>(f: Flight<K, V>): set<nat> {
    set id | id in f.tasks && f.tasks[id].outcome.Running?
  }

  /** No key has two running computations, and at most `maxInFlight` computations run. */
  lemma {:induction false} SingleFlight<K, V>(f: Flight<K, V>, maxInFlight: nat)
    requires FlightInv(f, maxInFlight)
    ensures forall i, j :: i in RunningTasks(f) && j in RunningTasks(f) && f.tasks[i].key == f.tasks[j].key ==> i == j
    ensures |RunningTasks(f)| <= |f.table.inFlight| <= maxInFlight
  {
    var keys := f.table.inFlight.Keys;
    var ids := set k | k in keys :: f.table.inFlight[k].id;
    ImageIsNoLarger(keys, f.table.inFlight);
    assert RunningTasks(f) <= ids by {
      forall id | id in RunningTasks(f) ensures id in ids {
        assert InTable(f, id);
      }
    }
    SubsetCount(RunningTasks(f), ids);
  }

  lemma {:induction false} ImageIsNoLarger<K>(keys: set<K>, records: map<K, Record>)
    requires keys <= records.Keys
    ensures |set k | k in keys :: records[k].id| <= |keys|
  {
    if keys != {} {
      var one :| one in keys;
      ImageIsNoLarger(keys - {one}, records);
      var rest := set k | k in keys - {one} :: records[k].id;
      assert (set k | k in keys :: records[k].id) == rest + {records[one].id};
    }
  }

  /**
   Nobody waits for something that cannot happen. A waiter's computation is running or ready for it;
   a caller blocked on a retirement, and the one draining it, wait for a retirement that has ended,
   or can end now, or whose computation still runs.
   */
  lemma {:induction false} NobodyIsStranded<K, V>(f: Flight<K, V>, maxInFlight: nat, c: nat)
    requires FlightInv(f, maxInFlight) && c in f.callers && f.callers[c].Pending()
    ensures var id := f.callers[c].id;
            || f.tasks[id].outcome.Running?
            || (f.callers[c].Awaiting? && Done(f, id) && InTable(f, id))
            || (!f.callers[c].Awaiting? && id in f.retired && Done(f, id) && !InTable(f, id))
            || (!f.callers[c].Awaiting? && Done(f, id) && InTable(f, id) && RecordOf(f, id).retiring)
  {
  }
}
