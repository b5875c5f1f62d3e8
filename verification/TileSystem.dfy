/**
 The whole tile cache under every interleaving: the store, the single-flight table, the callers,
 the computations and the clock. A run is any sequence of enabled events.
 */
module TileSystem {
  import opened Wrappers
  import opened TileStore
  import opened TileFlight

  /** The bounds, and the size the cache charges for a tile under a key. */
  datatype Config<!K, !V> = Config(limits: Limits, size: (K, V) -> nat)

  /** A successful computation handing its tile to the store. */
  datatype Stored<K, V> = Stored(id: nat, key: K, tile: V, at: real)

  datatype System<K, V> = System(
    slots: seq<Slot<K, V>>,
    stores: seq<Stored<K, V>>,
    clock: real,
    flight: Flight<K, V>)

  datatype Event<K, V> =
    | Arrive(caller: nat, key: K)
    | Wake(caller: nat)
    | Finish(id: nat, tile: V)
    | Fail(id: nat)
    | Resume(caller: nat)
    | Cancel(caller: nat)
    | EndRetirement(id: nat)
    | EndDraining(caller: nat)
    | Tick(delta: real)

  function Init<K, V>(): System<K, V> {
    System([], [], 0.0, Flight(Table(map[], 0), map[], {}, map[]))
  }

  predicate Enabled<K, V>(s: System<K, V>, e: Event<K, V>) {
    var f := s.flight;
    match e
    case Arrive(c, key) => c !in f.callers
    case Wake(c) => c in f.callers && f.callers[c].Suspended? && f.callers[c].id in f.retired
    case Finish(id, _) => id in f.tasks && f.tasks[id].outcome.Running?
    case Fail(id) => id in f.tasks && f.tasks[id].outcome.Running?
    case Resume(c) => c in f.callers && f.callers[c].Awaiting? && Done(f, f.callers[c].id)
    case Cancel(c) => c in f.callers && f.callers[c].Pending()
    case EndRetirement(id) => Done(f, id) && InTable(f, id) && RecordOf(f, id).retiring
    case EndDraining(c) => c in f.callers && f.callers[c].Draining? && f.callers[c].id in f.retired
    case Tick(delta) => delta >= 0.0
  }

  /**
   One pass of the lookup loop: the store answers, or the caller enters the single-flight table, and is
   answered at once if the computation it finds there is finished.
   */
  function LookUp<K, V>(s: System<K, V>, limits: Limits, c: nat, key: K): System<K, V> {
    var (hit, slots) := Touch(s.slots, key, s.clock);
    s.(slots := slots,
    flight := match hit
              case Some(tile) => Settle(s.flight, c, Returned(key, tile, FromStore(s.clock)))
              case None => Resuming(Entering(s.flight, limits.maxInFlight, c, key), c))
  }

  function Step<K, V>(s: System<K, V>, cfg: Config<K, V>, e: Event<K, V>): System<K, V>
    requires Enabled(s, e)
  {
    var f := s.flight;
    match e
    case Arrive(c, key) => LookUp(s, cfg.limits, c, key)
    case Wake(c) => LookUp(s, cfg.limits, c, f.callers[c].key)
    case Finish(id, tile) =>
      var key := f.tasks[id].key;
      s.(slots := Put(s.slots, cfg.limits, key, tile, cfg.size(key, tile), s.clock),
      stores := s.stores + [Stored(id, key, tile, s.clock)],
      flight := Concluding(f, id, Succeeded(tile)))
    case Fail(id) => s.(flight := Concluding(f, id, Failed))
    case Resume(c) => s.(flight := Resuming(f, c))
    case Cancel(c) =>
      if f.callers[c].Awaiting? then s.(flight := Leaving(f, c, Raised(f.callers[c].key, Cancelled)))
      else if f.callers[c].Suspended? then s.(flight := Settle(f, c, Raised(f.callers[c].key, Cancelled)))
      else s
    case EndRetirement(id) => s.(flight := Retiring(f, id))
    case EndDraining(c) => s.(flight := Settle(f, c, Raised(f.callers[c].key, Cancelled)))
    case Tick(delta) => s.(clock := s.clock + delta)
  }

  predicate CanRun<K, V>(s: System<K, V>, cfg: Config<K, V>, events: seq<Event<K, V>>)
    decreases |events|
  {
    events == [] || (Enabled(s, events[0]) && CanRun(Step(s, cfg, events[0]), cfg, events[1..]))
  }

  function Run<K, V>(s: System<K, V>, cfg: Config<K, V>, events: seq<Event<K, V>>): System<K, V>
    requires CanRun(s, cfg, events)
    decreases |events|
  {
    if events == [] then s else Run(Step(s, cfg, events[0]), cfg, events[1..])
  }

  // ---------- the invariant: where every tile comes from ----------

  predicate IsStored<K(==), V(==)>(st: Stored<K, V>, key: K, tile: V) {
    st.key == key && st.tile == tile
  }

  /** A slot holds the tile of a recorded computation, and expires one time-to-live after it was stored. */
  ghost predicate Backed<K, V>(slot: Slot<K, V>, stores: seq<Stored<K, V>>, ttl: real) {
    exists st :: st in stores && IsStored(st, slot.key, slot.entry.tile) && slot.entry.expiresAt == st.at + ttl
  }

  ghost predicate SlotsBacked<K, V>(s: System<K, V>, ttl: real) {
    forall slot :: slot in s.slots ==> Backed(slot, s.stores, ttl)
  }

  /** Only computations that succeeded have stored a tile. */
  ghost predicate StoresSucceeded<K, V>(s: System<K, V>) {
    forall st :: st in s.stores ==>
      st.at <= s.clock && st.id in s.flight.tasks && s.flight.tasks[st.id] == Task(st.key, Succeeded(st.tile))
  }

  /** A hit at this time rests on a tile stored less than a time-to-live before. */
  ghost predicate FreshHit<K, V>(key: K, tile: V, at: real, stores: seq<Stored<K, V>>, ttl: real) {
    exists st :: st in stores && IsStored(st, key, tile) && at - st.at < ttl
  }

  /** If this call was answered from the store, it was a hit in time. */
  ghost predicate RestsOnFreshHit<K, V>(call: Call<K, V>, stores: seq<Stored<K, V>>, ttl: real) {
    call.Returned? && call.basis.FromStore? ==> FreshHit(call.key, call.tile, call.basis.at, stores, ttl)
  }

  /** A normal return rests on a fresh entry or a successful computation, a failure on a failed one. */
  ghost predicate AnswerJustified<K, V>(call: Call<K, V>, s: System<K, V>, ttl: real) {
    match call
    case Returned(key, tile, FromStore(at)) => FreshHit(key, tile, at, s.stores, ttl)
    case Returned(key, tile, FromTask(id)) => id in s.flight.tasks && s.flight.tasks[id] == Task(key, Succeeded(tile))
    case Raised(key, TaskFailed(id)) => id in s.flight.tasks && s.flight.tasks[id] == Task(key, Failed)
    case _ => true
  }

  ghost predicate AnswersJustified<K, V>(s: System<K, V>, ttl: real) {
    forall c :: c in s.flight.callers ==> AnswerJustified(s.flight.callers[c], s, ttl)
  }

  ghost predicate Provenance<K, V>(s: System<K, V>, ttl: real) {
    SlotsBacked(s, ttl) && StoresSucceeded(s) && AnswersJustified(s, ttl)
  }

  ghost predicate Inv<K, V>(s: System<K, V>, cfg: Config<K, V>) {
    && cfg.limits.Valid()
    && FlightInv(s.flight, cfg.limits.maxInFlight)
    && StoreValid(s.slots, cfg.limits)
    && Provenance(s, cfg.limits.ttl)
  }

  // ---------- provenance is kept ----------

  /** Provenance survives any step that keeps the store and finished computations and adds justified answers. */
  lemma {:induction false} ProvenanceFrame<K, V>(s: System<K, V>, t: System<K, V>, ttl: real)
    requires Provenance(s, ttl)
    requires forall slot :: slot in t.slots ==> slot in s.slots
    requires t.stores == s.stores && s.clock <= t.clock
    requires forall id :: id in s.flight.tasks && !s.flight.tasks[id].outcome.Running? ==>
               id in t.flight.tasks && t.flight.tasks[id] == s.flight.tasks[id]
    requires forall c :: c in t.flight.callers ==>
               (c in s.flight.callers && t.flight.callers[c] == s.flight.callers[c])
                   || AnswerJustified(t.flight.callers[c], t, ttl)
    ensures Provenance(t, ttl)
  {
    forall c | c in t.flight.callers ensures AnswerJustified(t.flight.callers[c], t, ttl) {
      if c in s.flight.callers && t.flight.callers[c] == s.flight.callers[c] {
        assert AnswerJustified(s.flight.callers[c], s, ttl);
      }
    }
  }

  lemma {:induction false} HitIsFresh<K, V>(s: System<K, V>, ttl: real, key: K)
    requires SlotsBacked(s, ttl) && Touch(s.slots, key, s.clock).0.Some?
    ensures FreshHit(key, Touch(s.slots, key, s.clock).0.value, s.clock, s.stores, ttl)
  {
    var slot := s.slots[Find(s.slots, key)];
    assert Backed(slot, s.stores, ttl);
    var st :| st in s.stores && IsStored(st, slot.key, slot.entry.tile) && slot.entry.expiresAt == st.at + ttl;
    assert s.clock - st.at < ttl;
  }

  /** What a waiter is answered is what its computation came to. */
  lemma {:induction false} ResumingKeepsProvenance<K, V>(s: System<K, V>, ttl: real, c: nat)
    requires Provenance(s, ttl) && WellFormed(s.flight)
    ensures Provenance(s.(flight := Resuming(s.flight, c)), ttl)
  {
    ProvenanceFrame(s, s.(flight := Resuming(s.flight, c)), ttl);
  }

  lemma {:induction false} HitKeepsProvenance<K, V>(s: System<K, V>, cfg: Config<K, V>, c: nat, key: K)
    requires Provenance(s, cfg.limits.ttl) && DistinctKeys(s.slots) && Touch(s.slots, key, s.clock).0.Some?
    ensures Provenance(LookUp(s, cfg.limits, c, key), cfg.limits.ttl)
  {
    var t := LookUp(s, cfg.limits, c, key);
    forall slot | slot in t.slots ensures slot in s.slots {
      TouchMembers(s.slots, key, s.clock, slot);
    }
    HitIsFresh(s, cfg.limits.ttl, key);
    ProvenanceFrame(s, t, cfg.limits.ttl);
  }

  lemma {:induction false} MissKeepsProvenance<K, V>(s: System<K, V>, cfg: Config<K, V>, c: nat, key: K)
    requires Provenance(s, cfg.limits.ttl) && DistinctKeys(s.slots) && WellFormed(s.flight) && IsIdle(s.flight, c)
    ensures Provenance(s.(slots := Touch(s.slots, key, s.clock).1,
                          flight := Entering(s.flight, cfg.limits.maxInFlight, c, key)), cfg.limits.ttl)
  {
    var t := s.(slots := Touch(s.slots, key, s.clock).1,
                flight := Entering(s.flight, cfg.limits.maxInFlight, c, key));
    forall slot | slot in t.slots ensures slot in s.slots {
      TouchMembers(s.slots, key, s.clock, slot);
    }
    ProvenanceFrame(s, t, cfg.limits.ttl);
  }

  lemma {:induction false} LookUpKeepsProvenance<K, V>(s: System<K, V>, cfg: Config<K, V>, c: nat, key: K)
    requires Inv(s, cfg) && IsIdle(s.flight, c)
    ensures Provenance(LookUp(s, cfg.limits, c, key), cfg.limits.ttl)
  {
    if Touch(s.slots, key, s.clock).0.Some? {
      HitKeepsProvenance(s, cfg, c, key);
    } else {
      MissKeepsProvenance(s, cfg, c, key);
      EnteringKeepsInv(s.flight, cfg.limits.maxInFlight, c, key);
      ResumingKeepsProvenance(s.(slots := Touch(s.slots, key, s.clock).1,
                                 flight := Entering(s.flight, cfg.limits.maxInFlight, c, key)), cfg.limits.ttl, c);
    }
  }

  lemma {:induction false} FinishKeepsProvenance<K, V>(s: System<K, V>, cfg: Config<K, V>, id: nat, tile: V)
    requires Inv(s, cfg) && Enabled(s, Finish(id, tile))
    ensures Provenance(Step(s, cfg, Finish(id, tile)), cfg.limits.ttl)
  {
    var t, key, ttl := Step(s, cfg, Finish(id, tile)), s.flight.tasks[id].key, cfg.limits.ttl;
    var added := Stored(id, key, tile, s.clock);
    assert added in t.stores;
    forall slot | slot in t.slots ensures Backed(slot, t.stores, ttl) {
      PutMembers(s.slots, cfg.limits, key, tile, cfg.size(key, tile), s.clock, slot);
      if slot in s.slots {
        var st :| st in s.stores && IsStored(st, slot.key, slot.entry.tile) && slot.entry.expiresAt == st.at + ttl;
        assert st in t.stores;
      } else {
        assert IsStored(added, slot.key, slot.entry.tile);
      }
    }
    forall c | c in t.flight.callers ensures AnswerJustified(t.flight.callers[c], t, ttl) {
      var call := s.flight.callers[c];
      assert AnswerJustified(call, s, ttl);
      if call.Returned? && call.basis.FromStore? {
        var st :| st in s.stores && IsStored(st, call.key, call.tile) && call.basis.at - st.at < ttl;
        assert st in t.stores;
      }
    }
  }

  // ---------- every step and every run keep the invariant ----------

  lemma {:induction false} StepKeepsFlight<K, V>(s: System<K, V>, cfg: Config<K, V>, e: Event<K, V>)
    requires Inv(s, cfg) && Enabled(s, e)
    ensures FlightInv(Step(s, cfg, e).flight, cfg.limits.maxInFlight)
  {
    var f, max := s.flight, cfg.limits.maxInFlight;
    match e
    case Arrive(c, key) => LookUpKeepsFlight(s, cfg, c, key);
    case Wake(c) => LookUpKeepsFlight(s, cfg, c, f.callers[c].key);
    case Finish(id, tile) => ConcludingKeepsInv(f, max, id, Succeeded(tile));
    case Fail(id) => ConcludingKeepsInv(f, max, id, Failed);
    case Resume(c) => ResumingKeepsInv(f, max, c);
    case Cancel(c) =>
      if f.callers[c].Awaiting? {
        LeavingKeepsInv(f, max, c, Raised(f.callers[c].key, Cancelled));
      } else if f.callers[c].Suspended? {
        SettleKeepsInv(f, max, c, Raised(f.callers[c].key, Cancelled));
      }
    case EndRetirement(id) => RetiringKeepsInv(f, max, id);
    case EndDraining(c) => DrainedKeepsInv(f, max, c, Raised(f.callers[c].key, Cancelled));
    case Tick(delta) =>
  }

  lemma {:induction false} LookUpKeepsFlight<K, V>(s: System<K, V>, cfg: Config<K, V>, c: nat, key: K)
    requires Inv(s, cfg) && IsIdle(s.flight, c)
    ensures FlightInv(LookUp(s, cfg.limits, c, key).flight, cfg.limits.maxInFlight)
  {
    match Touch(s.slots, key, s.clock).0
    case Some(tile) => SettleKeepsInv(s.flight, cfg.limits.maxInFlight, c, Returned(key, tile, FromStore(s.clock)));
    case None =>
      EnteringKeepsInv(s.flight, cfg.limits.maxInFlight, c, key);
      ResumingKeepsInv(Entering(s.flight, cfg.limits.maxInFlight, c, key), cfg.limits.maxInFlight, c);
  }

  lemma {:induction false} StepKeepsStore<K, V>(s: System<K, V>, cfg: Config<K, V>, e: Event<K, V>)
    requires Inv(s, cfg) && Enabled(s, e)
    ensures StoreValid(Step(s, cfg, e).slots, cfg.limits)
  {
    match e
    case Arrive(c, key) => TouchKeepsStore(s.slots, cfg.limits, key, s.clock);
    case Wake(c) => TouchKeepsStore(s.slots, cfg.limits, s.flight.callers[c].key, s.clock);
    case Finish(id, tile) =>
      var key := s.flight.tasks[id].key;
      var _ := PutKeepsLongestSuffix(s.slots, cfg.limits, key, tile, cfg.size(key, tile), s.clock);
    case _ =>
  }

  /** Failures, cancellations, ends of clean-ups and time bring in no tile. */
  lemma {:induction false} OthersKeepProvenance<K, V>(s: System<K, V>, cfg: Config<K, V>, e: Event<K, V>)
    requires Inv(s, cfg) && Enabled(s, e)
    requires e.Fail? || e.Cancel? || e.EndRetirement? || e.EndDraining? || e.Tick?
    ensures Provenance(Step(s, cfg, e), cfg.limits.ttl)
  {
    ProvenanceFrame(s, Step(s, cfg, e), cfg.limits.ttl);
  }

  lemma {:induction false} StepKeepsProvenance<K, V>(s: System<K, V>, cfg: Config<K, V>, e: Event<K, V>)
    requires Inv(s, cfg) && Enabled(s, e)
    ensures Provenance(Step(s, cfg, e), cfg.limits.ttl)
  {
    match e
    case Arrive(c, key) => LookUpKeepsProvenance(s, cfg, c, key);
    case Wake(c) => LookUpKeepsProvenance(s, cfg, c, s.flight.callers[c].key);
    case Finish(id, tile) => FinishKeepsProvenance(s, cfg, id, tile);
    case Resume(c) => ResumingKeepsProvenance(s, cfg.limits.ttl, c);
    case _ => OthersKeepProvenance(s, cfg, e);
  }

  lemma {:induction false} StepKeepsInv<K, V>(s: System<K, V>, cfg: Config<K, V>, e: Event<K, V>)
    requires Inv(s, cfg) && Enabled(s, e)
    ensures Inv(Step(s, cfg, e), cfg)
  {
    StepKeepsFlight(s, cfg, e);
    StepKeepsStore(s, cfg, e);
    StepKeepsProvenance(s, cfg, e);
  }

  lemma {:induction false} RunKeepsInv<K, V>(s: System<K, V>, cfg: Config<K, V>, events: seq<Event<K, V>>)
    requires Inv(s, cfg) && CanRun(s, cfg, events)
    ensures Inv(Run(s, cfg, events), cfg)
    decreases |events|
  {
    if events != [] {
      StepKeepsInv(s, cfg, events[0]);
      RunKeepsInv(Step(s, cfg, events[0]), cfg, events[1..]);
    }
  }

  // ---------- the promises of the cache, over every run from an empty one ----------

  /** In every reachable state one computation runs per key, and at most the allowed number run. */
  lemma {:induction false} SingleFlightOverRuns<K, V>(cfg: Config<K, V>, events: seq<Event<K, V>>)
    requires cfg.limits.Valid() && CanRun(Init(), cfg, events)
    ensures var f := Run(Init(), cfg, events).flight;
            && (forall i, j ::
                  i in RunningTasks(f) && j in RunningTasks(f) && f.tasks[i].key == f.tasks[j].key ==> i == j)
            && |RunningTasks(f)| <= cfg.limits.maxInFlight
            && FlightInv(f, cfg.limits.maxInFlight)
  {
    RunKeepsInv(Init(), cfg, events);
    SingleFlight(Run(Init(), cfg, events).flight, cfg.limits.maxInFlight);
  }

  /** The cache refines direct computation: a caller that returns normally returns what computing its key gives. */
  lemma {:induction false} RefinesDirectComputation<K, V>(cfg: Config<K, V>, events: seq<Event<K, V>>, compute: K -> V,
      c: nat)
    requires cfg.limits.Valid() && CanRun(Init(), cfg, events)
    requires var tasks := Run(Init(), cfg, events).flight.tasks;
             forall id :: id in tasks && tasks[id].outcome.Succeeded? ==>
                 tasks[id].outcome.tile == compute(tasks[id].key)
    requires c in Run(Init(), cfg, events).flight.callers && Run(Init(), cfg, events).flight.callers[c].Returned?
    ensures var call := Run(Init(), cfg, events).flight.callers[c]; call.tile == compute(call.key)
  {
    RunKeepsInv(Init(), cfg, events);
    var s := Run(Init(), cfg, events);
    assert AnswerJustified(s.flight.callers[c], s, cfg.limits.ttl);
  }

  /** A computation that failed contributes no entry and no answer; every hit is younger than the time-to-live. */
  lemma {:induction false} FailuresAreNeverServed<K, V>(cfg: Config<K, V>, events: seq<Event<K, V>>)
    requires cfg.limits.Valid() && CanRun(Init(), cfg, events)
    ensures var s := Run(Init(), cfg, events);
            && (forall st :: st in s.stores ==>
                  st.id in s.flight.tasks && s.flight.tasks[st.id].outcome == Succeeded(st.tile))
            && (forall slot :: slot in s.slots ==> Backed(slot, s.stores, cfg.limits.ttl))
            && forall c :: c in s.flight.callers ==> RestsOnFreshHit(s.flight.callers[c], s.stores, cfg.limits.ttl)
  {
    RunKeepsInv(Init(), cfg, events);
    var s := Run(Init(), cfg, events);
    forall c | c in s.flight.callers ensures RestsOnFreshHit(s.flight.callers[c], s.stores, cfg.limits.ttl) {
      assert AnswerJustified(s.flight.callers[c], s, cfg.limits.ttl);
    }
  }

  lemma {:induction false} RetiredGrows<K, V>(s: System<K, V>, cfg: Config<K, V>, events: seq<Event<K, V>>)
    requires CanRun(s, cfg, events)
    ensures s.flight.retired <= Run(s, cfg, events).flight.retired
    decreases |events|
  {
    if events != [] {
      RetiredGrows(Step(s, cfg, events[0]), cfg, events[1..]);
    }
  }

  /**
   A draining or blocked caller is let go only by a retirement that ended, or, if blocked, by its own
   cancellation.
   */
  lemma {:induction false} StepLetsGo<K, V>(s: System<K, V>, cfg: Config<K, V>, e: Event<K, V>, c: nat)
    requires Enabled(s, e) && c in s.flight.callers
    ensures c in Step(s, cfg, e).flight.callers
    ensures !s.flight.callers[c].Pending() ==> Step(s, cfg, e).flight.callers[c] == s.flight.callers[c]
    ensures var call, call' := s.flight.callers[c], Step(s, cfg, e).flight.callers[c];
            (call.Draining? || call.Suspended?) && call' != call ==>
                (call.Suspended? && call'.Raised?) || call.id in s.flight.retired
  {
    if e.Arrive? {
      LookUpLeavesOthers(s, cfg.limits, e.caller, e.key, c);
    } else if e.Wake? {
      LookUpLeavesOthers(s, cfg.limits, e.caller, s.flight.callers[e.caller].key, c);
    }
  }

  lemma {:induction false} LookUpLeavesOthers<K, V>(s: System<K, V>, limits: Limits, d: nat, key: K, c: nat)
    requires c in s.flight.callers
    ensures c in LookUp(s, limits, d, key).flight.callers
    ensures c != d ==> LookUp(s, limits, d, key).flight.callers[c] == s.flight.callers[c]
  {
  }

  /**
   The last cancelled waiter stays until the shared computation is over. However the run goes on and
   however often it is cancelled again, once it has returned the computation has finished and its
   record is gone. The same holds for a caller woken from waiting on that retirement.
   */
  lemma {:induction false} DrainerOutlivesComputation<K, V>(s: System<K, V>, cfg: Config<K, V>,
      events: seq<Event<K, V>>, c: nat)
    requires Inv(s, cfg) && CanRun(s, cfg, events)
    requires c in s.flight.callers && (s.flight.callers[c].Draining? || s.flight.callers[c].Suspended?)
    ensures var f, f' := s.flight, Run(s, cfg, events).flight;
            && c in f'.callers
            && (f'.callers[c] != f.callers[c] ==>
                  || (f.callers[c].Suspended? && f'.callers[c].Raised?)
                  || (Done(f', f.callers[c].id) && !InTable(f', f.callers[c].id)))
  {
    RunKeepsInv(s, cfg, events);
    RunLetsGo(s, cfg, events, c);
  }

  lemma {:induction false} RunLetsGo<K, V>(s: System<K, V>, cfg: Config<K, V>, events: seq<Event<K, V>>, c: nat)
    requires CanRun(s, cfg, events) && c in s.flight.callers
    ensures var call, f' := s.flight.callers[c], Run(s, cfg, events).flight;
            && c in f'.callers
            && (!call.Pending() ==> f'.callers[c] == call)
            && ((call.Draining? || call.Suspended?) && f'.callers[c] != call ==>
                  (call.Suspended? && f'.callers[c].Raised?) || call.id in f'.retired)
    decreases |events|
  {
    if events != [] {
      StepLetsGo(s, cfg, events[0], c);
      RunLetsGo(Step(s, cfg, events[0]), cfg, events[1..], c);
      RetiredGrows(s, cfg, events);
    }
  }

  // ---------- callers are answered, and with what ----------

  /** This call ended as its computation did: with the tile, or with the failure. */
  predicate EndedAs<K(==), V(==)>(call: Call<K, V>, key: K, id: nat, outcome: Outcome<V>) {
    match outcome
    case Running => false
    case Succeeded(tile) => call == Returned(key, tile, FromTask(id))
    case Failed => call == Raised(key, TaskFailed(id))
  }

  lemma {:induction false} ResumedEnds<K, V>(f: Flight<K, V>, maxInFlight: nat, c: nat)
    requires FlightInv(f, maxInFlight) && c in f.callers && f.callers[c].Awaiting? && Done(f, f.callers[c].id)
    ensures c in Resuming(f, c).callers
    ensures EndedAs(Resuming(f, c).callers[c], f.callers[c].key, f.callers[c].id, f.tasks[f.callers[c].id].outcome)
  {
    ReleaseNeverMismatches(f, maxInFlight, c);
  }

  /** A waiter that is resumed ends as its computation did, in that step and for good. */
  lemma {:induction false} ResumedWithOutcome<K, V>(s: System<K, V>, cfg: Config<K, V>, c: nat,
      events: seq<Event<K, V>>)
    requires Inv(s, cfg) && Enabled(s, Resume(c)) && CanRun(Step(s, cfg, Resume(c)), cfg, events)
    ensures var key, id, t := s.flight.callers[c].key, s.flight.callers[c].id, Step(s, cfg, Resume(c));
            && c in t.flight.callers && c in Run(t, cfg, events).flight.callers
            && EndedAs(t.flight.callers[c], key, id, s.flight.tasks[id].outcome)
            && Run(t, cfg, events).flight.callers[c] == t.flight.callers[c]
  {
    ResumedEnds(s.flight, cfg.limits.maxInFlight, c);
    RunLetsGo(Step(s, cfg, Resume(c)), cfg, events, c);
  }

  /** When a computation returns a tile, each caller that awaits it is returned that tile on its resumption. */
  lemma {:induction false} WaiterGetsTile<K, V>(s: System<K, V>, cfg: Config<K, V>, c: nat, id: nat, tile: V)
    requires Inv(s, cfg) && Enabled(s, Finish(id, tile))
    requires c in s.flight.callers && s.flight.callers[c].Awaiting? && s.flight.callers[c].id == id
    ensures var t := Step(s, cfg, Finish(id, tile));
            && Enabled(t, Resume(c)) && c in Step(t, cfg, Resume(c)).flight.callers
            && Step(t, cfg, Resume(c)).flight.callers[c] == Returned(s.flight.callers[c].key, tile, FromTask(id))
  {
    StepKeepsInv(s, cfg, Finish(id, tile));
    ResumedWithOutcome(Step(s, cfg, Finish(id, tile)), cfg, c, []);
  }

  lemma {:induction false} HitIsReturned<K, V>(s: System<K, V>, cfg: Config<K, V>, c: nat, key: K, tile: V)
    requires c !in s.flight.callers && Touch(s.slots, key, s.clock).0 == Some(tile)
    ensures Enabled(s, Arrive(c, key)) && c in Step(s, cfg, Arrive(c, key)).flight.callers
    ensures Step(s, cfg, Arrive(c, key)).flight.callers[c] == Returned(key, tile, FromStore(s.clock))
  {
  }

  /** A tile that fits is stored when its computation returns it, and served until its time-to-live is over. */
  lemma {:induction false} FinishedTileIsServed<K, V>(s: System<K, V>, cfg: Config<K, V>, id: nat, tile: V,
      delta: real, c: nat)
    requires Inv(s, cfg) && Enabled(s, Finish(id, tile)) && 0.0 <= delta < cfg.limits.ttl && c !in s.flight.callers
    requires cfg.size(s.flight.tasks[id].key, tile) <= cfg.limits.maxBytes
    ensures var key := s.flight.tasks[id].key;
            var t := Step(Step(s, cfg, Finish(id, tile)), cfg, Tick(delta));
            && Enabled(t, Arrive(c, key)) && c in Step(t, cfg, Arrive(c, key)).flight.callers
            && Step(t, cfg, Arrive(c, key)).flight.callers[c] == Returned(key, tile, FromStore(t.clock))
  {
    var key := s.flight.tasks[id].key;
    PutThenTouch(s.slots, cfg.limits, key, tile, cfg.size(key, tile), s.clock, s.clock + delta);
    HitIsReturned(Step(Step(s, cfg, Finish(id, tile)), cfg, Tick(delta)), cfg, c, key, tile);
  }

  /** A live entry of the key answers the lookup at once. */
  lemma {:induction false} LiveTileIsServed<K, V>(s: System<K, V>, cfg: Config<K, V>, e: Event<K, V>, c: nat, key: K,
      i: nat)
    requires Inv(s, cfg) && Enabled(s, e) && LooksUpKey(s, e, c, key)
    requires i < |s.slots| && s.slots[i].key == key && s.slots[i].entry.expiresAt > s.clock
    ensures c in Step(s, cfg, e).flight.callers
    ensures Step(s, cfg, e).flight.callers[c] == Returned(key, s.slots[i].entry.tile, FromStore(s.clock))
    ensures Step(s, cfg, e).flight.tasks == s.flight.tasks && Step(s, cfg, e).flight.table == s.flight.table
  {
    FindIs(s.slots, key, i);
  }

  /** A lookup that misses and finds a finished computation ends as that did, in its own stretch and for good. */
  lemma {:induction false} FoundOutcomeIsHandedOn<K, V>(s: System<K, V>, cfg: Config<K, V>, e: Event<K, V>,
      events: seq<Event<K, V>>, c: nat, key: K)
    requires Inv(s, cfg) && Enabled(s, e) && LooksUpKey(s, e, c, key) && Misses(s, key)
    requires key in s.flight.table.inFlight && !s.flight.table.inFlight[key].retiring
    requires Done(s.flight, s.flight.table.inFlight[key].id) && CanRun(Step(s, cfg, e), cfg, events)
    ensures var id, t := s.flight.table.inFlight[key].id, Step(s, cfg, e);
            && c in t.flight.callers && c in Run(t, cfg, events).flight.callers
            && EndedAs(t.flight.callers[c], key, id, s.flight.tasks[id].outcome)
            && Run(t, cfg, events).flight.callers[c] == t.flight.callers[c]
  {
    LookedUp(s, cfg, e, c, key);
    EnteringKeepsInv(s.flight, cfg.limits.maxInFlight, c, key);
    ResumedEnds(Entering(s.flight, cfg.limits.maxInFlight, c, key), cfg.limits.maxInFlight, c);
    RunLetsGo(Step(s, cfg, e), cfg, events, c);
  }

  /** A caller that was cancelled, or is cleaning up after it was. */
  predicate WasCancelled<K, V>(f: Flight<K, V>, c: nat) {
    c in f.callers && (f.callers[c].Draining? || (f.callers[c].Raised? && f.callers[c].cause.Cancelled?))
  }

  lemma {:induction false} StepCancels<K, V>(s: System<K, V>, cfg: Config<K, V>, e: Event<K, V>, c: nat)
    requires Inv(s, cfg) && Enabled(s, e) && WasCancelled(Step(s, cfg, e).flight, c)
    ensures WasCancelled(s.flight, c) || e == Cancel(c)
  {
    if e.Resume? {
      ResumingCancelsNobody(s.flight, cfg.limits.maxInFlight, e.caller, c);
    } else if e.Arrive? {
      LookUpCancelsNobody(s, cfg, e.caller, e.key, c);
    } else if e.Wake? {
      LookUpCancelsNobody(s, cfg, e.caller, s.flight.callers[e.caller].key, c);
    }
  }

  lemma {:induction false} LookUpCancelsNobody<K, V>(s: System<K, V>, cfg: Config<K, V>, d: nat, key: K, c: nat)
    requires Inv(s, cfg) && IsIdle(s.flight, d) && WasCancelled(LookUp(s, cfg.limits, d, key).flight, c)
    ensures WasCancelled(s.flight, c)
  {
    if Touch(s.slots, key, s.clock).0.None? {
      EnteringKeepsInv(s.flight, cfg.limits.maxInFlight, d, key);
      EnteringCancelsNobody(s.flight, cfg.limits.maxInFlight, d, key, c);
      ResumingCancelsNobody(Entering(s.flight, cfg.limits.maxInFlight, d, key), cfg.limits.maxInFlight, d, c);
    }
  }

  lemma {:induction false} EnteringCancelsNobody<K, V>(f: Flight<K, V>, maxInFlight: nat, d: nat, key: K, c: nat)
    requires WasCancelled(Entering(f, maxInFlight, d, key), c)
    ensures WasCancelled(f, c)
  {
  }

  lemma {:induction false} ResumingCancelsNobody<K, V>(f: Flight<K, V>, maxInFlight: nat, d: nat, c: nat)
    requires FlightInv(f, maxInFlight) && WasCancelled(Resuming(f, d), c)
    ensures WasCancelled(f, c)
  {
    if d in f.callers && f.callers[d].Awaiting? && Done(f, f.callers[d].id) {
      ResumedEnds(f, maxInFlight, d);
    }
  }

  /** A cancellation is heard at once, and is final. */
  lemma {:induction false} CancelIsHeard<K, V>(s: System<K, V>, cfg: Config<K, V>, e: Event<K, V>, c: nat)
    requires Inv(s, cfg) && Enabled(s, e) && (e == Cancel(c) || WasCancelled(s.flight, c))
    ensures WasCancelled(Step(s, cfg, e).flight, c)
  {
    if e.Arrive? {
      LookUpLeavesOthers(s, cfg.limits, e.caller, e.key, c);
    } else if e.Wake? {
      LookUpLeavesOthers(s, cfg.limits, e.caller, s.flight.callers[e.caller].key, c);
    }
  }

  lemma {:induction false} RunHearsCancel<K, V>(s: System<K, V>, cfg: Config<K, V>, events: seq<Event<K, V>>, c: nat)
    requires Inv(s, cfg) && CanRun(s, cfg, events) && (WasCancelled(s.flight, c) || Cancel(c) in events)
    ensures WasCancelled(Run(s, cfg, events).flight, c)
    decreases |events|
  {
    if events != [] {
      StepKeepsInv(s, cfg, events[0]);
      if WasCancelled(s.flight, c) || events[0] == Cancel(c) {
        CancelIsHeard(s, cfg, events[0], c);
      }
      assert Cancel(c) in events ==> events[0] == Cancel(c) || Cancel(c) in events[1..];
      RunHearsCancel(Step(s, cfg, events[0]), cfg, events[1..], c);
    }
  }

  lemma {:induction false} RunCancels<K, V>(s: System<K, V>, cfg: Config<K, V>, events: seq<Event<K, V>>, c: nat)
    requires Inv(s, cfg) && CanRun(s, cfg, events) && WasCancelled(Run(s, cfg, events).flight, c)
    ensures WasCancelled(s.flight, c) || Cancel(c) in events
    decreases |events|
  {
    if events != [] {
      StepKeepsInv(s, cfg, events[0]);
      RunCancels(Step(s, cfg, events[0]), cfg, events[1..], c);
      if WasCancelled(Step(s, cfg, events[0]).flight, c) {
        StepCancels(s, cfg, events[0], c);
      }
      assert forall e :: e in events[1..] ==> e in events;
    }
  }

  /**
   Over every run, a caller that is over ended with a cancellation if and only if it was cancelled, wherever it
   was suspended; until then a cancelled caller cleans up.
   */
  lemma {:induction false} CancelledExactlyWhen<K, V>(cfg: Config<K, V>, events: seq<Event<K, V>>, c: nat)
    requires cfg.limits.Valid() && CanRun(Init(), cfg, events) && c in Run(Init(), cfg, events).flight.callers
    ensures var call := Run(Init(), cfg, events).flight.callers[c];
            Cancel(c) in events <==> call.Draining? || (call.Raised? && call.cause.Cancelled?)
  {
    if WasCancelled(Run(Init(), cfg, events).flight, c) {
      RunCancels(Init(), cfg, events, c);
    }
    if Cancel(c) in events {
      RunHearsCancel(Init(), cfg, events, c);
    }
  }

  // ---------- time and retirements ----------

  function Elapsed<K, V>(events: seq<Event<K, V>>): real {
    if events == [] then 0.0 else (if events[0].Tick? then events[0].delta else 0.0) + Elapsed(events[1..])
  }

  lemma {:induction false} ClockGoesOn<K, V>(s: System<K, V>, cfg: Config<K, V>, events: seq<Event<K, V>>)
    requires CanRun(s, cfg, events)
    ensures Run(s, cfg, events).clock == s.clock + Elapsed(events)
    decreases |events|
  {
    if events != [] {
      ClockGoesOn(Step(s, cfg, events[0]), cfg, events[1..]);
    }
  }

  lemma {:induction false} RetiredGoesOn<K, V>(s: System<K, V>, cfg: Config<K, V>, events: seq<Event<K, V>>, id: nat)
    requires CanRun(s, cfg, events)
    ensures id in Run(s, cfg, events).flight.retired <==> id in s.flight.retired || EndRetirement(id) in events
    decreases |events|
  {
    if events != [] {
      RetiredGoesOn(Step(s, cfg, events[0]), cfg, events[1..], id);
      assert EndRetirement(id) in events <==> events[0] == EndRetirement(id) || EndRetirement(id) in events[1..];
    }
  }

  /**
   Over every run the clock shows the time that has passed, and a retirement is over if and only if it ended; then
   the record is gone, callers blocked on it can look again, and the one that drained it ends.
   */
  lemma {:induction false} RetirementFrees<K, V>(cfg: Config<K, V>, events: seq<Event<K, V>>, id: nat, c: nat)
    requires cfg.limits.Valid() && CanRun(Init(), cfg, events)
    ensures var s := Run(Init(), cfg, events);
            && s.clock == Elapsed(events)
            && (id in s.flight.retired <==> EndRetirement(id) in events)
            && (id in s.flight.retired ==> Done(s.flight, id) && !InTable(s.flight, id))
            && (id in s.flight.retired && c in s.flight.callers ==>
                  && (s.flight.callers[c] == Suspended(s.flight.tasks[id].key, id) ==> Enabled(s, Wake(c)))
                  && (s.flight.callers[c] == Draining(s.flight.tasks[id].key, id) ==> Enabled(s, EndDraining(c))))
  {
    RunKeepsInv(Init(), cfg, events);
    ClockGoesOn(Init(), cfg, events);
    RetiredGoesOn(Init(), cfg, events, id);
  }

  // ---------- failures are shared, also with callers that come later ----------

  /** The caller's lookup of this key, on arrival or woken from a retirement. */
  predicate LooksUpKey<K(==), V>(s: System<K, V>, e: Event<K, V>, c: nat, key: K) {
    || e == Arrive(c, key)
    || (e == Wake(c) && c in s.flight.callers && s.flight.callers[c].Pending() && s.flight.callers[c].key == key)
  }

  predicate Misses<K(==), V>(s: System<K, V>, key: K) {
    Touch(s.slots, key, s.clock).0.None?
  }

  predicate HasFailed<K, V>(f: Flight<K, V>, id: nat) {
    id in f.tasks && f.tasks[id].outcome.Failed?
  }

  /** The record of the key is not retiring, and its computation has already failed. */
  predicate FindsFailure<K, V>(s: System<K, V>, key: K) {
    key in s.flight.table.inFlight && !s.flight.table.inFlight[key].retiring
        && HasFailed(s.flight, s.flight.table.inFlight[key].id)
  }

  /** A record nobody can join any more: it left the table or is retiring. */
  ghost predicate Gone<K, V>(f: Flight<K, V>, id: nat) {
    id in f.tasks && !(InTable(f, id) && !RecordOf(f, id).retiring)
  }

  /** The caller does not depend on this computation. */
  ghost predicate Apart<K, V>(f: Flight<K, V>, c: nat, id: nat) {
    c in f.callers && !(f.callers[c].Awaiting? && f.callers[c].id == id)
        && !(f.callers[c].Raised? && f.callers[c].cause == TaskFailed(id))
  }

  lemma {:induction false} EnteringStaysApart<K, V>(f: Flight<K, V>, maxInFlight: nat, c: nat, key: K, id: nat, d: nat)
    requires WellFormed(f) && Gone(f, id) && IsIdle(f, c)
    requires d == c || Apart(f, d, id)
    ensures Gone(Entering(f, maxInFlight, c, key), id) && Apart(Entering(f, maxInFlight, c, key), d, id)
  {
  }

  lemma {:induction false} LeavingStaysApart<K, V>(f: Flight<K, V>, c: nat, after: Call<K, V>, id: nat, d: nat)
    requires WellFormed(f) && Gone(f, id) && Apart(f, d, id) && c in f.callers && f.callers[c].Awaiting?
               && !after.Pending()
    requires after.Raised? && after.cause.TaskFailed? ==> after.cause.id == f.callers[c].id
    ensures Gone(Leaving(f, c, after), id) && Apart(Leaving(f, c, after), d, id)
  {
  }

  lemma {:induction false} ResumingStaysApart<K, V>(f: Flight<K, V>, c: nat, id: nat, d: nat)
    requires WellFormed(f) && Gone(f, id) && Apart(f, d, id)
    ensures Gone(Resuming(f, c), id) && Apart(Resuming(f, c), d, id)
  {
    if c in f.callers && f.callers[c].Awaiting? && Done(f, f.callers[c].id) {
      LeavingStaysApart(f, c, Answer(f.callers[c].key, f.callers[c].id, f.tasks[f.callers[c].id].outcome), id, d);
    }
  }

  lemma {:induction false} LookUpStaysApart<K, V>(s: System<K, V>, cfg: Config<K, V>, c: nat, key: K, id: nat, d: nat)
    requires Inv(s, cfg) && IsIdle(s.flight, c) && Gone(s.flight, id) && Apart(s.flight, d, id)
    ensures Gone(LookUp(s, cfg.limits, c, key).flight, id) && Apart(LookUp(s, cfg.limits, c, key).flight, d, id)
  {
    EnteringStaysApart(s.flight, cfg.limits.maxInFlight, c, key, id, d);
    EnteringKeepsInv(s.flight, cfg.limits.maxInFlight, c, key);
    ResumingStaysApart(Entering(s.flight, cfg.limits.maxInFlight, c, key), c, id, d);
  }

  lemma {:induction false} StepStaysApart<K, V>(s: System<K, V>, cfg: Config<K, V>, e: Event<K, V>, id: nat, d: nat)
    requires Inv(s, cfg) && Enabled(s, e) && Gone(s.flight, id) && Apart(s.flight, d, id)
    ensures Gone(Step(s, cfg, e).flight, id) && Apart(Step(s, cfg, e).flight, d, id)
  {
    var f := s.flight;
    match e
    case Arrive(c, key) => LookUpStaysApart(s, cfg, c, key, id, d);
    case Wake(c) => LookUpStaysApart(s, cfg, c, f.callers[c].key, id, d);
    case Resume(c) => ResumingStaysApart(f, c, id, d);
    case Cancel(c) =>
      if f.callers[c].Awaiting? {
        LeavingStaysApart(f, c, Raised(f.callers[c].key, Cancelled), id, d);
      }
    case _ =>
  }

  lemma {:induction false} RunStaysApart<K, V>(s: System<K, V>, cfg: Config<K, V>, events: seq<Event<K, V>>, id: nat,
      d: nat)
    requires Inv(s, cfg) && CanRun(s, cfg, events) && Gone(s.flight, id) && Apart(s.flight, d, id)
    ensures Apart(Run(s, cfg, events).flight, d, id)
    decreases |events|
  {
    if events != [] {
      StepStaysApart(s, cfg, events[0], id, d);
      StepKeepsInv(s, cfg, events[0]);
      RunStaysApart(Step(s, cfg, events[0]), cfg, events[1..], id, d);
    }
  }

  /** From the moment it awaits a computation, a caller's failure can only be that computation's. */
  ghost predicate BoundTo<K, V>(f: Flight<K, V>, c: nat, key: K, id: nat) {
    && c in f.callers && f.callers[c].key == key
    && match f.callers[c]
       case Awaiting(_, i) => i == id
       case Draining(_, i) => i == id
       case Suspended(_, _) => false
       case Returned(_, _, _) => true
       case Raised(_, cause) => cause == Cancelled || cause == TaskFailed(id)
  }

  lemma {:induction false} LeavingStaysBound<K, V>(f: Flight<K, V>, d: nat, after: Call<K, V>, c: nat, key: K, id: nat)
    requires BoundTo(f, c, key, id) && d in f.callers && f.callers[d].Awaiting?
    requires after.key == f.callers[d].key
    requires after.Returned? || after == Raised(after.key, Cancelled)
             || after == Raised(after.key, TaskFailed(f.callers[d].id))
    ensures BoundTo(Leaving(f, d, after), c, key, id)
  {
  }

  lemma {:induction false} ResumingStaysBound<K, V>(f: Flight<K, V>, d: nat, c: nat, key: K, id: nat)
    requires BoundTo(f, c, key, id)
    ensures BoundTo(Resuming(f, d), c, key, id)
  {
    if d in f.callers && f.callers[d].Awaiting? && Done(f, f.callers[d].id) {
      var task := f.callers[d].id;
      LeavingStaysBound(f, d, Answer(f.callers[d].key, task, f.tasks[task].outcome), c, key, id);
    }
  }

  lemma {:induction false} EnteringStaysBound<K, V>(f: Flight<K, V>, maxInFlight: nat, d: nat, k: K, c: nat, key: K,
      id: nat)
    requires IsIdle(f, d) && BoundTo(f, c, key, id)
    ensures BoundTo(Entering(f, maxInFlight, d, k), c, key, id)
  {
  }

  lemma {:induction false} LookUpStaysBound<K, V>(s: System<K, V>, limits: Limits, d: nat, k: K, c: nat, key: K,
      id: nat)
    requires IsIdle(s.flight, d) && BoundTo(s.flight, c, key, id)
    ensures BoundTo(LookUp(s, limits, d, k).flight, c, key, id)
  {
    EnteringStaysBound(s.flight, limits.maxInFlight, d, k, c, key, id);
    ResumingStaysBound(Entering(s.flight, limits.maxInFlight, d, k), d, c, key, id);
  }

  lemma {:induction false} StepStaysBound<K, V>(s: System<K, V>, cfg: Config<K, V>, e: Event<K, V>, c: nat, key: K,
      id: nat)
    requires Enabled(s, e) && BoundTo(s.flight, c, key, id)
    ensures BoundTo(Step(s, cfg, e).flight, c, key, id)
  {
    match e
    case Arrive(d, k) => LookUpStaysBound(s, cfg.limits, d, k, c, key, id);
    case Wake(d) => LookUpStaysBound(s, cfg.limits, d, s.flight.callers[d].key, c, key, id);
    case Resume(d) => ResumingStaysBound(s.flight, d, c, key, id);
    case Cancel(d) =>
      if s.flight.callers[d].Awaiting? {
        LeavingStaysBound(s.flight, d, Raised(s.flight.callers[d].key, Cancelled), c, key, id);
      }
    case _ =>
  }

  lemma {:induction false} RunStaysBound<K, V>(s: System<K, V>, cfg: Config<K, V>, events: seq<Event<K, V>>, c: nat,
      key: K, id: nat)
    requires CanRun(s, cfg, events) && BoundTo(s.flight, c, key, id)
    ensures BoundTo(Run(s, cfg, events).flight, c, key, id)
    decreases |events|
  {
    if events != [] {
      StepStaysBound(s, cfg, events[0], c, key, id);
      RunStaysBound(Step(s, cfg, events[0]), cfg, events[1..], c, key, id);
    }
  }

  lemma {:induction false} StepKeepsKeys<K, V>(s: System<K, V>, cfg: Config<K, V>, e: Event<K, V>, id: nat)
    requires Enabled(s, e) && id in s.flight.tasks
    ensures id in Step(s, cfg, e).flight.tasks && Step(s, cfg, e).flight.tasks[id].key == s.flight.tasks[id].key
  {
    if e.Arrive? {
      LookUpKeepsTasks(s, cfg.limits, e.caller, e.key, id);
    } else if e.Wake? {
      LookUpKeepsTasks(s, cfg.limits, e.caller, s.flight.callers[e.caller].key, id);
    }
  }

  lemma {:induction false} LookUpKeepsTasks<K, V>(s: System<K, V>, limits: Limits, c: nat, key: K, id: nat)
    requires id in s.flight.tasks
    ensures id in LookUp(s, limits, c, key).flight.tasks
    ensures LookUp(s, limits, c, key).flight.tasks[id] == s.flight.tasks[id]
  {
  }

  lemma {:induction false} RunKeepsKeys<K, V>(s: System<K, V>, cfg: Config<K, V>, events: seq<Event<K, V>>, id: nat)
    requires CanRun(s, cfg, events) && id in s.flight.tasks
    ensures id in Run(s, cfg, events).flight.tasks && Run(s, cfg, events).flight.tasks[id].key == s.flight.tasks[id].key
    decreases |events|
  {
    if events != [] {
      StepKeepsKeys(s, cfg, events[0], id);
      RunKeepsKeys(Step(s, cfg, events[0]), cfg, events[1..], id);
    }
  }

  /** A caller blocked on a retirement never joins a computation that was there when it looked. */
  lemma {:induction false} BlockedStaysApart<K, V>(s: System<K, V>, cfg: Config<K, V>, c: nat, key: K, id: nat)
    requires Inv(s, cfg) && IsIdle(s.flight, c) && id in s.flight.tasks && s.flight.tasks[id].key == key
    requires key in s.flight.table.inFlight && s.flight.table.inFlight[key].retiring
    ensures var t := Settle(s.flight, c, Suspended(key, s.flight.table.inFlight[key].id));
            Gone(t, id) && Apart(t, c, id)
  {
  }

  lemma {:induction false} BlockedRaisesNothingOld<K, V>(s: System<K, V>, cfg: Config<K, V>, t: System<K, V>,
      events: seq<Event<K, V>>, c: nat, key: K, id: nat)
    requires Inv(s, cfg) && IsIdle(s.flight, c) && Inv(t, cfg) && CanRun(t, cfg, events) && HasFailed(s.flight, id)
    requires key in s.flight.table.inFlight && s.flight.table.inFlight[key].retiring
    requires t.flight == Settle(s.flight, c, Suspended(key, s.flight.table.inFlight[key].id))
    requires c in Run(t, cfg, events).flight.callers
    ensures Run(t, cfg, events).flight.callers[c] != Raised(key, TaskFailed(id))
  {
    var u := Run(t, cfg, events);
    if u.flight.callers[c] == Raised(key, TaskFailed(id)) {
      RunKeepsInv(t, cfg, events);
      assert AnswerJustified(u.flight.callers[c], u, cfg.limits.ttl);
      RunKeepsKeys(t, cfg, events, id);
      BlockedStaysApart(s, cfg, c, key, id);
      RunStaysApart(t, cfg, events, id, c);
      assert false;
    }
  }

  /** What a lookup that missed makes of the caller: an answer at once if what it finds is finished. */
  lemma {:induction false} LookedUp<K, V>(s: System<K, V>, cfg: Config<K, V>, e: Event<K, V>, c: nat, key: K)
    requires Inv(s, cfg) && Enabled(s, e) && LooksUpKey(s, e, c, key) && Misses(s, key)
    ensures IsIdle(s.flight, c)
    ensures Step(s, cfg, e).flight == Resuming(Entering(s.flight, cfg.limits.maxInFlight, c, key), c)
  {
  }

  lemma {:induction false} OldFailureOfAwaited<K, V>(s: System<K, V>, cfg: Config<K, V>, t: System<K, V>,
      events: seq<Event<K, V>>, c: nat, key: K, id: nat)
    requires Inv(s, cfg) && IsIdle(s.flight, c) && CanRun(t, cfg, events)
    requires t.flight == Resuming(Entering(s.flight, cfg.limits.maxInFlight, c, key), c)
    requires Entering(s.flight, cfg.limits.maxInFlight, c, key).callers[c].Awaiting?
    requires c in Run(t, cfg, events).flight.callers
    requires Run(t, cfg, events).flight.callers[c] == Raised(key, TaskFailed(id))
    ensures HasFailed(s.flight, id) <==> FindsFailure(s, key)
  {
    var u := Entering(s.flight, cfg.limits.maxInFlight, c, key);
    EnteringSharesOrStarts(s.flight, cfg.limits.maxInFlight, c, key);
    assert BoundTo(u, c, key, u.callers[c].id);
    ResumingStaysBound(u, c, c, key, u.callers[c].id);
    RunStaysBound(t, cfg, events, c, key, u.callers[c].id);
  }

  /**
   When a caller that missed the store ends with the failure of a computation, that failure is older
   than its lookup if and only if the record it found was not retiring and had already failed: a test
   the caller can make when it looks.
   */
  lemma {:induction false} OldFailureExactlyWhen<K, V>(s: System<K, V>, cfg: Config<K, V>, e: Event<K, V>,
      events: seq<Event<K, V>>, c: nat, key: K, id: nat)
    requires Inv(s, cfg) && Enabled(s, e) && LooksUpKey(s, e, c, key) && Misses(s, key)
    requires CanRun(Step(s, cfg, e), cfg, events) && c in Run(Step(s, cfg, e), cfg, events).flight.callers
    requires Run(Step(s, cfg, e), cfg, events).flight.callers[c] == Raised(key, TaskFailed(id))
    ensures HasFailed(s.flight, id) <==> FindsFailure(s, key)
  {
    var t, u := Step(s, cfg, e), Entering(s.flight, cfg.limits.maxInFlight, c, key);
    LookedUp(s, cfg, e, c, key);
    EnteringSharesOrStarts(s.flight, cfg.limits.maxInFlight, c, key);
    if u.callers[c].Awaiting? {
      OldFailureOfAwaited(s, cfg, t, events, c, key, id);
    } else if u.callers[c].Suspended? {
      if HasFailed(s.flight, id) {
        StepKeepsInv(s, cfg, e);
        BlockedRaisesNothingOld(s, cfg, t, events, c, key, id);
      }
    } else {
      RunLetsGo(t, cfg, events, c);
    }
  }

  /** Whoever finds a failed computation ends with its failure in the same stretch, and for good. */
  lemma {:induction false} FoundFailureIsHandedOn<K, V>(s: System<K, V>, cfg: Config<K, V>, e: Event<K, V>,
      events: seq<Event<K, V>>, c: nat, key: K)
    requires Inv(s, cfg) && Enabled(s, e) && LooksUpKey(s, e, c, key) && Misses(s, key) && FindsFailure(s, key)
    requires CanRun(Step(s, cfg, e), cfg, events)
    ensures var id := s.flight.table.inFlight[key].id;
            && c in Step(s, cfg, e).flight.callers && c in Run(Step(s, cfg, e), cfg, events).flight.callers
            && Step(s, cfg, e).flight.callers[c] == Raised(key, TaskFailed(id))
            && Run(Step(s, cfg, e), cfg, events).flight.callers[c] == Raised(key, TaskFailed(id))
  {
    FoundOutcomeIsHandedOn(s, cfg, e, events, c, key);
  }

  lemma {:induction false} RunFirst<K, V>(s: System<K, V>, cfg: Config<K, V>, e: Event<K, V>, rest: seq<Event<K, V>>)
    requires Enabled(s, e) && CanRun(Step(s, cfg, e), cfg, rest)
    ensures CanRun(s, cfg, [e] + rest) && Run(s, cfg, [e] + rest) == Run(Step(s, cfg, e), cfg, rest)
  {
    assert ([e] + rest)[1..] == rest;
  }

  /** Caller 1 waits for a computation of the key that has failed; nothing is stored. */
  function FailedUnclaimed<K, V>(key: K, callers: map<nat, Call<K, V>>): System<K, V> {
    System([], [], 0.0, Flight(Table(map[key := Record(0, 1, false)], 1), map[0 := Task(key, Failed)], {}, callers))
  }

  lemma {:induction false} FailureBeforeResumption<K, V>(cfg: Config<K, V>, key: K)
    requires cfg.limits.Valid()
    ensures CanRun(Init(), cfg, [Arrive(1, key), Fail(0)])
    ensures Run(Init<K, V>(), cfg, [Arrive(1, key), Fail(0)]) == FailedUnclaimed(key, map[1 := Awaiting(key, 0)])
  {
    var arrive: Event<K, V>, fail: Event<K, V> := Arrive(1, key), Fail(0);
    var s := Step(Init(), cfg, arrive);
    assert s.flight.table.inFlight == map[key := Record(0, 1, false)];
    assert Step(s, cfg, fail) == FailedUnclaimed(key, map[1 := Awaiting(key, 0)]);
    RunFirst(s, cfg, fail, []);
    RunFirst(Init(), cfg, arrive, [fail]);
    assert [arrive] + [fail] == [arrive, fail];
  }

  /** Caller 2 takes the failure on arrival and leaves the record to caller 1. */
  lemma {:induction false} FailureTakenOnArrival<K, V>(cfg: Config<K, V>, key: K)
    requires cfg.limits.Valid()
    ensures var s := FailedUnclaimed<K, V>(key, map[1 := Awaiting(key, 0)]);
            Enabled(s, Arrive(2, key)) && Step(s, cfg, Arrive(2, key)) ==
            FailedUnclaimed(key, map[1 := Awaiting(key, 0), 2 := Raised(key, TaskFailed(0))])
  {
    var s := FailedUnclaimed<K, V>(key, map[1 := Awaiting(key, 0)]);
    var u := Entering(s.flight, cfg.limits.maxInFlight, 2, key);
    assert u.table.inFlight == map[key := Record(0, 2, false)];
    assert Resuming(u, 2).table.inFlight == map[key := Record(0, 1, false)];
  }

  lemma {:induction false} FailureTakenTwice<K, V>(cfg: Config<K, V>, key: K)
    requires cfg.limits.Valid()
    ensures var s := FailedUnclaimed<K, V>(key, map[1 := Awaiting(key, 0)]);
            && CanRun(s, cfg, [Arrive(2, key), Resume(1)])
            && Run(s, cfg, [Arrive(2, key), Resume(1)]).flight.callers ==
                 map[1 := Raised(key, TaskFailed(0)), 2 := Raised(key, TaskFailed(0))]
  {
    var two: Event<K, V>, one: Event<K, V> := Arrive(2, key), Resume(1);
    FailureTakenOnArrival(cfg, key);
    var s := FailedUnclaimed<K, V>(key, map[1 := Awaiting(key, 0)]);
    var t := Step(s, cfg, two);
    RunFirst(t, cfg, one, []);
    RunFirst(s, cfg, two, [one]);
    assert [two] + [one] == [two, one];
  }

  /**
   A run in which a failure is shared beyond the callers that waited for it: caller 1 starts the
   computation, it fails, and caller 2 arrives before caller 1 has resumed.
   */
  lemma {:induction false} LateCallerGetsOldFailure<K, V>(cfg: Config<K, V>, key: K)
      returns (before: System<K, V>, events: seq<Event<K, V>>)
    requires cfg.limits.Valid()
    ensures CanRun(Init(), cfg, [Arrive(1, key), Fail(0)]) && before == Run(Init(), cfg, [Arrive(1, key), Fail(0)])
    ensures 2 !in before.flight.callers && HasFailed(before.flight, 0) && FindsFailure(before, key)
    ensures events == [Arrive(2, key), Resume(1)] && CanRun(before, cfg, events)
    ensures Run(before, cfg, events).flight.callers ==
              map[1 := Raised(key, TaskFailed(0)), 2 := Raised(key, TaskFailed(0))]
  {
    before := FailedUnclaimed(key, map[1 := Awaiting(key, 0)]);
    FailureBeforeResumption(cfg, key);
    FailureTakenTwice(cfg, key);
    events := [Arrive(2, key), Resume(1)];
  }
}
