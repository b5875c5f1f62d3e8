/**
 The worker pool before close: slots that are available, busy or being replaced, slots lost because a
 replacement failed or an exception escaped, and a reference-counted lock per query. Each event is a stretch of
 the source between two suspensions, of a request or of the task that replaces its slot.
 */
module PoolProtocol {
  import opened Counting
  import opened SlotExchange
  import opened Wrappers

  // ---------- the shared fields ----------

  datatype Admission = Admission(id: nat, locked: bool, references: int)

  /** The queue of available slots, the live workers, and the admission of each query in progress. */
  datatype Shared<K> = Shared(
    available: seq<Slot>,
    workers: set<nat>,
    admissions: map<K, Admission>,
    nextSlot: nat,
    nextAdmission: nat)

  /** Takes the query's admission, or makes one, and counts a reference to it. */
  function Refer<K>(s: Shared<K>, key: K): (nat, Shared<K>) {
    var (a, next) := if key in s.admissions then (s.admissions[key], s.nextAdmission)
                     else (Admission(s.nextAdmission, false, 0), s.nextAdmission + 1);
    (a.id, s.(admissions := s.admissions[key := a.(references := a.references + 1)], nextAdmission := next))
  }

  /**
   The final block of a request: the lock is released if it was acquired, and the last reference
   removes the admission.
   */
  function Leave<K>(s: Shared<K>, key: K, acquired: bool): Shared<K>
    requires key in s.admissions
  {
    var a := s.admissions[key];
    var left := a.(locked := a.locked && !acquired, references := a.references - 1);
    s.(admissions := if left.references == 0 then s.admissions - {key} else s.admissions[key := left])
  }

  /** A slot goes to the end of the queue. */
  function Queue<K>(s: Shared<K>, slot: Slot): Shared<K> {
    s.(available := s.available + [slot])
  }

  function RetireSlot<K>(s: Shared<K>, slot: Slot): Shared<K> {
    s.(workers := s.workers - {slot.id})
  }

  /** The replacement worker joins the live workers and the queue. */
  function Spawn<K>(s: Shared<K>): Shared<K> {
    s.(workers := s.workers + {s.nextSlot}, available := s.available + [Slot(s.nextSlot, 0)],
    nextSlot := s.nextSlot + 1)
  }

  // ---------- the system ----------

  /** Where a request stands; a finished one remembers how its exchange went, if it got that far. */
  datatype Stage<K> =
    | Queued(key: K)
    | Locked(key: K)
    | Serving(key: K, exchange: Exchange)
    | Finished(last: Option<Exchange>)
  {
    predicate Active() { !Finished? }

    predicate HoldsLock() { Locked? || Serving? }

    /** Has a worker, and still the use of it. */
    predicate Busy() { Serving? && exchange.task.NoTask? }

    /** Has a live worker, in use or about to be retired. */
    predicate Holds() { Serving? && (exchange.task.NoTask? || exchange.task.Scheduled?) }

    /** Waits for its worker to be replaced. */
    predicate Replaces() { Serving? && (exchange.task.Scheduled? || exchange.task.Retiring?) }

    /** The replacement of its worker failed. */
    predicate ReplacementFailed() {
      (Serving? && exchange.task.Crashed?) || (Finished? && last.Some? && last.value.task.Crashed?)
    }

    /** Its worker's slot is gone: it was not replaced, or an exception escaped that left it behind. */
    predicate Lost() {
      ReplacementFailed() || (Finished? && last.Some? && SlotExchange.Escaped(last.value))
    }
  }

  /** A request remembers the admission it referred to. */
  datatype Request<K> = Request(admission: nat, stage: Stage<K>)

  datatype System<K> = System(shared: Shared<K>, requests: map<nat, Request<K>>, retired: set<nat>)

  datatype Config = Config(workerCount: nat, recycleAfter: nat)

  datatype Event<K> =
    | Arrive(r: nat, key: K)
    | Acquire(r: nat)
    | Take(r: nat)
    | GiveUp(r: nat)
    | Serve(r: nat, input: Input)

  /** After start: every worker is available and has served nothing. */
  function Init<K>(cfg: Config): System<K> {
    System(Shared(seq(cfg.workerCount, i requires i >= 0 => Slot(i, 0)), Below(cfg.workerCount), map[],
                  cfg.workerCount, 0),
           map[], {})
  }

  function Below(n: nat): (ids: set<nat>)
    ensures forall i: nat :: i in ids <==> i < n
    ensures |ids| == n
  {
    if n == 0 then {} else Below(n - 1) + {n - 1}
  }

  predicate At<K>(s: System<K>, r: nat) {
    r in s.requests && s.requests[r].stage.Active()
  }

  predicate Enabled<K>(s: System<K>, e: Event<K>) {
    match e
    case Arrive(r, _) => r !in s.requests
    case Acquire(r) =>
      && At(s, r) && s.requests[r].stage.Queued?
      && s.requests[r].stage.key in s.shared.admissions && !s.shared.admissions[s.requests[r].stage.key].locked
    case Take(r) => At(s, r) && s.requests[r].stage.Locked? && s.shared.available != []
    case GiveUp(r) => At(s, r) && !s.requests[r].stage.Serving? && s.requests[r].stage.key in s.shared.admissions
    case Serve(r, input) =>
      && At(s, r) && s.requests[r].stage.Serving? && s.requests[r].stage.key in s.shared.admissions
      && Applies(s.requests[r].stage.exchange, input)
  }

  function Move<K>(s: System<K>, r: nat, stage: Stage<K>, shared: Shared<K>): System<K>
    requires r in s.requests
  {
    s.(shared := shared, requests := s.requests[r := s.requests[r].(stage := stage)])
  }

  /**
   What an input of the exchange does to queue and workers: the call may return its slot, its task retire
   or replace it.
   */
  function Effect<K>(s: Shared<K>, x: Exchange, next: Exchange, input: Input): Shared<K> {
    if next.returned > x.returned then Queue(s, next.slot)
    else if input.TaskStarts? then RetireSlot(s, x.slot)
    else if input.TaskEnds? then Spawn(s)
    else s
  }

  function Served<K>(s: System<K>, cfg: Config, r: nat, input: Input): System<K>
    requires Enabled(s, Serve(r, input))
  {
    var Serving(key, x) := s.requests[r].stage;
    var next := Next(x, input, cfg.recycleAfter);
    var shared := Effect(s.shared, x, next, input);
    var t := if next.point.Left? then Move(s, r, Finished(Some(next)), Leave(shared, key, true))
             else Move(s, r, Serving(key, next), shared);
    if input.TaskStarts? then t.(retired := s.retired + {x.slot.id}) else t
  }

  function Step<K>(s: System<K>, cfg: Config, e: Event<K>): System<K>
    requires Enabled(s, e)
  {
    match e
    case Arrive(r, key) =>
      var (id, shared) := Refer(s.shared, key);
      s.(shared := shared, requests := s.requests[r := Request(id, Queued(key))])
    case Acquire(r) =>
      var key := s.requests[r].stage.key;
      var locked := s.shared.admissions[key].(locked := true);
      Move(s, r, Locked(key), s.shared.(admissions := s.shared.admissions[key := locked]))
    case Take(r) =>
      Move(s, r, Serving(s.requests[r].stage.key, Begin(s.shared.available[0])),
           s.shared.(available := s.shared.available[1..]))
    case GiveUp(r) => Move(s, r, Finished(None), Leave(s.shared, s.requests[r].stage.key, s.requests[r].stage.Locked?))
    case Serve(r, input) => Served(s, cfg, r, input)
  }

  predicate CanRun<K>(s: System<K>, cfg: Config, events: seq<Event<K>>)
    decreases |events|
  {
    events == [] || (Enabled(s, events[0]) && CanRun(Step(s, cfg, events[0]), cfg, events[1..]))
  }

  function Run<K>(s: System<K>, cfg: Config, events: seq<Event<K>>): System<K>
    requires CanRun(s, cfg, events)
    decreases |events|
  {
    if events == [] then s else Run(Step(s, cfg, events[0]), cfg, events[1..])
  }

  // ---------- the admission mutex ----------

  function Referring<K(==)>(key: K): Request<K> -> bool {
    (r: Request<K>) => r.stage.Active() && r.stage.key == key
  }

  function HoldingLock<K(==)>(key: K): Request<K> -> bool {
    (r: Request<K>) => r.stage.HoldsLock() && r.stage.key == key
  }

  /** An active request's admission is the one in the table: deletion never splits the lock. */
  ghost predicate AdmissionsLinked<K>(s: System<K>) {
    forall r :: At(s, r) ==>
      && s.requests[r].stage.key in s.shared.admissions
      && s.shared.admissions[s.requests[r].stage.key].id == s.requests[r].admission
  }

  /** References count the active requests of a query, and are never zero in the table. */
  ghost predicate ReferencesCounted<K>(s: System<K>) {
    forall k :: k in s.shared.admissions ==>
      s.shared.admissions[k].references == Count(s.requests, Referring(k)) && s.shared.admissions[k].references > 0
  }

  /** The lock is held by exactly one request when locked, by none otherwise. */
  ghost predicate LockHeldOnce<K>(s: System<K>) {
    forall k :: k in s.shared.admissions ==>
      Count(s.requests, HoldingLock(k)) == if s.shared.admissions[k].locked then 1 else 0
  }

  ghost predicate AdmissionInv<K>(s: System<K>) {
    AdmissionsLinked(s) && ReferencesCounted(s) && LockHeldOnce(s)
  }

  /** What a condition on one request adds to a count, before and after a step. */
  function One(holds: bool): int {
    if holds then 1 else 0
  }

  /** Only this request changed. */
  ghost predicate Changed<K>(s: System<K>, t: System<K>, r: nat) {
    r in t.requests && t.requests == s.requests[r := t.requests[r]]
  }

  lemma {:induction false} CountsAfter<K>(s: System<K>, t: System<K>, r: nat)
    requires r in t.requests && t.requests == s.requests[r := t.requests[r]]
    requires forall k :: k in t.shared.admissions ==>
               && t.shared.admissions[k].references > 0
               && t.shared.admissions[k].references == Count(s.requests, Referring(k))
                    - One(r in s.requests && Referring(k)(s.requests[r])) + One(Referring(k)(t.requests[r]))
               && One(t.shared.admissions[k].locked) == Count(s.requests, HoldingLock(k))
                    - One(r in s.requests && HoldingLock(k)(s.requests[r])) + One(HoldingLock(k)(t.requests[r]))
    ensures ReferencesCounted(t) && LockHeldOnce(t)
  {
    forall k | k in t.shared.admissions
      ensures t.shared.admissions[k].references == Count(t.requests, Referring(k))
      ensures Count(t.requests, HoldingLock(k)) == if t.shared.admissions[k].locked then 1 else 0
    {
      CountUpdate(s.requests, r, t.requests[r], Referring(k));
      CountUpdate(s.requests, r, t.requests[r], HoldingLock(k));
    }
  }

  /** A query without an admission has no active request. */
  lemma {:induction false} NobodyRefers<K>(s: System<K>, key: K)
    requires AdmissionsLinked(s) && key !in s.shared.admissions
    ensures Count(s.requests, Referring(key)) == 0 && Count(s.requests, HoldingLock(key)) == 0
  {
    CountPositive(s.requests, Referring(key));
    CountPositive(s.requests, HoldingLock(key));
    assert forall q :: q in s.requests && Referring(key)(s.requests[q]) ==> At(s, q);
  }

  lemma {:induction false} ArriveKeepsAdmissions<K>(s: System<K>, cfg: Config, r: nat, key: K)
    requires AdmissionInv(s) && Enabled(s, Arrive(r, key))
    ensures AdmissionInv(Step(s, cfg, Arrive(r, key)))
  {
    var t := Step(s, cfg, Arrive(r, key));
    if key !in s.shared.admissions {
      NobodyRefers(s, key);
    }
    CountsAfter(s, t, r);
  }

  /** A request that moves on without touching the admissions keeps its query and its hold on the lock. */
  lemma {:induction false} MoveKeepsAdmissions<K>(s: System<K>, t: System<K>, r: nat)
    requires AdmissionInv(s) && At(s, r) && t.shared.admissions == s.shared.admissions
    requires r in t.requests && t.requests == s.requests[r := s.requests[r].(stage := t.requests[r].stage)]
    requires At(t, r) && t.requests[r].stage.key == s.requests[r].stage.key
    requires t.requests[r].stage.HoldsLock() == s.requests[r].stage.HoldsLock()
    ensures AdmissionInv(t)
  {
    CountsAfter(s, t, r);
  }

  lemma {:induction false} AcquireKeepsAdmissions<K>(s: System<K>, cfg: Config, r: nat)
    requires AdmissionInv(s) && Enabled(s, Acquire(r))
    ensures AdmissionInv(Step(s, cfg, Acquire(r)))
  {
    CountsAfter(s, Step(s, cfg, Acquire(r)), r);
  }

  function Left<K>(s: System<K>, r: nat, last: Option<Exchange>, shared: Shared<K>): System<K>
    requires r in s.requests && s.requests[r].stage.Active() && s.requests[r].stage.key in shared.admissions
  {
    Move(s, r, Finished(last), Leave(shared, s.requests[r].stage.key, s.requests[r].stage.HoldsLock()))
  }

  /** While another request of the query is active, leaving keeps the admission; it is deleted at zero only. */
  lemma {:induction false} LeaveKeepsOthers<K>(s: System<K>, r: nat, last: Option<Exchange>, shared: Shared<K>, q: nat)
    requires AdmissionInv(s) && At(s, r) && shared.admissions == s.shared.admissions
    requires At(s, q) && q != r
    ensures var t, key := Left(s, r, last, shared), s.requests[q].stage.key;
            key in t.shared.admissions && t.shared.admissions[key].id == s.shared.admissions[key].id
  {
    var key := s.requests[r].stage.key;
    if s.requests[q].stage.key == key && s.shared.admissions[key].references == 1 {
      CountUnique(s.requests, Referring(key), q, r);
    }
  }

  lemma {:induction false} LeaveKeepsCounts<K>(s: System<K>, r: nat, last: Option<Exchange>, shared: Shared<K>)
    requires AdmissionInv(s) && At(s, r) && shared.admissions == s.shared.admissions
    ensures ReferencesCounted(Left(s, r, last, shared)) && LockHeldOnce(Left(s, r, last, shared))
  {
    var t, key := Left(s, r, last, shared), s.requests[r].stage.key;
    CountPositive(s.requests, HoldingLock(key));
    assert HoldingLock(key)(s.requests[r]) == s.requests[r].stage.HoldsLock();
    CountsAfter(s, t, r);
  }

  lemma {:induction false} LeaveKeepsAdmissions<K>(s: System<K>, r: nat, last: Option<Exchange>, shared: Shared<K>)
    requires AdmissionInv(s) && At(s, r) && shared.admissions == s.shared.admissions
    ensures AdmissionInv(Left(s, r, last, shared))
  {
    var t := Left(s, r, last, shared);
    LeaveKeepsCounts(s, r, last, shared);
    forall q | At(t, q)
      ensures t.requests[q].stage.key in t.shared.admissions
      ensures t.shared.admissions[t.requests[q].stage.key].id == t.requests[q].admission
    {
      LeaveKeepsOthers(s, r, last, shared, q);
    }
  }

  lemma {:induction false} ServeKeepsAdmissions<K>(s: System<K>, cfg: Config, r: nat, input: Input)
    requires AdmissionInv(s) && Enabled(s, Serve(r, input))
    ensures AdmissionInv(Served(s, cfg, r, input))
  {
    var t, x := Served(s, cfg, r, input), s.requests[r].stage.exchange;
    var next := Next(x, input, cfg.recycleAfter);
    if next.point.Left? {
      var left := Left(s, r, Some(next), Effect(s.shared, x, next, input));
      LeaveKeepsAdmissions(s, r, Some(next), Effect(s.shared, x, next, input));
      assert t == left.(retired := t.retired);
    } else {
      MoveKeepsAdmissions(s, t, r);
    }
  }

  lemma {:induction false} StepKeepsAdmissions<K>(s: System<K>, cfg: Config, e: Event<K>)
    requires AdmissionInv(s) && Enabled(s, e)
    ensures AdmissionInv(Step(s, cfg, e))
  {
    match e
    case Arrive(r, key) => ArriveKeepsAdmissions(s, cfg, r, key);
    case Acquire(r) => AcquireKeepsAdmissions(s, cfg, r);
    case Take(r) => MoveKeepsAdmissions(s, Step(s, cfg, e), r);
    case GiveUp(r) => LeaveKeepsAdmissions(s, r, None, s.shared);
    case Serve(r, input) => ServeKeepsAdmissions(s, cfg, r, input);
  }

  /** Two requests of one query never have a worker, or wait for its replacement, at the same time. */
  lemma {:induction false} OneSlotPerQuery<K>(s: System<K>, q: nat, r: nat)
    requires AdmissionInv(s) && At(s, q) && At(s, r)
    requires s.requests[q].stage.HoldsLock() && s.requests[r].stage.HoldsLock()
    requires s.requests[q].stage.key == s.requests[r].stage.key
    ensures q == r
  {
    CountUnique(s.requests, HoldingLock(s.requests[q].stage.key), q, r);
  }

  // ---------- conservation of slots ----------

  function IsBusy<K>(): Request<K> -> bool {
    (r: Request<K>) => r.stage.Busy()
  }

  function IsReplacing<K>(): Request<K> -> bool {
    (r: Request<K>) => r.stage.Replaces()
  }

  function HasLost<K>(): Request<K> -> bool {
    (r: Request<K>) => r.stage.Lost()
  }

  /** Every exchange under way has neither returned its slot nor left; one that is over did one thing with it. */
  ghost predicate ExchangesSound<K>(s: System<K>) {
    forall r :: r in s.requests ==>
      match s.requests[r].stage
      case Serving(_, x) => SlotExchange.Sound(x) && !x.point.Left? && x.returned == 0
      case Finished(Some(x)) => SlotExchange.Sound(x) && x.point.Left?
      case _ => true
  }

  lemma {:induction false} StepKeepsExchanges<K>(s: System<K>, cfg: Config, e: Event<K>)
    requires ExchangesSound(s) && Enabled(s, e)
    ensures ExchangesSound(Step(s, cfg, e))
  {
    if e.Serve? {
      NextKeepsSound(s.requests[e.r].stage.exchange, e.input, cfg.recycleAfter);
    }
  }

  /** The slots there are: available, in use, or about to be replaced. */
  ghost function SlotCount<K>(s: System<K>): int {
    |s.shared.available| + Count(s.requests, IsBusy()) + Count(s.requests, IsReplacing())
  }

  /** With those lost, they add up to the configured number. */
  ghost predicate SlotsCounted<K>(s: System<K>, cfg: Config) {
    SlotCount(s) + Count(s.requests, HasLost()) == cfg.workerCount
  }

  /** What a request adds to the slots in use, about to be replaced, and lost. */
  function Weight<K>(q: Request<K>): int {
    One(q.stage.Busy()) + One(q.stage.Replaces()) + One(q.stage.Lost())
  }

  lemma {:induction false} SlotsAfter<K>(s: System<K>, t: System<K>, cfg: Config, r: nat)
    requires SlotsCounted(s, cfg) && Changed(s, t, r)
    requires |t.shared.available| + Weight(t.requests[r]) ==
               |s.shared.available| + if r in s.requests then Weight(s.requests[r]) else 0
    ensures SlotsCounted(t, cfg)
  {
    CountUpdate(s.requests, r, t.requests[r], IsBusy());
    CountUpdate(s.requests, r, t.requests[r], IsReplacing());
    CountUpdate(s.requests, r, t.requests[r], HasLost());
  }

  lemma {:induction false} ServeKeepsWeight<K>(s: System<K>, cfg: Config, r: nat, input: Input)
    requires ExchangesSound(s) && Enabled(s, Serve(r, input))
    ensures var t := Served(s, cfg, r, input);
            |t.shared.available| + Weight(t.requests[r]) == |s.shared.available| + Weight(s.requests[r])
  {
    NextKeepsSound(s.requests[r].stage.exchange, input, cfg.recycleAfter);
  }

  lemma {:induction false} StepKeepsSlotCount<K>(s: System<K>, cfg: Config, e: Event<K>)
    requires SlotsCounted(s, cfg) && ExchangesSound(s) && Enabled(s, e)
    ensures SlotsCounted(Step(s, cfg, e), cfg)
  {
    if e.Serve? {
      ServeKeepsWeight(s, cfg, e.r, e.input);
    }
    SlotsAfter(s, Step(s, cfg, e), cfg, e.r);
  }

  ghost predicate Holding<K>(s: System<K>, r: nat) {
    r in s.requests && s.requests[r].stage.Holds()
  }

  function SlotOf<K>(s: System<K>, r: nat): Slot
    requires r in s.requests && s.requests[r].stage.Serving?
  {
    s.requests[r].stage.exchange.slot
  }

  /** Every live worker is available or held by one request, in one place only. */
  ghost predicate SlotsSeparate<K>(s: System<K>) {
    && (forall i, j {:trigger s.shared.available[i].id, s.shared.available[j].id} ::
          0 <= i < j < |s.shared.available| ==> s.shared.available[i].id != s.shared.available[j].id)
    && (forall q, r :: Holding(s, q) && Holding(s, r) && q != r ==> SlotOf(s, q).id != SlotOf(s, r).id)
    && (forall i, r {:trigger s.shared.available[i].id, Holding(s, r)} ::
          0 <= i < |s.shared.available| && Holding(s, r) ==> s.shared.available[i].id != SlotOf(s, r).id)
  }

  /** Available and busy slots are live and may serve on; retired ones are neither live nor held. */
  ghost predicate SlotsFit<K>(s: System<K>, cfg: Config) {
    && (forall i :: 0 <= i < |s.shared.available| ==>
          s.shared.available[i].id in s.shared.workers && s.shared.available[i].completed < cfg.recycleAfter)
    && (forall r :: Holding(s, r) ==>
          SlotOf(s, r).id in s.shared.workers
              && (s.requests[r].stage.Busy() ==> SlotOf(s, r).completed < cfg.recycleAfter))
    && (forall w :: w in s.shared.workers ==> w < s.shared.nextSlot && w !in s.retired)
    && (forall w :: w in s.retired ==> w < s.shared.nextSlot)
  }

  ghost predicate Placed<K>(s: System<K>, cfg: Config) {
    SlotsSeparate(s) && SlotsFit(s, cfg)
  }

  lemma {:induction false} OthersKeepPlaces<K>(s: System<K>, t: System<K>, cfg: Config, r: nat)
    requires Placed(s, cfg) && Changed(s, t, r)
    requires Holding(t, r) ==> Holding(s, r) && SlotOf(t, r).id == SlotOf(s, r).id
    requires Holding(t, r) && t.requests[r].stage.Busy() ==> s.requests[r].stage.Busy() && SlotOf(t, r) == SlotOf(s, r)
    requires t.shared.available == s.shared.available && t.shared.workers == s.shared.workers
    requires t.shared.nextSlot == s.shared.nextSlot && t.retired == s.retired
    ensures Placed(t, cfg)
  {
    forall q | Holding(t, q) ensures Holding(s, q) && SlotOf(t, q).id == SlotOf(s, q).id {
    }
  }

  lemma {:induction false} TakeKeepsPlaces<K>(s: System<K>, t: System<K>, cfg: Config, r: nat)
    requires Placed(s, cfg) && s.shared.available != [] && Changed(s, t, r) && !Holding(s, r)
    requires Holding(t, r) && SlotOf(t, r) == s.shared.available[0]
    requires t.shared.available == s.shared.available[1..] && t.shared.workers == s.shared.workers
    requires t.shared.nextSlot == s.shared.nextSlot && t.retired == s.retired
    ensures Placed(t, cfg)
  {
    forall i | 0 <= i < |t.shared.available| ensures t.shared.available[i].id != s.shared.available[0].id {
      assert s.shared.available[i + 1].id != s.shared.available[0].id;
    }
    forall i, q | 0 <= i < |t.shared.available| && Holding(t, q) ensures t.shared.available[i].id != SlotOf(t, q).id {
      if q != r {
        assert Holding(s, q) && s.shared.available[i + 1].id != SlotOf(s, q).id;
      }
    }
    forall q | Holding(t, q) && q != r ensures SlotOf(t, q).id != s.shared.available[0].id {
      assert Holding(s, q);
    }
  }

  lemma {:induction false} ReturnKeepsPlaces<K>(s: System<K>, t: System<K>, cfg: Config, r: nat, slot: Slot)
    requires Placed(s, cfg) && Changed(s, t, r) && Holding(s, r) && !Holding(t, r)
    requires slot.id == SlotOf(s, r).id && slot.completed < cfg.recycleAfter
    requires t.shared.available == s.shared.available + [slot] && t.shared.workers == s.shared.workers
    requires t.shared.nextSlot == s.shared.nextSlot && t.retired == s.retired
    ensures Placed(t, cfg)
  {
    forall i | 0 <= i < |s.shared.available| ensures s.shared.available[i].id != slot.id {
    }
    forall q | Holding(t, q) ensures Holding(s, q) && SlotOf(t, q).id != slot.id {
    }
  }

  lemma {:induction false} RetireKeepsPlaces<K>(s: System<K>, t: System<K>, cfg: Config, r: nat)
    requires Placed(s, cfg) && Changed(s, t, r) && Holding(s, r) && !Holding(t, r)
    requires t.shared.available == s.shared.available && t.shared.workers == s.shared.workers - {SlotOf(s, r).id}
    requires t.shared.nextSlot == s.shared.nextSlot && t.retired == s.retired + {SlotOf(s, r).id}
    ensures Placed(t, cfg)
  {
    var id := SlotOf(s, r).id;
    forall i | 0 <= i < |s.shared.available| ensures s.shared.available[i].id != id {
    }
    forall q | Holding(t, q) ensures Holding(s, q) && SlotOf(t, q).id != id {
    }
  }

  lemma {:induction false} SpawnKeepsPlaces<K>(s: System<K>, t: System<K>, cfg: Config, r: nat)
    requires Placed(s, cfg) && cfg.recycleAfter >= 1 && Changed(s, t, r) && !Holding(t, r)
    requires t.shared.available == s.shared.available + [Slot(s.shared.nextSlot, 0)]
    requires t.shared.workers == s.shared.workers + {s.shared.nextSlot}
    requires t.shared.nextSlot == s.shared.nextSlot + 1 && t.retired == s.retired
    ensures Placed(t, cfg)
  {
    forall i | 0 <= i < |s.shared.available| ensures s.shared.available[i].id < s.shared.nextSlot {
    }
    forall q | Holding(t, q) ensures Holding(s, q) && SlotOf(t, q).id < s.shared.nextSlot {
    }
  }

  lemma {:induction false} ServeKeepsPlaces<K>(s: System<K>, cfg: Config, r: nat, input: Input)
    requires Placed(s, cfg) && ExchangesSound(s) && cfg.recycleAfter >= 1 && Enabled(s, Serve(r, input))
    ensures Placed(Served(s, cfg, r, input), cfg)
  {
    var t, x := Served(s, cfg, r, input), s.requests[r].stage.exchange;
    var next := Next(x, input, cfg.recycleAfter);
    assert Changed(s, t, r);
    if next.returned > x.returned {
      ReturnKeepsPlaces(s, t, cfg, r, next.slot);
    } else if input.TaskStarts? {
      RetireKeepsPlaces(s, t, cfg, r);
    } else if input.TaskEnds? {
      SpawnKeepsPlaces(s, t, cfg, r);
    } else {
      OthersKeepPlaces(s, t, cfg, r);
    }
  }

  lemma {:induction false} StepKeepsPlaces<K>(s: System<K>, cfg: Config, e: Event<K>)
    requires Placed(s, cfg) && ExchangesSound(s) && cfg.recycleAfter >= 1 && Enabled(s, e)
    ensures Placed(Step(s, cfg, e), cfg)
  {
    match e
    case Take(r) => TakeKeepsPlaces(s, Step(s, cfg, e), cfg, r);
    case Serve(r, input) => ServeKeepsPlaces(s, cfg, r, input);
    case _ => OthersKeepPlaces(s, Step(s, cfg, e), cfg, e.r);
  }

  // ---------- over every run ----------

  ghost predicate Inv<K>(s: System<K>, cfg: Config) {
    AdmissionInv(s) && ExchangesSound(s) && SlotsCounted(s, cfg) && Placed(s, cfg)
  }

  lemma {:induction false} InitInv<K>(cfg: Config)
    requires cfg.recycleAfter >= 1
    ensures Inv(Init<K>(cfg), cfg)
  {
    assert Matching(Init<K>(cfg).requests, IsBusy<K>()) == {};
    assert Matching(Init<K>(cfg).requests, IsReplacing<K>()) == {};
    assert Matching(Init<K>(cfg).requests, HasLost<K>()) == {};
  }

  lemma {:induction false} StepKeepsInv<K>(s: System<K>, cfg: Config, e: Event<K>)
    requires Inv(s, cfg) && cfg.recycleAfter >= 1 && Enabled(s, e)
    ensures Inv(Step(s, cfg, e), cfg)
  {
    StepKeepsAdmissions(s, cfg, e);
    StepKeepsExchanges(s, cfg, e);
    StepKeepsSlotCount(s, cfg, e);
    StepKeepsPlaces(s, cfg, e);
  }

  lemma {:induction false} RunKeepsInv<K>(s: System<K>, cfg: Config, events: seq<Event<K>>)
    requires Inv(s, cfg) && cfg.recycleAfter >= 1 && CanRun(s, cfg, events)
    ensures Inv(Run(s, cfg, events), cfg)
    decreases |events|
  {
    if events != [] {
      StepKeepsInv(s, cfg, events[0]);
      RunKeepsInv(Step(s, cfg, events[0]), cfg, events[1..]);
    }
  }

  /** Both requests have a worker, or wait for its replacement, for the same query. */
  ghost predicate ServeSameQuery<K>(s: System<K>, q: nat, r: nat) {
    && At(s, q) && s.requests[q].stage.Serving?
    && At(s, r) && s.requests[r].stage.Serving?
    && s.requests[q].stage.key == s.requests[r].stage.key
  }

  /** A request that got a worker returned it or had it replaced, once, unless an exception escaped from it. */
  ghost predicate DidOneThing<K>(q: Request<K>) {
    q.stage.Finished? && q.stage.last.Some? ==>
      SlotExchange.Escaped(q.stage.last.value) || q.stage.last.value.returned + q.stage.last.value.created == 1
  }

  lemma {:induction false} EachDidOneThing<K>(s: System<K>)
    requires ExchangesSound(s)
    ensures forall r :: r in s.requests ==> DidOneThing(s.requests[r])
  {
  }

  ghost predicate AvailableFit<K>(s: System<K>, cfg: Config) {
    forall i :: 0 <= i < |s.shared.available| ==>
      s.shared.available[i].completed < cfg.recycleAfter && s.shared.available[i].id !in s.retired
  }

  lemma {:induction false} AvailableAreFit<K>(s: System<K>, cfg: Config)
    requires SlotsFit(s, cfg)
    ensures AvailableFit(s, cfg)
  {
  }

  /**
   Over every run from start: no slot is lost but by a failed replacement or an escaped exception, none is
   retired or worn out while available; each query has one at most; and every other request that got one
   returned it or had it replaced, once.
   */
  lemma {:induction false} PoolIsSafe<K>(cfg: Config, events: seq<Event<K>>)
    requires cfg.recycleAfter >= 1 && CanRun(Init<K>(cfg), cfg, events)
    ensures var s := Run(Init<K>(cfg), cfg, events);
            && SlotsCounted(s, cfg) && AvailableFit(s, cfg)
            && (forall q, r :: ServeSameQuery(s, q, r) ==> q == r)
            && (forall r :: r in s.requests ==> DidOneThing(s.requests[r]))
  {
    InitInv<K>(cfg);
    RunKeepsInv(Init<K>(cfg), cfg, events);
    var s := Run(Init<K>(cfg), cfg, events);
    AvailableAreFit(s, cfg);
    EachDidOneThing(s);
    forall q, r | ServeSameQuery(s, q, r) ensures q == r {
      OneSlotPerQuery(s, q, r);
    }
  }

  // ---------- what requests come to ----------

  /** The inputs of one request's exchange, in order. */
  function InputsOf<K>(events: seq<Event<K>>, r: nat): seq<Input> {
    if events == [] then []
    else (if events[0].Serve? && events[0].r == r then [events[0].input] else []) + InputsOf(events[1..], r)
  }

  /** The request got a worker. */
  predicate Worked<K>(s: System<K>, r: nat) {
    r in s.requests && var stage := s.requests[r].stage; stage.Serving? || (stage.Finished? && stage.last.Some?)
  }

  function ExchangeOf<K>(s: System<K>, r: nat): Exchange
    requires Worked(s, r)
  {
    if s.requests[r].stage.Serving? then s.requests[r].stage.exchange else s.requests[r].stage.last.value
  }

  /** The request's exchange is that of a call begun with this slot, over these inputs. */
  ghost predicate Exchanging<K>(s: System<K>, cfg: Config, r: nat, slot: Slot, inputs: seq<Input>)
    requires Worked(s, r)
  {
    CanExchange(Begin(slot), inputs, cfg.recycleAfter)
    && ExchangeOf(s, r) == Exchanged(Begin(slot), inputs, cfg.recycleAfter)
  }

  lemma {:induction false} ExchangeGoesOn<K>(s: System<K>, cfg: Config, events: seq<Event<K>>, r: nat)
    requires CanRun(s, cfg, events) && Worked(s, r)
    ensures var t, x, inputs := Run(s, cfg, events), ExchangeOf(s, r), InputsOf(events, r);
            && Worked(t, r) && CanExchange(x, inputs, cfg.recycleAfter)
            && ExchangeOf(t, r) == Exchanged(x, inputs, cfg.recycleAfter)
    decreases |events|
  {
    if events != [] {
      var next, inputs := Step(s, cfg, events[0]), InputsOf(events, r);
      ExchangeGoesOn(next, cfg, events[1..], r);
      if events[0].Serve? && events[0].r == r {
        assert inputs[0] == events[0].input && inputs[1..] == InputsOf(events[1..], r);
        assert ExchangeOf(next, r) == Next(ExchangeOf(s, r), inputs[0], cfg.recycleAfter);
      } else {
        assert inputs == InputsOf(events[1..], r) && ExchangeOf(next, r) == ExchangeOf(s, r);
      }
    }
  }

  lemma {:induction false} ExchangeBegins<K>(s: System<K>, cfg: Config, events: seq<Event<K>>, r: nat)
    requires CanRun(s, cfg, events) && !Worked(s, r)
    ensures !Worked(Run(s, cfg, events), r) ==> InputsOf(events, r) == []
    ensures Worked(Run(s, cfg, events), r) ==>
              exists slot :: Exchanging(Run(s, cfg, events), cfg, r, slot, InputsOf(events, r))
    decreases |events|
  {
    if events != [] {
      var next := Step(s, cfg, events[0]);
      if Worked(next, r) {
        ExchangeGoesOn(next, cfg, events[1..], r);
        assert events[0] == Take(r) && InputsOf(events, r) == InputsOf(events[1..], r);
        assert Run(s, cfg, events) == Run(next, cfg, events[1..]);
        assert Exchanging(Run(s, cfg, events), cfg, r, s.shared.available[0], InputsOf(events, r));
      } else {
        assert InputsOf(events, r) == InputsOf(events[1..], r);
        ExchangeBegins(next, cfg, events[1..], r);
      }
    }
  }

  /** The request gave up waiting for the lock or for a worker. */
  predicate GaveUp<K>(s: System<K>, r: nat) {
    r in s.requests && s.requests[r].stage.Finished? && s.requests[r].stage.last.None?
  }

  lemma {:induction false} RunStages<K>(s: System<K>, cfg: Config, events: seq<Event<K>>, r: nat)
    requires CanRun(s, cfg, events)
    ensures GaveUp(Run(s, cfg, events), r) <==> GaveUp(s, r) || GiveUp(r) in events
    ensures Worked(Run(s, cfg, events), r) <==> Worked(s, r) || Take(r) in events
    decreases |events|
  {
    if events != [] {
      RunStages(Step(s, cfg, events[0]), cfg, events[1..], r);
      assert forall e :: e in events <==> e == events[0] || e in events[1..];
    }
  }

  /** Over every run a request has given up if and only if it did so, and got a worker if and only if it took one. */
  lemma {:induction false} GaveUpExactlyWhen<K>(cfg: Config, events: seq<Event<K>>, r: nat)
    requires CanRun(Init<K>(cfg), cfg, events)
    ensures GaveUp(Run(Init<K>(cfg), cfg, events), r) <==> GiveUp(r) in events
    ensures Worked(Run(Init<K>(cfg), cfg, events), r) <==> Take(r) in events
  {
    RunStages(Init<K>(cfg), cfg, events, r);
  }

  /**
   What a finished request comes to over every run: without a worker it had no exchange; with one, the
   inputs of its exchange decide, and nothing of any other request does.
   */
  lemma {:induction false} FinishedExactlyAs<K>(cfg: Config, events: seq<Event<K>>, r: nat)
    requires cfg.recycleAfter >= 1 && CanRun(Init<K>(cfg), cfg, events)
    requires var s := Run(Init<K>(cfg), cfg, events); r in s.requests && s.requests[r].stage.Finished?
    ensures var last, inputs := Run(Init<K>(cfg), cfg, events).requests[r].stage.last, InputsOf(events, r);
            && (last.None? ==> inputs == [])
            && (last.Some? ==>
                  && last.value.point.Left?
                  && (last.value.point.exit == ReturnedResponse <==>
                        ReceivedResponse(inputs) && !ReplacementCrashed(inputs))
                  && (last.value.point.exit == Raised <==>
                        CancelledTalking(inputs) || Uncaught in inputs || ReplacementCrashed(inputs)))
  {
    InitInv<K>(cfg);
    RunKeepsInv(Init<K>(cfg), cfg, events);
    ExchangeBegins(Init<K>(cfg), cfg, events, r);
    var s, inputs := Run(Init<K>(cfg), cfg, events), InputsOf(events, r);
    if s.requests[r].stage.last.Some? {
      var slot :| Exchanging(s, cfg, r, slot, inputs);
      LeavesExactlyWhen(slot, inputs, cfg.recycleAfter);
    }
  }

  // ---------- how slots are lost ----------

  /** A replacement fails, or an exception escapes that no handler names. */
  predicate LosesSlot<K>(e: Event<K>) {
    e.Serve? && (e.input.TaskCrashes? || e.input.Uncaught?)
  }

  function Losses<K>(events: seq<Event<K>>): nat {
    if events == [] then 0 else One(LosesSlot(events[0])) + Losses(events[1..])
  }

  lemma {:induction false} NoLosses<K>(events: seq<Event<K>>)
    ensures Losses(events) == 0 <==> forall e :: e in events ==> !LosesSlot(e)
  {
    if events != [] {
      NoLosses(events[1..]);
      assert forall e :: e in events <==> e == events[0] || e in events[1..];
    }
  }

  lemma {:induction false} StepLoses<K>(s: System<K>, cfg: Config, e: Event<K>)
    requires ExchangesSound(s) && Enabled(s, e)
    ensures Count(Step(s, cfg, e).requests, HasLost()) == Count(s.requests, HasLost()) + One(LosesSlot(e))
  {
    var t := Step(s, cfg, e);
    assert Changed(s, t, e.r);
    CountUpdate(s.requests, e.r, t.requests[e.r], HasLost());
    if e.Serve? {
      NextKeepsSound(s.requests[e.r].stage.exchange, e.input, cfg.recycleAfter);
    }
  }

  lemma {:induction false} RunLoses<K>(s: System<K>, cfg: Config, events: seq<Event<K>>)
    requires ExchangesSound(s) && SlotsCounted(s, cfg) && CanRun(s, cfg, events)
    ensures SlotCount(Run(s, cfg, events)) + Losses(events) == SlotCount(s)
    decreases |events|
  {
    if events != [] {
      StepLoses(s, cfg, events[0]);
      StepKeepsExchanges(s, cfg, events[0]);
      StepKeepsSlotCount(s, cfg, events[0]);
      RunLoses(Step(s, cfg, events[0]), cfg, events[1..]);
    }
  }

  /**
   Over every run the pool has one slot less for each replacement that failed and each exception that
   escaped, and so keeps them all if and only if neither happened.
   */
  lemma {:induction false} SlotsAreKeptExactlyWhen<K>(cfg: Config, events: seq<Event<K>>)
    requires cfg.recycleAfter >= 1 && CanRun(Init<K>(cfg), cfg, events)
    ensures var s := Run(Init<K>(cfg), cfg, events);
            && SlotCount(s) + Losses(events) == cfg.workerCount
            && (SlotCount(s) == cfg.workerCount <==> forall e :: e in events ==> !LosesSlot(e))
  {
    InitInv<K>(cfg);
    CountPositive(Init<K>(cfg).requests, HasLost<K>());
    RunLoses(Init<K>(cfg), cfg, events);
    NoLosses(events);
  }

  lemma {:induction false} EmptyStaysEmpty<K>(s: System<K>, cfg: Config, e: Event<K>)
    requires ExchangesSound(s) && SlotsCounted(s, cfg) && SlotCount(s) == 0 && Enabled(s, e)
    ensures !e.Take? && SlotCount(Step(s, cfg, e)) == 0
  {
    StepLoses(s, cfg, e);
    StepKeepsSlotCount(s, cfg, e);
  }

  /** A pool without slots never gives a worker to a request again: whoever waits can only give up. */
  lemma {:induction false} EmptyPoolServesNobody<K>(s: System<K>, cfg: Config, events: seq<Event<K>>)
    requires Inv(s, cfg) && cfg.recycleAfter >= 1 && SlotCount(s) == 0 && CanRun(s, cfg, events)
    ensures forall e :: e in events ==> !e.Take?
    ensures var t := Run(s, cfg, events);
            forall r :: At(t, r) && !t.requests[r].stage.Serving? ==> !Enabled(t, Take(r)) && Enabled(t, GiveUp(r))
    decreases |events|
  {
    if events != [] {
      EmptyStaysEmpty(s, cfg, events[0]);
      StepKeepsInv(s, cfg, events[0]);
      EmptyPoolServesNobody(Step(s, cfg, events[0]), cfg, events[1..]);
      assert forall e :: e in events <==> e == events[0] || e in events[1..];
    }
  }

  lemma {:induction false} RunFirst<K>(s: System<K>, cfg: Config, e: Event<K>, rest: seq<Event<K>>)
    requires Enabled(s, e) && CanRun(Step(s, cfg, e), cfg, rest)
    ensures CanRun(s, cfg, [e] + rest) && Run(s, cfg, [e] + rest) == Run(Step(s, cfg, e), cfg, rest)
  {
    assert ([e] + rest)[1..] == rest;
  }

  /** The only worker of a pool, taken by request 1. */
  function Taken<K>(key: K, stage: Stage<K>): System<K> {
    System(Shared([], {0}, map[key := Admission(0, true, 1)], 1, 1), map[1 := Request(0, stage)], {})
  }

  lemma {:induction false} OneIsTaken<K>(cfg: Config, key: K, rest: seq<Event<K>>)
    requires cfg.workerCount == 1 && CanRun(Taken(key, Serving(key, Begin(Slot(0, 0)))), cfg, rest)
    ensures CanRun(Init(cfg), cfg, [Arrive(1, key), Acquire(1), Take(1)] + rest)
    ensures Run(Init(cfg), cfg, [Arrive(1, key), Acquire(1), Take(1)] + rest)
         == Run(Taken(key, Serving(key, Begin(Slot(0, 0)))), cfg, rest)
  {
    var arrive: Event<K>, acquire: Event<K>, take: Event<K> := Arrive(1, key), Acquire(1), Take(1);
    var s0 := Init<K>(cfg);
    var s1 := Step(s0, cfg, arrive);
    var s2 := Step(s1, cfg, acquire);
    assert s0.shared.available == [Slot(0, 0)] && s0.shared.workers == {0};
    assert Step(s2, cfg, take) == Taken(key, Serving(key, Begin(Slot(0, 0))));
    RunFirst(s2, cfg, take, rest);
    RunFirst(s1, cfg, acquire, [take] + rest);
    RunFirst(s0, cfg, arrive, [acquire] + ([take] + rest));
    assert [arrive] + ([acquire] + ([take] + rest)) == [arrive, acquire, take] + rest;
  }

  /** A run in which the worker breaks, and the one that should replace it does not start: no slot is left. */
  lemma {:induction false} FailedReplacementLosesSlot<K>(cfg: Config, key: K) returns (events: seq<Event<K>>)
    requires cfg.workerCount == 1 && cfg.recycleAfter >= 1
    ensures CanRun(Init(cfg), cfg, events) && SlotCount(Run(Init(cfg), cfg, events)) == 0
    ensures events == [Arrive(1, key), Acquire(1), Take(1)]
                      + [Serve(1, Broken), Serve(1, TaskStarts), Serve(1, TaskCrashes(false))]
  {
    var broken: Event<K>, starts: Event<K>, crashes: Event<K> :=
      Serve(1, Broken), Serve(1, TaskStarts), Serve(1, TaskCrashes(false));
    var s0 := Taken(key, Serving(key, Begin(Slot(0, 0))));
    var s1 := Step(s0, cfg, broken);
    var s2 := Step(s1, cfg, starts);
    RunFirst(s2, cfg, crashes, []);
    RunFirst(s1, cfg, starts, [crashes]);
    RunFirst(s0, cfg, broken, [starts, crashes]);
    assert [broken] + [starts, crashes] == [broken, starts, crashes];
    OneIsTaken(cfg, key, [broken, starts, crashes]);
    events := [Arrive(1, key), Acquire(1), Take(1)] + [broken, starts, crashes];
    SlotsAreKeptExactlyWhen(cfg, events);
    assert LosesSlot(crashes) && crashes in events;
  }

  /** A run in which receiving raises what no handler names: no slot is left, and no replacement failed. */
  lemma {:induction false} EscapedExceptionLosesSlot<K>(cfg: Config, key: K) returns (events: seq<Event<K>>)
    requires cfg.workerCount == 1 && cfg.recycleAfter >= 1
    ensures CanRun(Init(cfg), cfg, events) && SlotCount(Run(Init(cfg), cfg, events)) == 0
    ensures events == [Arrive(1, key), Acquire(1), Take(1)]
                      + [Serve(1, Sent), Serve(1, Answerable(true)), Serve(1, Uncaught)]
  {
    var sent: Event<K>, ready: Event<K>, uncaught: Event<K> :=
      Serve(1, Sent), Serve(1, Answerable(true)), Serve(1, Uncaught);
    var s0 := Taken(key, Serving(key, Begin(Slot(0, 0))));
    var s1 := Step(s0, cfg, sent);
    var s2 := Step(s1, cfg, ready);
    RunFirst(s2, cfg, uncaught, []);
    RunFirst(s1, cfg, ready, [uncaught]);
    RunFirst(s0, cfg, sent, [ready, uncaught]);
    assert [sent] + [ready, uncaught] == [sent, ready, uncaught];
    OneIsTaken(cfg, key, [sent, ready, uncaught]);
    events := [Arrive(1, key), Acquire(1), Take(1)] + [sent, ready, uncaught];
    SlotsAreKeptExactlyWhen(cfg, events);
    assert LosesSlot(uncaught) && uncaught in events;
  }
}
