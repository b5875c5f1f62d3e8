/**
 The worker pool as the source writes it: a queue and a list of slot objects, and a dictionary of
 admission objects, updated in place. Each method is one stretch between two suspensions; it names
 the fields it may change, and ties them to the functions of PoolProtocol.
 */
module WorkerPool {
  import opened PoolProtocol
  import opened SlotExchange

  class WorkerSlot {
    const id: nat
    var completedRequests: nat

    constructor (id: nat)
      ensures this.id == id && completedRequests == 0
    {
      this.id := id;
      completedRequests := 0;
    }
  }

  class QueryAdmission {
    const id: nat
    var locked: bool
    var references: int

    constructor (id: nat)
      ensures this.id == id && !locked && references == 0
    {
      this.id := id;
      locked, references := false, 0;
    }
  }

  /**
   The local variables of a call on its slot: where it is suspended, its replacement task, and, for
   specification, what it has done with the slot.
   */
  class SlotCall {
    const slot: WorkerSlot
    var point: Point
    var task: Task
    ghost var created: nat
    ghost var returned: nat

    constructor (slot: WorkerSlot)
      ensures this.slot == slot && Value() == Begin(SlotValue(slot))
    {
      this.slot := slot;
      point, task, created, returned := Sending, NoTask, 0, 0;
    }

    ghost function Value(): Exchange
      reads this, slot
    {
      Exchange(SlotValue(slot), point, task, created, returned)
    }

    /** Creates the replacement task unless there is one, and suspends on it. */
    method ReplaceOnce(handler: Handler)
      modifies this`point, this`task, this`created
      ensures Value() == SlotExchange.ReplaceOnce(old(Value()), handler)
    {
      if task.NoTask? {
        task := Scheduled;
        created := created + 1;
      }
      point := Replacing(handler);
    }

    /** Resumed after the replacement ended: what it raised may be caught by the try block around the await. */
    method ReplacementSeen()
      requires point.Replacing? && task.Over()
      modifies this`point, this`task, this`created
      ensures Value() == Next(old(Value()), TaskSeen, 0)
    {
      var handler := point.handler;
      if task.Crashed? {
        if handler.InTry? && task.broken {
          ReplaceOnce(OnBroken);
        } else {
          point := Left(Raised);
        }
      } else if handler.OnCancelled? {
        point := Left(Raised);
      } else if handler == AfterTry(true) {
        point := Left(ReturnedResponse);
      } else {
        point := Left(ReturnedFailure);
      }
    }

    /** Resumed at an await of the exchange, or cancelled there: the branches of the try statement. */
    method Resume(input: Input)
      requires IsLocal(input) && Applies(Value(), input)
      modifies this`point, this`task, this`created
      ensures Value() == Next(old(Value()), input, 0)
    {
      if input.Sent? {
        point := Polling;
      } else if input.Answerable? {
        if input.ready {
          point := Receiving;
        } else {
          ReplaceOnce(InTry);
        }
      } else if input.Broken? {
        ReplaceOnce(OnBroken);
      } else if input.Uncaught? {
        point := Left(Raised);
      } else if input.TaskSeen? {
        ReplacementSeen();
      } else if point.Talking() {
        ReplaceOnce(OnCancelled);
      }
    }
  }

  /** Inputs that concern the call alone. */
  predicate IsLocal(input: Input) {
    || input.Sent? || input.Answerable? || input.Broken? || input.Uncaught? || input.Cancelled? || input.TaskSeen?
  }

  ghost function SlotValue(slot: WorkerSlot): Slot
    reads slot
  {
    Slot(slot.id, slot.completedRequests)
  }

  ghost function SlotValues(slots: seq<WorkerSlot>): (values: seq<Slot>)
    reads slots
    ensures |values| == |slots| && forall i :: 0 <= i < |slots| ==> values[i] == SlotValue(slots[i])
  {
    if slots == [] then [] else [SlotValue(slots[0])] + SlotValues(slots[1..])
  }

  lemma {:induction false} SlotValuesAppend(slots: seq<WorkerSlot>, slot: WorkerSlot)
    ensures SlotValues(slots + [slot]) == SlotValues(slots) + [SlotValue(slot)]
  {
  }

  function Ids(slots: seq<WorkerSlot>): set<nat> {
    set w | w in slots :: w.id
  }

  lemma {:induction false} IdsAppend(slots: seq<WorkerSlot>, slot: WorkerSlot)
    ensures Ids(slots + [slot]) == Ids(slots) + {slot.id}
  {
  }

  lemma {:induction false} IdsRemove(slots: seq<WorkerSlot>, i: nat)
    requires i < |slots| && forall j, k :: 0 <= j < k < |slots| ==> slots[j].id != slots[k].id
    ensures Ids(slots[..i] + slots[i + 1..]) == Ids(slots) - {slots[i].id}
  {
    var rest := slots[..i] + slots[i + 1..];
    forall w | w in slots && w.id != slots[i].id ensures w in rest {
      var j :| 0 <= j < |slots| && slots[j] == w;
      assert rest[if j < i then j else j - 1] == w;
    }
    forall w | w in rest ensures w in slots && w.id != slots[i].id {
      var j :| 0 <= j < |rest| && rest[j] == w;
      assert slots[if j < i then j else j + 1] == w;
    }
  }

  class WorkerPool<K(==)> {
    const recycleAfter: nat
    var available: seq<WorkerSlot>
    var workers: seq<WorkerSlot>
    var admissions: map<K, QueryAdmission>
    var nextSlot: nat
    var nextAdmission: nat

    /** Distinct queries have distinct admissions, and worker numbers are unique. */
    ghost predicate Valid()
      reads this
    {
      && (forall j, k :: j in admissions && k in admissions && j != k ==> admissions[j] != admissions[k])
      && (forall i, j :: 0 <= i < j < |workers| ==> workers[i].id != workers[j].id)
      && (forall w :: w in workers ==> w.id < nextSlot)
      && (forall w :: w in available ==> w in workers)
    }

    ghost function Admissions(): map<K, Admission>
      reads this`admissions, admissions.Values
    {
      map k | k in admissions :: Admission(admissions[k].id, admissions[k].locked, admissions[k].references)
    }

    /** The shared state these fields represent. */
    ghost function Model(): Shared<K>
      reads this, admissions.Values, available
    {
      Shared(SlotValues(available), Ids(workers), Admissions(), nextSlot, nextAdmission)
    }

    constructor (recycleAfter: nat)
      ensures Valid() && this.recycleAfter == recycleAfter
      ensures Model() == Shared([], {}, map[], 0, 0)
    {
      this.recycleAfter := recycleAfter;
      available, workers, admissions, nextSlot, nextAdmission := [], [], map[], 0, 0;
    }

    /** The query's admission, made if there is none. */
    method SetDefault(key: K) returns (admission: QueryAdmission)
      requires Valid()
      modifies this`admissions, this`nextAdmission
      ensures Valid() && key in admissions && admission == admissions[key]
      ensures key in old(admissions) ==> admissions == old(admissions) && nextAdmission == old(nextAdmission)
      ensures key !in old(admissions) ==>
                && fresh(admission) && admission.id == old(nextAdmission)
                && !admission.locked && admission.references == 0
                && admissions == old(admissions)[key := admission] && nextAdmission == old(nextAdmission) + 1
    {
      if key !in admissions {
        admission := new QueryAdmission(nextAdmission);
        admissions := admissions[key := admission];
        nextAdmission := nextAdmission + 1;
      } else {
        admission := admissions[key];
      }
    }

    /** Before waiting for a turn: the query's admission, shared by all requests of the query. */
    method Refer(key: K) returns (admission: QueryAdmission)
      requires Valid()
      modifies this`admissions, this`nextAdmission, admissions.Values
      ensures Valid() && key in admissions && admission == admissions[key]
      ensures key in old(admissions) ==> admission == old(admissions[key])
      ensures var (id, shared) := PoolProtocol.Refer(old(Model()), key);
              admission.id == id && Admissions() == shared.admissions && nextAdmission == shared.nextAdmission
    {
      admission := SetDefault(key);
      admission.references := admission.references + 1;
      assert Admissions() == PoolProtocol.Refer(old(Model()), key).1.admissions;
    }

    /** The final block of a request. */
    method Leave(key: K, admission: QueryAdmission, acquired: bool)
      requires Valid() && key in admissions && admissions[key] == admission
      modifies this`admissions, admission
      ensures Valid() && Admissions() == PoolProtocol.Leave(old(Model()), key, acquired).admissions
    {
      if acquired {
        admission.locked := false;
      }
      admission.references := admission.references - 1;
      if admission.references == 0 {
        admissions := admissions - {key};
      }
      assert Admissions() == PoolProtocol.Leave(old(Model()), key, acquired).admissions;
    }

    /** Takes the slot that has been available longest. */
    method Take() returns (slot: WorkerSlot)
      requires Valid() && available != []
      modifies this`available
      ensures Valid() && slot == old(available)[0]
      ensures SlotValues(available) == old(Model()).available[1..] && SlotValue(slot) == old(Model()).available[0]
    {
      slot := available[0];
      available := available[1..];
    }

    /** A valid response counts against the slot, which goes back to the queue unless it is recycled. */
    method Answered(slot: WorkerSlot, fatal: bool) returns (recycle: bool)
      requires Valid() && slot in workers && slot !in available
      modifies slot, this`available
      ensures Valid() && recycle == Recycled(old(SlotValue(slot)), fatal, recycleAfter)
      ensures SlotValue(slot) == old(SlotValue(slot)).(completed := old(slot.completedRequests) + 1)
      ensures recycle ==> available == old(available) && SlotValues(available) == old(SlotValues(available))
      ensures !recycle ==>
                && available == old(available) + [slot]
                && SlotValues(available) == Queue(old(Model()), SlotValue(slot)).available
    {
      ghost var values := SlotValues(available);
      slot.completedRequests := slot.completedRequests + 1;
      recycle := fatal || slot.completedRequests >= recycleAfter;
      assert SlotValues(available) == values;
      if !recycle {
        SlotValuesAppend(available, slot);
        available := available + [slot];
      }
    }

    /**
     The stretch of a call that receives a response: an invalid one, or one of a slot to be recycled,
     calls for a replacement; any other puts the slot back in the queue and ends the call.
     */
    method Respond(call: SlotCall, valid: bool, fatal: bool)
      requires Valid() && call.slot in workers && call.slot !in available && call.point.Receiving?
      modifies call, call.slot, this`available
      ensures Valid() && call.Value() == Next(old(call.Value()), Received(valid, fatal), recycleAfter)
      ensures available == if call.returned > old(call.returned) then old(available) + [call.slot] else old(available)
    {
      if !valid {
        call.ReplaceOnce(AfterTry(false));
        return;
      }
      var recycle := Answered(call.slot, fatal);
      if recycle {
        call.ReplaceOnce(AfterTry(true));
      } else {
        call.returned := call.returned + 1;
        call.point := Left(ReturnedResponse);
      }
    }

    /**
     One stretch of a call on its slot, from the end of an await to the next one or to the way out.
     The queue grows by the slot exactly when the call returns it; the call returns its slot or creates a
     replacement at most once in all; and a cancellation while it waits for one changes nothing.
     */
    method ExecuteSlot(call: SlotCall, input: Input)
      requires Valid() && call.slot in workers && call.slot !in available
      requires Applies(call.Value(), input) && (IsLocal(input) || input.Received?)
      modifies call, call.slot, this`available
      ensures Valid() && call.Value() == Next(old(call.Value()), input, recycleAfter)
      ensures available == if call.returned > old(call.returned) then old(available) + [call.slot] else old(available)
      ensures SlotExchange.Sound(old(call.Value())) ==>
                SlotExchange.Sound(call.Value()) && call.created + call.returned <= 1
      ensures input.Cancelled? && old(call.point).Replacing? ==> call.Value() == old(call.Value())
    {
      ghost var before := call.Value();
      if SlotExchange.Sound(before) {
        NextKeepsSound(before, input, recycleAfter);
      }
      if input.Received? {
        Respond(call, input.valid, input.fatal);
      } else {
        call.Resume(input);
      }
    }

    /** Retiring a slot takes it off the list of live workers, if it is on it. */
    method Retire(slot: WorkerSlot)
      requires Valid() && slot !in available
      modifies this`workers
      ensures Valid() && slot !in workers
      ensures Ids(workers) ==
              (if slot in old(workers) then RetireSlot(old(Model()), SlotValue(slot)) else old(Model())).workers
    {
      var i := 0;
      while i < |workers| && workers[i] != slot
        invariant i <= |workers| && slot !in workers[..i]
      {
        i := i + 1;
      }
      if i < |workers| {
        IdsRemove(workers, i);
        ghost var before := workers;
        workers := workers[..i] + workers[i + 1..];
        assert forall w :: w in before ==> w in workers || w == slot;
      }
    }

    method SpawnWorker() returns (slot: WorkerSlot)
      requires Valid()
      modifies this`workers, this`nextSlot
      ensures Valid() && fresh(slot) && SlotValue(slot) == Slot(old(nextSlot), 0)
      ensures workers == old(workers) + [slot] && nextSlot == old(nextSlot) + 1
    {
      slot := new WorkerSlot(nextSlot);
      workers := workers + [slot];
      nextSlot := nextSlot + 1;
    }

    /** A replacement worker that became ready joins the live workers and the queue. */
    method Spawn()
      requires Valid()
      modifies this`workers, this`available, this`nextSlot
      ensures var shared := PoolProtocol.Spawn(old(Model()));
              SlotValues(available) == shared.available && Ids(workers) == shared.workers && nextSlot == shared.nextSlot
      ensures Valid()
    {
      ghost var queue, live := available, workers;
      var slot := SpawnWorker();
      available := available + [slot];
      IdsAppend(live, slot);
      SlotValuesAppend(queue, slot);
    }
  }
}
