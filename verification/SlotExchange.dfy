/**
 One request on its worker slot, by program point: sending, polling and receiving inside the try
 block, and awaiting the replacement from the try block, from one of its handlers, or after it. A
 cancellation may arrive wherever the source awaits, and so may an exception that no handler of the try
 block names, such as one of unpickling a response. The replacement runs as a task of its own.
 */
module SlotExchange {
  datatype Slot = Slot(id: nat, completed: nat)

  /** Which code awaits the replacement; after the try block there is a response, or an invalid one. */
  datatype Handler = InTry | OnBroken | OnCancelled | AfterTry(response: bool)

  datatype Exit = ReturnedFailure | ReturnedResponse | Raised

  datatype Point = Sending | Polling | Receiving | Replacing(handler: Handler) | Left(exit: Exit)
  {
    predicate Talking() {
      Sending? || Polling? || Receiving?
    }
  }

  /** The replacement task: not created, created, taking the old slot out of service, or over. */
  datatype Task = NoTask | Scheduled | Retiring | Ended | Crashed(broken: bool)
  {
    predicate Over() {
      Ended? || Crashed?
    }
  }

  /** The call, with the number of replacement tasks it created and of times it returned its slot. */
  datatype Exchange = Exchange(slot: Slot, point: Point, task: Task, created: nat, returned: nat)

  datatype Input =
    | Sent
    | Answerable(ready: bool)
    | Received(valid: bool, fatal: bool)
    | Broken
    | Uncaught
    | Cancelled
    | TaskStarts
    | TaskEnds
    | TaskCrashes(broken: bool)
    | TaskSeen

  function Begin(slot: Slot): Exchange {
    Exchange(slot, Sending, NoTask, 0, 0)
  }

  predicate Applies(x: Exchange, i: Input) {
    match i
    case Sent => x.point.Sending?
    case Answerable(_) => x.point.Polling?
    case Received(_, _) => x.point.Receiving?
    case Broken => x.point.Talking()
    case Uncaught => x.point.Talking()
    case Cancelled => !x.point.Left?
    case TaskStarts => x.task.Scheduled?
    case TaskEnds => x.task.Retiring?
    case TaskCrashes(_) => x.task.Retiring?
    case TaskSeen => x.point.Replacing? && x.task.Over()
  }

  /** A slot is recycled after a fatal failure or after enough requests. */
  predicate Recycled(slot: Slot, fatal: bool, recycleAfter: nat) {
    fatal || slot.completed + 1 >= recycleAfter
  }

  /** Creates the replacement task if there is none, and awaits it. */
  function ReplaceOnce(x: Exchange, handler: Handler): Exchange {
    if x.task.NoTask? then x.(task := Scheduled, created := x.created + 1, point := Replacing(handler))
    else x.(point := Replacing(handler))
  }

  function Leaving(x: Exchange, handler: Handler): Exchange {
    match handler
    case OnCancelled => x.(point := Left(Raised))
    case AfterTry(true) => x.(point := Left(ReturnedResponse))
    case _ => x.(point := Left(ReturnedFailure))
  }

  function Next(x: Exchange, i: Input, recycleAfter: nat): Exchange
    requires Applies(x, i)
  {
    match i
    case Sent => x.(point := Polling)
    case Answerable(ready) => if ready then x.(point := Receiving) else ReplaceOnce(x, InTry)
    case Received(valid, fatal) =>
      if !valid then ReplaceOnce(x, AfterTry(false))
      else
        var answered := x.(slot := x.slot.(completed := x.slot.completed + 1));
        if Recycled(x.slot, fatal, recycleAfter) then ReplaceOnce(answered, AfterTry(true))
        else answered.(returned := x.returned + 1, point := Left(ReturnedResponse))
    case Broken => ReplaceOnce(x, OnBroken)
    case Uncaught => x.(point := Left(Raised))
    case Cancelled => if x.point.Talking() then ReplaceOnce(x, OnCancelled) else x
    case TaskStarts => x.(task := Retiring)
    case TaskEnds => x.(task := Ended)
    case TaskCrashes(broken) => x.(task := Crashed(broken))
    case TaskSeen =>
      if x.task.Ended? then Leaving(x, x.point.handler)
      // What the task raises inside the try block is caught there if it is a broken pipe.
      else if x.point.handler.InTry? && x.task.broken then ReplaceOnce(x, OnBroken)
      else x.(point := Left(Raised))
  }

  predicate CanExchange(x: Exchange, inputs: seq<Input>, recycleAfter: nat)
    decreases |inputs|
  {
    inputs == [] || (Applies(x, inputs[0]) && CanExchange(Next(x, inputs[0], recycleAfter), inputs[1..], recycleAfter))
  }

  function Exchanged(x: Exchange, inputs: seq<Input>, recycleAfter: nat): Exchange
    requires CanExchange(x, inputs, recycleAfter)
    decreases |inputs|
  {
    if inputs == [] then x else Exchanged(Next(x, inputs[0], recycleAfter), inputs[1..], recycleAfter)
  }

  /** The call is over and did nothing with its slot. */
  predicate Escaped(x: Exchange) {
    x.point == Left(Raised) && x.created == 0 && x.returned == 0
  }

  /**
   While talking nothing has been done with the slot; from then on exactly one of the two things has,
   unless an exception escaped.
   */
  ghost predicate Sound(x: Exchange) {
    && (x.task.NoTask? <==> x.created == 0)
    && (if x.point.Talking() then x.created == 0 && x.returned == 0 else x.created + x.returned == 1 || Escaped(x))
    && (x.point.Replacing? ==> x.created == 1)
    && (x.point.Left? && x.created == 1 ==> x.task.Over())
  }

  lemma {:induction false} NextKeepsSound(x: Exchange, i: Input, recycleAfter: nat)
    requires Sound(x) && Applies(x, i)
    ensures Sound(Next(x, i, recycleAfter))
  {
  }

  lemma {:induction false} ExchangedIsSound(x: Exchange, inputs: seq<Input>, recycleAfter: nat)
    requires Sound(x) && CanExchange(x, inputs, recycleAfter)
    ensures Sound(Exchanged(x, inputs, recycleAfter))
    decreases |inputs|
  {
    if inputs != [] {
      NextKeepsSound(x, inputs[0], recycleAfter);
      ExchangedIsSound(Next(x, inputs[0], recycleAfter), inputs[1..], recycleAfter);
    }
  }

  /** A usable answer, not fatal, of a slot that has served fewer requests than the limit with this one. */
  predicate Healthy(i: Input, slot: Slot, recycleAfter: nat) {
    i.Received? && i.valid && !i.fatal && slot.completed + 1 < recycleAfter
  }

  lemma {:induction false} ReturnedWhenHealthy(x: Exchange, inputs: seq<Input>, recycleAfter: nat)
    requires Sound(x) && CanExchange(x, inputs, recycleAfter)
    ensures var y := Exchanged(x, inputs, recycleAfter);
            && (!x.point.Talking() ==> y.returned == x.returned && !y.point.Talking())
            && (x.point.Talking() ==>
                  (y.returned == 1 <==> exists k :: 0 <= k < |inputs| && Healthy(inputs[k], x.slot, recycleAfter)))
    decreases |inputs|
  {
    if inputs != [] {
      var next := Next(x, inputs[0], recycleAfter);
      NextKeepsSound(x, inputs[0], recycleAfter);
      ReturnedWhenHealthy(next, inputs[1..], recycleAfter);
      if x.point.Talking() {
        if next.point.Talking() {
          assert forall k :: 0 < k < |inputs| ==> inputs[k] == inputs[1..][k - 1];
          assert !Healthy(inputs[0], x.slot, recycleAfter);
          if k :| 0 <= k < |inputs[1..]| && Healthy(inputs[1..][k], x.slot, recycleAfter) {
            assert Healthy(inputs[k + 1], x.slot, recycleAfter);
          }
        } else {
          NoMoreReceived(next, inputs[1..], recycleAfter);
          assert Healthy(inputs[0], x.slot, recycleAfter) <==> next.returned == 1;
          forall k | 0 < k < |inputs| ensures !inputs[k].Received? {
            assert inputs[k] == inputs[1..][k - 1];
          }
        }
      }
    }
  }

  lemma {:induction false} NoMoreReceived(x: Exchange, inputs: seq<Input>, recycleAfter: nat)
    requires CanExchange(x, inputs, recycleAfter) && !x.point.Talking()
    ensures forall k :: 0 <= k < |inputs| ==> !inputs[k].Received?
    decreases |inputs|
  {
    if inputs != [] {
      NoMoreReceived(Next(x, inputs[0], recycleAfter), inputs[1..], recycleAfter);
      forall k | 0 <= k < |inputs| ensures !inputs[k].Received? {
        assert k > 0 ==> inputs[k] == inputs[1..][k - 1];
      }
    }
  }

  lemma {:induction false} EscapedWhenUncaught(x: Exchange, inputs: seq<Input>, recycleAfter: nat)
    requires Sound(x) && CanExchange(x, inputs, recycleAfter)
    ensures Escaped(Exchanged(x, inputs, recycleAfter)) <==> Escaped(x) || Uncaught in inputs
    decreases |inputs|
  {
    if inputs != [] {
      NextKeepsSound(x, inputs[0], recycleAfter);
      EscapedWhenUncaught(Next(x, inputs[0], recycleAfter), inputs[1..], recycleAfter);
      assert Uncaught in inputs <==> inputs[0] == Uncaught || Uncaught in inputs[1..];
    }
  }

  /**
   On every way out, whatever breaks, times out, crashes or is cancelled, and however often: the slot
   was returned once, or one replacement task was created and is over, never both; and neither exactly
   when an exception escaped that no handler names. It was returned exactly when a usable answer arrived
   from a slot that may serve on.
   */
  lemma {:induction false} ReturnedOrReplaced(slot: Slot, inputs: seq<Input>, recycleAfter: nat)
    requires CanExchange(Begin(slot), inputs, recycleAfter)
    ensures var x := Exchanged(Begin(slot), inputs, recycleAfter);
            && x.created + x.returned <= 1
            && (x.point.Left? ==> (x.created + x.returned == 0 <==> Uncaught in inputs))
            && (x.point.Left? && x.created == 1 ==> x.task.Over())
            && (x.point.Left? ==>
                  (x.returned == 1 <==> exists k :: 0 <= k < |inputs| && Healthy(inputs[k], slot, recycleAfter)))
  {
    ExchangedIsSound(Begin(slot), inputs, recycleAfter);
    EscapedWhenUncaught(Begin(slot), inputs, recycleAfter);
    ReturnedWhenHealthy(Begin(slot), inputs, recycleAfter);
  }

  // ---------- what the call comes to ----------

  /** Inputs that end the exchange of messages, one way or another. */
  predicate EndsTalk(i: Input) {
    i == Answerable(false) || i.Received? || i.Broken? || i.Uncaught? || i.Cancelled?
  }

  /** The call was cancelled before anything else ended the exchange of messages. */
  ghost predicate CancelledTalking(inputs: seq<Input>) {
    exists k :: 0 <= k < |inputs| && inputs[k] == Cancelled && forall j :: 0 <= j < k ==> !EndsTalk(inputs[j])
  }

  predicate ReceivedResponse(inputs: seq<Input>) {
    Received(true, true) in inputs || Received(true, false) in inputs
  }

  predicate ReplacementCrashed(inputs: seq<Input>) {
    TaskCrashes(true) in inputs || TaskCrashes(false) in inputs
  }

  /** What has happened to a call so far. */
  datatype Story = Story(responded: bool, cancelled: bool, crashed: bool, escaped: bool)
  {
    function Exit(): Exit {
      if escaped || cancelled || crashed then Raised else if responded then ReturnedResponse else ReturnedFailure
    }
  }

  /** A call stands where its story has led. */
  ghost predicate Tells(st: Story, x: Exchange) {
    match x.point
    case Left(exit) => exit == st.Exit()
    case Replacing(handler) =>
      && !st.escaped && (st.crashed <==> x.task.Crashed?)
      && (st.cancelled <==> handler.OnCancelled?) && (st.responded <==> handler == AfterTry(true))
    case _ => st == Story(false, false, false, false) && x.task.NoTask?
  }

  /** The story goes on with one input. */
  function Continued(st: Story, x: Exchange, i: Input): Story {
    Story(st.responded || (i.Received? && i.valid), st.cancelled || (x.point.Talking() && i.Cancelled?),
          st.crashed || i.TaskCrashes?, st.escaped || i.Uncaught?)
  }

  lemma {:induction false} NextTells(st: Story, x: Exchange, i: Input, recycleAfter: nat)
    requires Tells(st, x) && Sound(x) && Applies(x, i)
    ensures Tells(Continued(st, x, i), Next(x, i, recycleAfter))
  {
  }

  lemma {:induction false} CancelledFirst(inputs: seq<Input>)
    requires inputs != []
    ensures CancelledTalking(inputs) <==>
              inputs[0] == Cancelled || (!EndsTalk(inputs[0]) && CancelledTalking(inputs[1..]))
  {
    if CancelledTalking(inputs) {
      var k :| 0 <= k < |inputs| && inputs[k] == Cancelled && forall j :: 0 <= j < k ==> !EndsTalk(inputs[j]);
      if k > 0 {
        assert inputs[1..][k - 1] == Cancelled;
        assert forall j :: 0 <= j < k - 1 ==> inputs[1..][j] == inputs[j + 1];
      }
    }
    if !EndsTalk(inputs[0]) && CancelledTalking(inputs[1..]) {
      var k :| 0 <= k < |inputs[1..]| && inputs[1..][k] == Cancelled
            && forall j :: 0 <= j < k ==> !EndsTalk(inputs[1..][j]);
      assert inputs[k + 1] == Cancelled;
      forall j | 0 <= j < k + 1 ensures !EndsTalk(inputs[j]) {
        assert j > 0 ==> inputs[j] == inputs[1..][j - 1];
      }
    }
  }

  function After(st: Story, talking: bool, inputs: seq<Input>): Story
    decreases |inputs|
  {
    if inputs == [] then st
    else
      var i := inputs[0];
      After(Story(st.responded || (i.Received? && i.valid), st.cancelled || (talking && i.Cancelled?),
                  st.crashed || i.TaskCrashes?, st.escaped || i.Uncaught?),
            talking && !EndsTalk(i), inputs[1..])
  }

  lemma {:induction false} ExchangedTells(st: Story, x: Exchange, inputs: seq<Input>, recycleAfter: nat)
    requires Tells(st, x) && Sound(x) && CanExchange(x, inputs, recycleAfter)
    ensures Tells(After(st, x.point.Talking(), inputs), Exchanged(x, inputs, recycleAfter))
    decreases |inputs|
  {
    if inputs != [] {
      var next := Next(x, inputs[0], recycleAfter);
      NextKeepsSound(x, inputs[0], recycleAfter);
      NextTells(st, x, inputs[0], recycleAfter);
      assert next.point.Talking() <==> x.point.Talking() && !EndsTalk(inputs[0]);
      ExchangedTells(Continued(st, x, inputs[0]), next, inputs[1..], recycleAfter);
    }
  }

  lemma {:induction false} AfterInputs(st: Story, talking: bool, inputs: seq<Input>)
    ensures After(st, talking, inputs) ==
            Story(st.responded || ReceivedResponse(inputs), st.cancelled || (talking && CancelledTalking(inputs)),
                  st.crashed || ReplacementCrashed(inputs), st.escaped || Uncaught in inputs)
    decreases |inputs|
  {
    if inputs != [] {
      var i, rest := inputs[0], inputs[1..];
      AfterInputs(Story(st.responded || (i.Received? && i.valid), st.cancelled || (talking && i.Cancelled?),
                        st.crashed || i.TaskCrashes?, st.escaped || i.Uncaught?), talking && !EndsTalk(i), rest);
      CancelledFirst(inputs);
      assert forall j :: j in inputs <==> j == i || j in rest;
    }
  }

  /**
   What a call that is over comes to, told by its inputs: it raises if it was cancelled while talking, if
   an exception escaped or if its replacement crashed; otherwise it returns the response if a valid one was
   received, and a failure if none was.
   */
  lemma {:induction false} LeavesExactlyWhen(slot: Slot, inputs: seq<Input>, recycleAfter: nat)
    requires CanExchange(Begin(slot), inputs, recycleAfter)
    requires Exchanged(Begin(slot), inputs, recycleAfter).point.Left?
    ensures var exit := Exchanged(Begin(slot), inputs, recycleAfter).point.exit;
            && (exit == ReturnedResponse <==> ReceivedResponse(inputs) && !ReplacementCrashed(inputs))
            && (exit == Raised <==> CancelledTalking(inputs) || Uncaught in inputs || ReplacementCrashed(inputs))
  {
    var st := Story(false, false, false, false);
    ExchangedTells(st, Begin(slot), inputs, recycleAfter);
    AfterInputs(st, true, inputs);
    NotBoth(Begin(slot), inputs, recycleAfter);
  }

  /** A response is neither received after a cancellation or an escape, nor followed by one. */
  lemma {:induction false} NotBoth(x: Exchange, inputs: seq<Input>, recycleAfter: nat)
    requires CanExchange(x, inputs, recycleAfter)
    ensures ReceivedResponse(inputs) ==> x.point.Talking() && !CancelledTalking(inputs) && Uncaught !in inputs
    ensures Uncaught in inputs ==> x.point.Talking()
    decreases |inputs|
  {
    if inputs != [] {
      var rest := inputs[1..];
      NotBoth(Next(x, inputs[0], recycleAfter), rest, recycleAfter);
      CancelledFirst(inputs);
      assert forall j :: j in inputs <==> j == inputs[0] || j in rest;
    }
  }

  // ---------- it gets through ----------

  /** How many inputs lie ahead at most, cancellations aside. */
  function Ahead(x: Exchange): nat {
    (match x.point
     case Sending => 5
     case Polling => 4
     case Receiving => 3
     case Replacing(handler) => if handler.InTry? then 2 else 1
     case Left(_) => 0) +
    (if x.task.NoTask? || x.task.Scheduled? then 2 else if x.task.Retiring? then 1 else 0)
  }

  function Uncancelled(inputs: seq<Input>): nat {
    if inputs == [] then 0 else (if inputs[0] == Cancelled then 0 else 1) + Uncancelled(inputs[1..])
  }

  lemma {:induction false} InputsAreFew(x: Exchange, inputs: seq<Input>, recycleAfter: nat)
    requires Sound(x) && CanExchange(x, inputs, recycleAfter)
    ensures Uncancelled(inputs) + Ahead(Exchanged(x, inputs, recycleAfter)) <= Ahead(x)
    decreases |inputs|
  {
    if inputs != [] {
      NextKeepsSound(x, inputs[0], recycleAfter);
      InputsAreFew(Next(x, inputs[0], recycleAfter), inputs[1..], recycleAfter);
    }
  }

  /** The call never gets stuck: until it is over something can happen, at most seven things besides cancellations. */
  lemma {:induction false} GetsThrough(slot: Slot, inputs: seq<Input>, recycleAfter: nat) returns (next: Input)
    requires CanExchange(Begin(slot), inputs, recycleAfter)
    ensures Uncancelled(inputs) <= 7
    ensures var x := Exchanged(Begin(slot), inputs, recycleAfter);
            !x.point.Left? ==> next != Cancelled && Applies(x, next)
  {
    InputsAreFew(Begin(slot), inputs, recycleAfter);
    ExchangedIsSound(Begin(slot), inputs, recycleAfter);
    var x := Exchanged(Begin(slot), inputs, recycleAfter);
    next := if x.point.Sending? then Sent else if x.point.Polling? then Answerable(true)
            else if x.point.Receiving? then Received(true, false) else if x.task.Scheduled? then TaskStarts
            else if x.task.Retiring? then TaskEnds else TaskSeen;
  }
}
