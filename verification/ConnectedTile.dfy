/**
 A tile request tied to its connection, by program point: waiting for the handler or a disconnect,
 awaiting the one that finished, and, in the final block, gathering both. The request itself may be
 cancelled at each of these awaits. Of the library one rule is used: gathering tasks completes only when
 all of them have, however often it is cancelled.
 */
module ConnectedTile {
  /** What the call comes to: what the handler came to, a plain return after a disconnect, or a cancellation. */
  datatype Exit = OfHandler | Disconnected | Interrupted

  datatype Point = Waiting | Awaiting(handler: bool) | Gathering(exit: Exit) | Left(exit: Exit)

  /** One of the two tasks, and whether it has been asked to stop. */
  datatype Task = Task(running: bool, cancelled: bool)

  datatype Connection = Connection(point: Point, handler: Task, watcher: Task)

  datatype Input = HandlerEnds | WatcherEnds | WaitReturns | TaskReturns | Cancelled | GatherReturns

  /** Both tasks have been created and the wait begins. */
  function Open(): Connection {
    Connection(Waiting, Task(true, false), Task(true, false))
  }

  predicate Applies(x: Connection, i: Input) {
    match i
    case HandlerEnds => x.handler.running
    case WatcherEnds => x.watcher.running
    case WaitReturns => x.point.Waiting? && !(x.handler.running && x.watcher.running)
    case TaskReturns => x.point.Awaiting? && !(if x.point.handler then x.handler else x.watcher).running
    case Cancelled => !x.point.Left?
    case GatherReturns => x.point.Gathering? && !x.handler.running && !x.watcher.running
  }

  function Stopped(t: Task): Task {
    if t.running then t.(cancelled := true) else t
  }

  /** The final block, entered by a return or by any exception: it stops what still runs and gathers both. */
  function Finally(x: Connection, exit: Exit): Connection {
    Connection(Gathering(exit), Stopped(x.handler), Stopped(x.watcher))
  }

  function Next(x: Connection, i: Input): Connection
    requires Applies(x, i)
  {
    match i
    case HandlerEnds => x.(handler := x.handler.(running := false))
    case WatcherEnds => x.(watcher := x.watcher.(running := false))
    case WaitReturns => x.(point := Awaiting(!x.handler.running))
    case TaskReturns => Finally(x, if x.point.handler then OfHandler else Disconnected)
    case Cancelled => Finally(x, Interrupted)
    case GatherReturns => x.(point := Left(x.point.exit))
  }

  predicate CanConnect(x: Connection, inputs: seq<Input>)
    decreases |inputs|
  {
    inputs == [] || (Applies(x, inputs[0]) && CanConnect(Next(x, inputs[0]), inputs[1..]))
  }

  function Connected(x: Connection, inputs: seq<Input>): Connection
    requires CanConnect(x, inputs)
    decreases |inputs|
  {
    if inputs == [] then x else Connected(Next(x, inputs[0]), inputs[1..])
  }

  /** Before the final block nothing was stopped; in it everything that runs was; after it nothing runs. */
  ghost predicate Sound(x: Connection) {
    match x.point
    case Gathering(_) => (x.handler.running ==> x.handler.cancelled) && (x.watcher.running ==> x.watcher.cancelled)
    case Left(_) => !x.handler.running && !x.watcher.running
    case Awaiting(handler) => !x.handler.cancelled && !x.watcher.cancelled
        && !(if handler then x.handler else x.watcher).running
    case Waiting => !x.handler.cancelled && !x.watcher.cancelled
  }

  lemma {:induction false} NextKeepsSound(x: Connection, i: Input)
    requires Sound(x) && Applies(x, i)
    ensures Sound(Next(x, i))
  {
  }

  lemma {:induction false} ConnectedIsSound(x: Connection, inputs: seq<Input>)
    requires Sound(x) && CanConnect(x, inputs)
    ensures Sound(Connected(x, inputs))
    decreases |inputs|
  {
    if inputs != [] {
      NextKeepsSound(x, inputs[0]);
      ConnectedIsSound(Next(x, inputs[0]), inputs[1..]);
    }
  }

  /**
   Whichever task ends first, and wherever and however often the request is cancelled: it returns only
   after handler and watcher have both ended, and while it cleans up each has been asked to stop.
   */
  lemma {:induction false} ReturnsAfterBothEnded(inputs: seq<Input>)
    requires CanConnect(Open(), inputs)
    ensures var x := Connected(Open(), inputs);
            && (x.point.Left? ==> !x.handler.running && !x.watcher.running)
            && (x.point.Gathering? ==>
                  (x.handler.running ==> x.handler.cancelled) && (x.watcher.running ==> x.watcher.cancelled))
  {
    ConnectedIsSound(Open(), inputs);
  }

  /** A handler is asked to stop only after the watcher has ended or the request was cancelled. */
  lemma {:induction false} StoppedForAReason(inputs: seq<Input>)
    requires CanConnect(Open(), inputs)
    ensures Connected(Open(), inputs).handler.cancelled ==> WatcherEnds in inputs || Cancelled in inputs
  {
    StoppedOnlyAfter(Open(), inputs);
  }

  lemma {:induction false} StoppedOnlyAfter(x: Connection, inputs: seq<Input>)
    requires Sound(x) && CanConnect(x, inputs) && !x.handler.cancelled
    requires x.watcher.running || x.point.Gathering? || x.point.Left?
             || WatcherEnds in inputs || Cancelled in inputs
    requires x.point.Gathering? || x.point.Left? ==> !x.handler.running
    ensures Connected(x, inputs).handler.cancelled ==> WatcherEnds in inputs || Cancelled in inputs
    decreases |inputs|
  {
    if inputs != [] && WatcherEnds !in inputs && Cancelled !in inputs {
      assert inputs[0] in inputs;
      assert forall i :: i in inputs[1..] ==> i in inputs;
      NextKeepsSound(x, inputs[0]);
      StoppedOnlyAfter(Next(x, inputs[0]), inputs[1..]);
    }
  }

  // ---------- what the call comes to ----------

  /** The wait returned after the handler had ended. */
  ghost predicate HandlerWasSeen(inputs: seq<Input>) {
    exists k :: 0 <= k < |inputs| && inputs[k] == WaitReturns && HandlerEnds in inputs[..k]
  }

  /** A connection stands where these inputs have led. */
  ghost predicate Tells(inputs: seq<Input>, x: Connection) {
    && (HandlerEnds in inputs <==> !x.handler.running) && (WatcherEnds in inputs <==> !x.watcher.running)
    && match x.point
       case Waiting => Cancelled !in inputs && WaitReturns !in inputs
       case Awaiting(handler) =>
         Cancelled !in inputs && (handler <==> HandlerWasSeen(inputs)) && (!handler ==> WatcherEnds in inputs)
       case Gathering(exit) => ComesTo(inputs, exit)
       case Left(exit) => ComesTo(inputs, exit)
  }

  ghost predicate ComesTo(inputs: seq<Input>, exit: Exit) {
    && (exit == Interrupted <==> Cancelled in inputs)
    && (exit == OfHandler <==> Cancelled !in inputs && HandlerWasSeen(inputs))
    && (exit == Disconnected ==> WatcherEnds in inputs)
  }

  lemma {:induction false} SeenAfter(inputs: seq<Input>, i: Input)
    ensures HandlerWasSeen(inputs + [i]) <==> HandlerWasSeen(inputs) || (i == WaitReturns && HandlerEnds in inputs)
    ensures forall j :: j in inputs + [i] <==> j in inputs || j == i
  {
    var all := inputs + [i];
    assert all[..|inputs|] == inputs && all[|inputs|] == i;
    if k :| 0 <= k < |inputs| && inputs[k] == WaitReturns && HandlerEnds in inputs[..k] {
      assert all[k] == WaitReturns && all[..k] == inputs[..k];
    }
    if k :| 0 <= k < |all| && all[k] == WaitReturns && HandlerEnds in all[..k] {
      assert k < |inputs| ==> inputs[k] == WaitReturns && all[..k] == inputs[..k];
    }
  }

  lemma {:induction false} NextTells(inputs: seq<Input>, x: Connection, i: Input)
    requires Tells(inputs, x) && Applies(x, i)
    ensures Tells(inputs + [i], Next(x, i))
  {
    SeenAfter(inputs, i);
  }

  lemma {:induction false} ConnectedTells(before: seq<Input>, x: Connection, inputs: seq<Input>)
    requires Tells(before, x) && CanConnect(x, inputs)
    ensures Tells(before + inputs, Connected(x, inputs))
    decreases |inputs|
  {
    if inputs == [] {
      assert before + inputs == before;
    } else {
      NextTells(before, x, inputs[0]);
      ConnectedTells(before + [inputs[0]], Next(x, inputs[0]), inputs[1..]);
      assert before + [inputs[0]] + inputs[1..] == before + inputs;
    }
  }

  /**
   What the call comes to, told by its inputs: a cancellation if it was cancelled anywhere, also while it
   cleaned up; otherwise what the handler came to, if that had ended when the wait returned; and otherwise a
   plain return, after a disconnect.
   */
  lemma {:induction false} LeavesExactlyWhen(inputs: seq<Input>)
    requires CanConnect(Open(), inputs) && Connected(Open(), inputs).point.Left?
    ensures var exit := Connected(Open(), inputs).point.exit;
            && (exit == Interrupted <==> Cancelled in inputs)
            && (exit == OfHandler <==> Cancelled !in inputs && HandlerWasSeen(inputs))
            && (exit == Disconnected ==> WatcherEnds in inputs)
  {
    ConnectedTells([], Open(), inputs);
    assert [] + inputs == inputs;
  }

  // ---------- it gets through ----------

  /** How many stretches lie ahead at most, cancellations aside. */
  function Ahead(x: Connection): nat {
    (if x.handler.running then 1 else 0) + (if x.watcher.running then 1 else 0) +
    match x.point
    case Waiting => 3
    case Awaiting(_) => 2
    case Gathering(_) => 1
    case Left(_) => 0
  }

  function Uncancelled(inputs: seq<Input>): nat {
    if inputs == [] then 0 else (if inputs[0] == Cancelled then 0 else 1) + Uncancelled(inputs[1..])
  }

  lemma {:induction false} StepsAreFew(x: Connection, inputs: seq<Input>)
    requires CanConnect(x, inputs)
    ensures Uncancelled(inputs) + Ahead(Connected(x, inputs)) <= Ahead(x)
    decreases |inputs|
  {
    if inputs != [] {
      StepsAreFew(Next(x, inputs[0]), inputs[1..]);
    }
  }

  /** The call never gets stuck: until it is over something goes on, at most five things in all but cancellations. */
  lemma {:induction false} GetsThrough(inputs: seq<Input>) returns (next: Input)
    requires CanConnect(Open(), inputs)
    ensures Uncancelled(inputs) <= 5
    ensures !Connected(Open(), inputs).point.Left? ==> next != Cancelled && Applies(Connected(Open(), inputs), next)
  {
    StepsAreFew(Open(), inputs);
    ConnectedIsSound(Open(), inputs);
    var x := Connected(Open(), inputs);
    next := if x.handler.running then HandlerEnds else if x.watcher.running then WatcherEnds
            else if x.point.Waiting? then WaitReturns else if x.point.Awaiting? then TaskReturns else GatherReturns;
  }
}
