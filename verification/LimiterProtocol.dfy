/**
 Admission of expensive HTTP requests: a global bound on tile requests, a quota for each query
 identity under it, a separate bound for other queries, and the tie between a tile request and its
 connection. A permit is held from admission until the work behind it is over.
 */
module LimiterProtocol {
  import opened ConnectedTile
  import opened Counting

  /** Tile requests carry the identity of their query. */
  datatype Lane = Tiles(identity: string) | Queries

  /** Permits in use, and the tile permits of each identity. */
  datatype Permits = Permits(tiles: nat, queries: nat, byIdentity: map<string, nat>)

  function Held(p: Permits, identity: string): nat {
    if identity in p.byIdentity then p.byIdentity[identity] else 0
  }

  predicate Admits(p: Permits, maximum: nat, lane: Lane) {
    match lane
    case Tiles(identity) => p.tiles < maximum * 8 && Held(p, identity) < maximum
    case Queries => p.queries < maximum
  }

  function Acquire(p: Permits, lane: Lane): Permits {
    match lane
    case Tiles(identity) => p.(tiles := p.tiles + 1, byIdentity := p.byIdentity[identity := Held(p, identity) + 1])
    case Queries => p.(queries := p.queries + 1)
  }

  /** There is a permit to give back, and for a tile its identity is counted. */
  predicate CanRelease(p: Permits, lane: Lane) {
    match lane
    case Tiles(identity) => p.tiles > 0 && Held(p, identity) > 0
    case Queries => p.queries > 0
  }

  function Release(p: Permits, lane: Lane): Permits
    requires CanRelease(p, lane)
  {
    match lane
    case Tiles(identity) =>
      var remaining := Held(p, identity) - 1;
      p.(tiles := p.tiles - 1,
      byIdentity := if remaining > 0 then p.byIdentity[identity := remaining] else p.byIdentity - {identity})
    case Queries => p.(queries := p.queries - 1)
  }

  // ---------- requests ----------

  /** How a request is served: by awaiting its handler, or, for a tile fetched with GET, tied to its connection. */
  datatype Service = Direct(running: bool) | Tied(connection: Connection)

  datatype Request = Request(lane: Lane, service: Service)
  {
    /** The await of the service is over, and with it the request. */
    predicate Over() {
      if service.Direct? then !service.running else service.connection.point.Left?
    }

    predicate HandlerRuns() {
      if service.Direct? then service.running else service.connection.handler.running
    }

    predicate WatcherRuns() {
      service.Tied? && service.connection.watcher.running
    }
  }

  datatype System = System(permits: Permits, requests: map<nat, Request>, refused: set<nat>)

  datatype Event =
    | Arrive(r: nat, lane: Lane, connected: bool)
    | DirectEnds(r: nat)
    | Serve(r: nat, input: Input)

  function Init(): System {
    System(Permits(0, 0, map[]), map[], {})
  }

  /** What happens next to a request that is being served. */
  predicate Happens(s: System, e: Event) {
    match e
    case Arrive(r, _, _) => r !in s.requests && r !in s.refused
    case DirectEnds(r) => r in s.requests && s.requests[r].service.Direct? && s.requests[r].service.running
    case Serve(r, input) =>
      && r in s.requests && !s.requests[r].Over() && s.requests[r].service.Tied?
      && Applies(s.requests[r].service.connection, input)
  }

  /** The request after an event of its own. */
  function Serviced(s: System, e: Event): Request
    requires Happens(s, e) && !e.Arrive?
  {
    var q := s.requests[e.r];
    if e.DirectEnds? then q.(service := Direct(false)) else q.(service := Tied(Next(q.service.connection, e.input)))
  }

  predicate Enabled(s: System, e: Event) {
    Happens(s, e) && (!e.Arrive? && Serviced(s, e).Over() ==> CanRelease(s.permits, s.requests[e.r].lane))
  }

  function With(s: System, r: nat, request: Request): System {
    s.(requests := s.requests[r := request])
  }

  /** A request that is over gives its permit back in the same stretch. */
  function Step(s: System, maximum: nat, e: Event): System
    requires Enabled(s, e)
  {
    match e
    case Arrive(r, lane, connected) =>
      if !Admits(s.permits, maximum, lane) then s.(refused := s.refused + {r})
      else
        var request := Request(lane, if connected && lane.Tiles? then Tied(Open()) else Direct(true));
        With(s, r, request).(permits := Acquire(s.permits, lane))
    case _ =>
      var q := Serviced(s, e);
      if q.Over() then With(s, e.r, q).(permits := Release(s.permits, q.lane)) else With(s, e.r, q)
  }

  predicate CanRun(s: System, maximum: nat, events: seq<Event>)
    decreases |events|
  {
    events == [] || (Enabled(s, events[0]) && CanRun(Step(s, maximum, events[0]), maximum, events[1..]))
  }

  function Run(s: System, maximum: nat, events: seq<Event>): System
    requires CanRun(s, maximum, events)
    decreases |events|
  {
    if events == [] then s else Run(Step(s, maximum, events[0]), maximum, events[1..])
  }

  // ---------- the invariant ----------

  function OnTiles(): Request -> bool {
    (q: Request) => !q.Over() && q.lane.Tiles?
  }

  function OnQueries(): Request -> bool {
    (q: Request) => !q.Over() && q.lane.Queries?
  }

  function OfIdentity(identity: string): Request -> bool {
    (q: Request) => !q.Over() && q.lane == Tiles(identity)
  }

  function Among(identities: set<string>): Request -> bool {
    (q: Request) => !q.Over() && q.lane.Tiles? && q.lane.identity in identities
  }

  ghost predicate PermitsCounted(s: System) {
    && s.permits.tiles == Count(s.requests, OnTiles())
    && s.permits.queries == Count(s.requests, OnQueries())
    && forall i :: Held(s.permits, i) == Count(s.requests, OfIdentity(i))
  }

  ghost predicate PermitsBounded(s: System, maximum: nat) {
    && s.permits.tiles <= maximum * 8
    && s.permits.queries <= maximum
    && forall i :: i in s.permits.byIdentity ==> 0 < s.permits.byIdentity[i] <= maximum
  }

  ghost predicate ConnectionsSound(s: System) {
    forall r :: r in s.requests && s.requests[r].service.Tied? ==> Sound(s.requests[r].service.connection)
  }

  ghost predicate Inv(s: System, maximum: nat) {
    PermitsCounted(s) && PermitsBounded(s, maximum) && ConnectionsSound(s)
  }

  lemma {:induction false} CountsAfter(s: System, t: System, r: nat)
    requires r in t.requests && t.requests == s.requests[r := t.requests[r]] && PermitsCounted(s)
    requires t.permits.tiles == s.permits.tiles - (if r in s.requests && OnTiles()(s.requests[r]) then 1 else 0)
                                  + (if OnTiles()(t.requests[r]) then 1 else 0)
    requires t.permits.queries == s.permits.queries - (if r in s.requests && OnQueries()(s.requests[r]) then 1 else 0)
                                  + (if OnQueries()(t.requests[r]) then 1 else 0)
    requires forall i :: Held(t.permits, i) ==
               Held(s.permits, i) - (if r in s.requests && OfIdentity(i)(s.requests[r]) then 1 else 0)
                                  + (if OfIdentity(i)(t.requests[r]) then 1 else 0)
    ensures PermitsCounted(t)
  {
    CountUpdate(s.requests, r, t.requests[r], OnTiles());
    CountUpdate(s.requests, r, t.requests[r], OnQueries());
    forall i ensures Held(t.permits, i) == Count(t.requests, OfIdentity(i)) {
      CountUpdate(s.requests, r, t.requests[r], OfIdentity(i));
    }
  }

  lemma {:induction false} StepKeepsCounts(s: System, maximum: nat, e: Event)
    requires PermitsCounted(s) && Enabled(s, e)
    ensures PermitsCounted(Step(s, maximum, e))
  {
    if !(e.Arrive? && !Admits(s.permits, maximum, e.lane)) {
      CountsAfter(s, Step(s, maximum, e), e.r);
    }
  }

  lemma {:induction false} StepKeepsConnections(s: System, maximum: nat, e: Event)
    requires ConnectionsSound(s) && Enabled(s, e)
    ensures ConnectionsSound(Step(s, maximum, e))
  {
    if e.Serve? {
      NextKeepsSound(s.requests[e.r].service.connection, e.input);
    }
  }

  lemma {:induction false} StepKeepsInv(s: System, maximum: nat, e: Event)
    requires Inv(s, maximum) && Enabled(s, e)
    ensures Inv(Step(s, maximum, e), maximum)
  {
    StepKeepsCounts(s, maximum, e);
    StepKeepsConnections(s, maximum, e);
  }

  lemma {:induction false} InitInv(maximum: nat)
    ensures Inv(Init(), maximum)
  {
    assert Matching(Init().requests, OnTiles()) == {} && Matching(Init().requests, OnQueries()) == {};
    forall i ensures Held(Init().permits, i) == Count(Init().requests, OfIdentity(i)) {
      assert Matching(Init().requests, OfIdentity(i)) == {};
    }
  }

  lemma {:induction false} RunKeepsInv(s: System, maximum: nat, events: seq<Event>)
    requires Inv(s, maximum) && CanRun(s, maximum, events)
    ensures Inv(Run(s, maximum, events), maximum)
    decreases |events|
  {
    if events != [] {
      StepKeepsInv(s, maximum, events[0]);
      RunKeepsInv(Step(s, maximum, events[0]), maximum, events[1..]);
    }
  }

  // ---------- permits are given back once, after the work ----------

  /** A request always finds its permit counted when it ends: nothing that happens to it is held up. */
  lemma {:induction false} NothingIsHeldUp(s: System, e: Event)
    requires PermitsCounted(s) && Happens(s, e)
    ensures Enabled(s, e)
  {
    if !e.Arrive? {
      var q := s.requests[e.r];
      CountPositive(s.requests, OnTiles());
      CountPositive(s.requests, OnQueries());
      if q.lane.Tiles? {
        CountPositive(s.requests, OfIdentity(q.lane.identity));
        assert OnTiles()(q) && OfIdentity(q.lane.identity)(q);
      } else {
        assert OnQueries()(q);
      }
    }
  }

  /** Nothing runs for a request that is over: its handler, and its watcher if it has one, have ended. */
  lemma {:induction false} WorkIsCovered(s: System, r: nat)
    requires ConnectionsSound(s) && r in s.requests && s.requests[r].Over()
    ensures !s.requests[r].HandlerRuns() && !s.requests[r].WatcherRuns()
  {
  }

  /**
   Over every run, permits in use go down only when a request ends, by one of its own lane and identity,
   and then neither its handler nor its watcher runs any more.
   */
  lemma {:induction false} OnlyDeparturesRelease(maximum: nat, events: seq<Event>, e: Event)
    requires CanRun(Init(), maximum, events) && Enabled(Run(Init(), maximum, events), e)
    ensures var s := Run(Init(), maximum, events);
            var t := Step(s, maximum, e);
            if t.permits.tiles + t.permits.queries < s.permits.tiles + s.permits.queries then
              && e.r in s.requests && !s.requests[e.r].Over() && e.r in t.requests && t.requests[e.r].Over()
              && !t.requests[e.r].HandlerRuns() && !t.requests[e.r].WatcherRuns()
              && t.permits == Release(s.permits, s.requests[e.r].lane)
            else
              && s.permits.tiles <= t.permits.tiles && s.permits.queries <= t.permits.queries
              && forall i :: Held(s.permits, i) <= Held(t.permits, i)
  {
    InitInv(maximum);
    RunKeepsInv(Init(), maximum, events);
    var s := Run(Init(), maximum, events);
    StepKeepsInv(s, maximum, e);
    var t := Step(s, maximum, e);
    if e.r in t.requests && t.requests[e.r].Over() {
      WorkIsCovered(t, e.r);
    }
  }

  // ---------- each permit is given back exactly once ----------

  predicate IsOver(s: System, r: nat) {
    r in s.requests && s.requests[r].Over()
  }

  function InUse(p: Permits): nat {
    p.tiles + p.queries
  }

  /** How often, along a run, an event of this request lowers the permits in use. */
  function Releases(s: System, maximum: nat, events: seq<Event>, r: nat): nat
    requires CanRun(s, maximum, events)
    decreases |events|
  {
    if events == [] then 0
    else
      var t := Step(s, maximum, events[0]);
      (if events[0].r == r && InUse(t.permits) < InUse(s.permits) then 1 else 0)
      + Releases(t, maximum, events[1..], r)
  }

  lemma {:induction false} ReleasedWhenOver(s: System, maximum: nat, e: Event, r: nat)
    requires Enabled(s, e)
    ensures var t := Step(s, maximum, e);
            && (IsOver(s, r) ==> e.r != r && IsOver(t, r))
            && (e.r == r && InUse(t.permits) < InUse(s.permits) <==> IsOver(t, r) && !IsOver(s, r))
  {
  }

  lemma {:induction false} ReleasesFollowed(s: System, maximum: nat, events: seq<Event>, r: nat)
    requires CanRun(s, maximum, events)
    ensures Releases(s, maximum, events, r) + (if IsOver(s, r) then 1 else 0) ==
              if IsOver(Run(s, maximum, events), r) then 1 else 0
    decreases |events|
  {
    if events != [] {
      ReleasedWhenOver(s, maximum, events[0], r);
      ReleasesFollowed(Step(s, maximum, events[0]), maximum, events[1..], r);
    }
  }

  /**
   Over every run each request gives its permit back exactly once if it is over and never before; once it
   has, neither its handler nor its watcher runs.
   */
  lemma {:induction false} ReleasedExactlyOnce(maximum: nat, events: seq<Event>, r: nat)
    requires CanRun(Init(), maximum, events)
    ensures var s := Run(Init(), maximum, events);
            && Releases(Init(), maximum, events, r) == (if IsOver(s, r) then 1 else 0)
            && (Releases(Init(), maximum, events, r) > 0 ==>
                  r in s.requests && !s.requests[r].HandlerRuns() && !s.requests[r].WatcherRuns())
  {
    InitInv(maximum);
    RunKeepsInv(Init(), maximum, events);
    ReleasesFollowed(Init(), maximum, events, r);
    var s := Run(Init(), maximum, events);
    if IsOver(s, r) {
      WorkIsCovered(s, r);
    }
  }

  /** A request that is over takes part in no later event, so its permit is given back once. */
  lemma {:induction false} OverIsFinal(s: System, maximum: nat, events: seq<Event>, r: nat)
    requires CanRun(s, maximum, events) && r in s.requests && s.requests[r].Over()
    ensures forall i :: 0 <= i < |events| ==> events[i].r != r
    decreases |events|
  {
    if events != [] {
      OverIsFinal(Step(s, maximum, events[0]), maximum, events[1..], r);
      forall i | 0 <= i < |events| ensures events[i].r != r {
        if i > 0 {
          assert events[i] == events[1..][i - 1];
        }
      }
    }
  }

  // ---------- fairness by counting ----------

  lemma {:induction false} AmongSplits(requests: map<nat, Request>, others: set<string>, i: string)
    requires i !in others
    ensures Count(requests, Among(others + {i})) == Count(requests, Among(others)) + Count(requests, OfIdentity(i))
  {
    var all, rest := Matching(requests, Among(others + {i})), Matching(requests, Among(others));
    var own := Matching(requests, OfIdentity(i));
    assert all == rest + own && rest !! own;
  }

  lemma {:induction false} AmongIsBounded(s: System, maximum: nat, identities: set<string>)
    requires PermitsCounted(s) && PermitsBounded(s, maximum) && identities <= s.permits.byIdentity.Keys
    ensures Count(s.requests, Among(identities)) <= maximum * |identities|
    decreases |identities|
  {
    if identities == {} {
      assert Matching(s.requests, Among(identities)) == {};
    } else {
      var i :| i in identities;
      var others := identities - {i};
      assert others + {i} == identities;
      AmongIsBounded(s, maximum, others);
      AmongSplits(s.requests, others, i);
      assert Held(s.permits, i) <= maximum;
      assert |identities| == |others| + 1;
      OneMore(maximum, |others|);
    }
  }

  lemma {:induction false} OneMore(maximum: nat, n: nat)
    ensures maximum * (n + 1) == maximum * n + maximum
  {
  }

  lemma {:induction false} EightQuotas(maximum: nat, n: nat)
    requires maximum >= 1 && maximum * 8 <= maximum * n
    ensures n >= 8
  {
    assert maximum * (n - 8) >= 0;
  }

  lemma {:induction false} AllAreAmong(s: System)
    requires PermitsCounted(s)
    ensures Count(s.requests, OnTiles()) == Count(s.requests, Among(s.permits.byIdentity.Keys))
  {
    var all := s.permits.byIdentity.Keys;
    forall r | r in s.requests && OnTiles()(s.requests[r]) ensures Among(all)(s.requests[r]) {
      var i := s.requests[r].lane.identity;
      CountPositive(s.requests, OfIdentity(i));
      assert OfIdentity(i)(s.requests[r]) && Held(s.permits, i) > 0;
    }
    assert Matching(s.requests, OnTiles()) == Matching(s.requests, Among(all));
  }

  lemma {:induction false} RefusalNeedsEight(s: System, maximum: nat, identity: string)
    requires Inv(s, maximum) && maximum >= 1
    requires Count(s.requests, OfIdentity(identity)) == 0 && !Admits(s.permits, maximum, Tiles(identity))
    ensures identity !in s.permits.byIdentity && |s.permits.byIdentity| >= 8
    ensures forall i :: i in s.permits.byIdentity ==> Count(s.requests, OfIdentity(i)) > 0
  {
    var all := s.permits.byIdentity.Keys;
    assert Held(s.permits, identity) == 0;
    AmongIsBounded(s, maximum, all);
    AllAreAmong(s);
    EightQuotas(maximum, |all|);
    forall i | i in s.permits.byIdentity ensures Count(s.requests, OfIdentity(i)) > 0 {
      assert Held(s.permits, i) > 0;
    }
  }

  /**
   Over every run, a query identity with no tile in flight is refused only while at least eight other
   identities each have a tile in flight.
   */
  lemma {:induction false} RefusedOnlyUnderEightOthers(maximum: nat, events: seq<Event>, identity: string)
      returns (others: set<string>)
    requires maximum >= 1 && CanRun(Init(), maximum, events)
    requires var s := Run(Init(), maximum, events);
             Count(s.requests, OfIdentity(identity)) == 0 && !Admits(s.permits, maximum, Tiles(identity))
    ensures |others| >= 8 && identity !in others
    ensures forall i :: i in others ==> Count(Run(Init(), maximum, events).requests, OfIdentity(i)) > 0
  {
    InitInv(maximum);
    RunKeepsInv(Init(), maximum, events);
    RefusalNeedsEight(Run(Init(), maximum, events), maximum, identity);
    others := Run(Init(), maximum, events).permits.byIdentity.Keys;
  }

  function HeldTogether(p: Permits, identities: seq<string>): nat {
    if identities == [] then 0 else Held(p, identities[0]) + HeldTogether(p, identities[1..])
  }

  lemma {:induction false} TogetherIsAmong(s: System, identities: seq<string>)
    requires PermitsCounted(s) && forall i, j :: 0 <= i < j < |identities| ==> identities[i] != identities[j]
    ensures HeldTogether(s.permits, identities) == Count(s.requests, Among(set i | i in identities))
  {
    if identities == [] {
      assert Matching(s.requests, Among(set i | i in identities)) == {};
    } else {
      var first, rest := identities[0], set i | i in identities[1..];
      TogetherIsAmong(s, identities[1..]);
      AmongSplits(s.requests, rest, first);
      assert (set i | i in identities) == rest + {first};
      assert Held(s.permits, first) == Count(s.requests, OfIdentity(first));
    }
  }

  /** Over every run, the tile permits of the listed identities, each counted once, add up to the permits in use. */
  lemma {:induction false} IdentitiesShareAllPermits(maximum: nat, events: seq<Event>, identities: seq<string>)
    requires CanRun(Init(), maximum, events)
    requires forall i, j :: 0 <= i < j < |identities| ==> identities[i] != identities[j]
    requires (set i | i in identities) == Run(Init(), maximum, events).permits.byIdentity.Keys
    ensures HeldTogether(Run(Init(), maximum, events).permits, identities) == Run(Init(), maximum, events).permits.tiles
  {
    InitInv(maximum);
    RunKeepsInv(Init(), maximum, events);
    var s := Run(Init(), maximum, events);
    TogetherIsAmong(s, identities);
    AllAreAmong(s);
  }

  function RunningFor(identity: string): Request -> bool {
    (q: Request) => q.HandlerRuns() && q.lane == Tiles(identity)
  }

  /** Over every run, no identity has more running tile handlers than its permits, nor those more than the quota. */
  lemma {:induction false} HandlersStayWithinQuota(maximum: nat, events: seq<Event>, identity: string)
    requires CanRun(Init(), maximum, events)
    ensures var s := Run(Init(), maximum, events);
            && Count(s.requests, RunningFor(identity)) <= Held(s.permits, identity) <= maximum
            && s.permits.tiles <= maximum * 8 && s.permits.queries <= maximum
  {
    InitInv(maximum);
    RunKeepsInv(Init(), maximum, events);
    var s := Run(Init(), maximum, events);
    forall r | r in s.requests && s.requests[r].Over() ensures !s.requests[r].HandlerRuns() {
      WorkIsCovered(s, r);
    }
    CountMonotone(s.requests, RunningFor(identity), OfIdentity(identity));
    assert Held(s.permits, identity) == Count(s.requests, OfIdentity(identity));
  }

  // ---------- who is admitted ----------

  /** Room for one more request of this lane beside those under way. */
  ghost predicate HasRoom(requests: map<nat, Request>, maximum: nat, lane: Lane) {
    match lane
    case Tiles(identity) =>
      Count(requests, OnTiles()) < 8 * maximum && Count(requests, OfIdentity(identity)) < maximum
    case Queries => Count(requests, OnQueries()) < maximum
  }

  /**
   Over every run an arriving request is admitted if and only if those under way leave it room: eight times the
   maximum of tiles, the maximum of its own identity's, the maximum of queries. An admitted one is served at
   once, tied to its connection if it is a tile that has one; a refused one never begins.
   */
  lemma {:induction false} AdmittedExactlyWhen(maximum: nat, events: seq<Event>, r: nat, lane: Lane, connected: bool)
    requires CanRun(Init(), maximum, events)
    requires Happens(Run(Init(), maximum, events), Arrive(r, lane, connected))
    ensures var s := Run(Init(), maximum, events);
            Enabled(s, Arrive(r, lane, connected)) &&
            var t := Step(s, maximum, Arrive(r, lane, connected));
            if HasRoom(s.requests, maximum, lane) then
              && t.requests.Keys == s.requests.Keys + {r} && t.refused == s.refused
              && t.requests[r].lane == lane && t.requests[r].HandlerRuns()
              && (t.requests[r].service.Tied? <==> connected && lane.Tiles?)
              && (t.requests[r].WatcherRuns() <==> connected && lane.Tiles?)
            else
              t.requests == s.requests && t.refused == s.refused + {r} && t.permits == s.permits
  {
    InitInv(maximum);
    RunKeepsInv(Init(), maximum, events);
    var s := Run(Init(), maximum, events);
    if lane.Tiles? {
      assert Held(s.permits, lane.identity) == Count(s.requests, OfIdentity(lane.identity));
    }
  }

  // ---------- each request is served for itself ----------

  /** The inputs of one request's connection, in order. */
  function InputsOf(events: seq<Event>, r: nat): seq<Input> {
    if events == [] then []
    else (if events[0].Serve? && events[0].r == r then [events[0].input] else []) + InputsOf(events[1..], r)
  }

  /** This service, after these events. */
  ghost predicate ServedOn(before: Service, events: seq<Event>, r: nat, after: Service) {
    match before
    case Direct(running) => after == Direct(running && DirectEnds(r) !in events)
    case Tied(x) => CanConnect(x, InputsOf(events, r)) && after == Tied(Connected(x, InputsOf(events, r)))
  }

  lemma {:induction false} ServiceGoesOn(s: System, maximum: nat, events: seq<Event>, r: nat)
    requires CanRun(s, maximum, events) && r in s.requests
    ensures r in Run(s, maximum, events).requests
    ensures ServedOn(s.requests[r].service, events, r, Run(s, maximum, events).requests[r].service)
    decreases |events|
  {
    if events != [] {
      var e, next, rest := events[0], Step(s, maximum, events[0]), events[1..];
      ServiceGoesOn(next, maximum, rest, r);
      assert DirectEnds(r) in events <==> e == DirectEnds(r) || DirectEnds(r) in rest;
      if e.Serve? && e.r == r {
        assert InputsOf(events, r)[0] == e.input && InputsOf(events, r)[1..] == InputsOf(rest, r);
        assert next.requests[r].service == Tied(Next(s.requests[r].service.connection, e.input));
      } else {
        assert InputsOf(events, r) == InputsOf(rest, r);
      }
    }
  }

  lemma {:induction false} ServiceBegins(s: System, maximum: nat, events: seq<Event>, r: nat)
    requires CanRun(s, maximum, events) && r !in s.requests
    ensures var t := Run(s, maximum, events);
            if r in t.requests then
              ServedOn(Direct(true), events, r, t.requests[r].service)
              || ServedOn(Tied(Open()), events, r, t.requests[r].service)
            else InputsOf(events, r) == [] && DirectEnds(r) !in events
    decreases |events|
  {
    if events != [] {
      var e, next, rest := events[0], Step(s, maximum, events[0]), events[1..];
      assert InputsOf(events, r) == InputsOf(rest, r);
      assert DirectEnds(r) in events <==> DirectEnds(r) in rest;
      if r in next.requests {
        ServiceGoesOn(next, maximum, rest, r);
        assert ServedOn(next.requests[r].service, events, r, Run(s, maximum, events).requests[r].service);
      } else {
        ServiceBegins(next, maximum, rest, r);
      }
    }
  }

  /**
   Over every run an admitted request stands where its own events have led, whatever happened to others: one
   served directly is over if and only if its handler ended, and one tied to its connection is where the run
   of that connection is.
   */
  lemma {:induction false} ServedForItself(maximum: nat, events: seq<Event>, r: nat)
    requires CanRun(Init(), maximum, events) && r in Run(Init(), maximum, events).requests
    ensures var q, inputs := Run(Init(), maximum, events).requests[r], InputsOf(events, r);
            match q.service
            case Direct(_) => q.Over() <==> DirectEnds(r) in events
            case Tied(x) => CanConnect(Open(), inputs) && x == Connected(Open(), inputs)
  {
    ServiceBegins(Init(), maximum, events, r);
  }
}
