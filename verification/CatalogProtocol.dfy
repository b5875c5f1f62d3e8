/**
 Hot replacement of the catalog under concurrent reads. Between two suspensions the source runs
 undisturbed, so beginning a read, ending one, and every stage of a refresh are atomic steps. A read
 leases the repository it started with; a superseded repository is closed when its last lease ends.
 */
module CatalogProtocol {
  import opened Wrappers
  import opened Counting

  /** The shared refresh: absent, waiting for the source, writing a candidate, or settled and not yet cleared. */
  datatype Refresh = Absent | Fetching | Writing(fingerprint: string, url: Option<string>) | Settled(replaced: bool)

  /** The fields of the lifecycle; R stands for an open repository. */
  datatype Lifecycle<R> = Lifecycle(
    repository: Option<R>,
    activeUrl: Option<string>,
    fingerprint: Option<string>,
    lastSuccess: Option<nat>,
    lastError: Option<string>,
    refreshing: Refresh,
    leases: map<R, int>,
    retired: set<R>)

  function Empty<R>(): Lifecycle<R> {
    Lifecycle(None, None, None, None, None, Absent, map[], {})
  }

  function Leases<R>(l: Lifecycle<R>, r: R): int {
    if r in l.leases then l.leases[r] else 0
  }

  function Lease<R>(l: Lifecycle<R>, r: R): Lifecycle<R> {
    l.(leases := l.leases[r := Leases(l, r) + 1])
  }

  /** A read ends. The last one on a retired repository closes it. */
  function EndLease<R>(l: Lifecycle<R>, r: R): (Lifecycle<R>, Option<R>) {
    var remaining := (if r in l.leases then l.leases[r] else 1) - 1;
    if remaining != 0 then (l.(leases := l.leases[r := remaining]), None)
    else if r in l.retired then (l.(leases := l.leases - {r}, retired := l.retired - {r}), Some(r))
    else (l.(leases := l.leases - {r}), None)
  }

  /** A refresh starts unless one is under way, which its caller then shares. */
  function Begin<R>(l: Lifecycle<R>): Lifecycle<R> {
    if l.refreshing.Absent? then l.(refreshing := Fetching) else l
  }

  /** The source answered: an unchanged fingerprint ends the refresh, another starts a candidate. */
  function Compare<R>(l: Lifecycle<R>, fingerprint: string, url: Option<string>): Lifecycle<R> {
    if l.fingerprint == Some(fingerprint) && l.repository.Some? then l.(refreshing := Settled(false))
    else l.(refreshing := Writing(fingerprint, url))
  }

  /** A validated candidate becomes current; its predecessor is closed at once if nobody reads it. */
  function Install<R>(l: Lifecycle<R>, candidate: R, now: nat): (Lifecycle<R>, Option<R>)
    requires l.refreshing.Writing?
  {
    var installed := l.(repository := Some(candidate), fingerprint := Some(l.refreshing.fingerprint),
                        activeUrl := l.refreshing.url,
                        lastSuccess := Some(now), lastError := None, refreshing := Settled(true));
    match l.repository
    case None => (installed, None)
    case Some(previous) =>
      if Leases(l, previous) == 0 then (installed, Some(previous))
      else (installed.(retired := l.retired + {previous}), None)
  }

  function Fail<R>(l: Lifecycle<R>, error: string): Lifecycle<R> {
    l.(lastError := Some(error), refreshing := Settled(false))
  }

  function Clear<R>(l: Lifecycle<R>): Lifecycle<R> {
    l.(refreshing := Absent)
  }

  // ---------- readers and repositories around the lifecycle ----------

  /** An opened repository: what its refresh installed with it, and how often it was closed. */
  datatype Opened = Opened(url: Option<string>, generation: string, closings: nat)

  datatype Reader = Reader(repository: nat, url: Option<string>, generation: string, reading: bool)

  datatype System = System(core: Lifecycle<nat>, repositories: map<nat, Opened>, readers: map<nat, Reader>)

  datatype Event =
    | StartRead(c: nat)
    | EndRead(c: nat)
    | CallRefresh
    | SourceAnswers(fingerprint: string, url: Option<string>)
    | CandidateOpens(id: nat, generation: string, now: nat)
    | RefreshFails(error: string)
    | RefreshClears

  function Init(): System {
    System(Empty(), map[], map[])
  }

  predicate Working(l: Lifecycle<nat>) {
    l.refreshing.Fetching? || l.refreshing.Writing?
  }

  predicate Enabled(s: System, e: Event) {
    match e
    case StartRead(c) => c !in s.readers && (s.core.repository.Some? ==> s.core.repository.value in s.repositories)
    case EndRead(c) => c in s.readers && s.readers[c].reading
    case CallRefresh => true
    case SourceAnswers(_, _) => s.core.refreshing.Fetching?
    case CandidateOpens(id, _, _) => s.core.refreshing.Writing? && id !in s.repositories
    case RefreshFails(_) => Working(s.core)
    case RefreshClears => s.core.refreshing.Settled?
  }

  function Closing(repositories: map<nat, Opened>, r: Option<nat>): map<nat, Opened> {
    if r.Some? && r.value in repositories
    then repositories[r.value := repositories[r.value].(closings := repositories[r.value].closings + 1)]
    else repositories
  }

  function Step(s: System, e: Event): System
    requires Enabled(s, e)
  {
    match e
    case StartRead(c) =>
      (match s.core.repository
       case None => s
       case Some(r) =>
         s.(core := Lease(s.core, r),
         readers := s.readers[c := Reader(r, s.core.activeUrl, s.repositories[r].generation, true)]))
    case EndRead(c) =>
      var (core, closed) := EndLease(s.core, s.readers[c].repository);
      System(core, Closing(s.repositories, closed), s.readers[c := s.readers[c].(reading := false)])
    case CallRefresh => s.(core := Begin(s.core))
    case SourceAnswers(fingerprint, url) => s.(core := Compare(s.core, fingerprint, url))
    case CandidateOpens(id, generation, now) =>
      var (core, closed) := Install(s.core, id, now);
      s.(core := core,
      repositories := Closing(s.repositories, closed)[id := Opened(s.core.refreshing.url, generation, 0)])
    case RefreshFails(error) => s.(core := Fail(s.core, error))
    case RefreshClears => s.(core := Clear(s.core))
  }

  predicate CanRun(s: System, events: seq<Event>)
    decreases |events|
  {
    events == [] || (Enabled(s, events[0]) && CanRun(Step(s, events[0]), events[1..]))
  }

  function Run(s: System, events: seq<Event>): System
    requires CanRun(s, events)
    decreases |events|
  {
    if events == [] then s else Run(Step(s, events[0]), events[1..])
  }

  // ---------- the invariant ----------

  function ReadingFrom(r: nat): Reader -> bool {
    (q: Reader) => q.reading && q.repository == r
  }

  /** The lease count of a repository is the number of reads under way on it. */
  ghost predicate LeasesCounted(s: System) {
    && (forall r :: Leases(s.core, r) == Count(s.readers, ReadingFrom(r)))
    && (forall r :: r in s.core.leases ==> s.core.leases[r] > 0)
  }

  predicate IsCurrent(s: System, r: nat) {
    s.core.repository == Some(r)
  }

  /** A repository is open while it is current or retired, and closed once from then on. */
  ghost predicate OpenWhileOwned(s: System) {
    && (s.core.repository.Some? ==> s.core.repository.value in s.repositories)
    && (forall r :: r in s.core.retired ==> r in s.repositories && !IsCurrent(s, r) && Leases(s.core, r) > 0)
    && (forall r :: r in s.repositories ==>
          s.repositories[r].closings == if IsCurrent(s, r) || r in s.core.retired then 0 else 1)
  }

  /** The current URL and what every read was given belong to one installation. */
  ghost predicate Consistent(s: System) {
    && (s.core.repository.Some? ==>
          s.core.repository.value in s.repositories && s.core.activeUrl == s.repositories[s.core.repository.value].url)
    && (forall c :: c in s.readers ==>
          var q := s.readers[c];
          q.repository in s.repositories && q.url == s.repositories[q.repository].url
              && q.generation == s.repositories[q.repository].generation)
  }

  /** Only current and retired repositories are leased. */
  ghost predicate LeasedIsOwned(s: System) {
    forall r :: r in s.core.leases ==> IsCurrent(s, r) || r in s.core.retired
  }

  ghost predicate Inv(s: System) {
    LeasesCounted(s) && OpenWhileOwned(s) && Consistent(s) && LeasedIsOwned(s)
  }

  lemma {:induction false} LeasesAfter(s: System, t: System, c: nat)
    requires LeasesCounted(s) && c in t.readers && t.readers == s.readers[c := t.readers[c]]
    requires forall r :: Leases(t.core, r) ==
               Leases(s.core, r) - (if c in s.readers && ReadingFrom(r)(s.readers[c]) then 1 else 0)
                           + (if ReadingFrom(r)(t.readers[c]) then 1 else 0)
    ensures forall r :: Leases(t.core, r) == Count(t.readers, ReadingFrom(r))
  {
    forall r ensures Leases(t.core, r) == Count(t.readers, ReadingFrom(r)) {
      CountUpdate(s.readers, c, t.readers[c], ReadingFrom(r));
    }
  }

  /** A read under way finds its repository leased. */
  lemma {:induction false} ReaderIsCounted(s: System, c: nat)
    requires LeasesCounted(s) && Enabled(s, EndRead(c))
    ensures s.readers[c].repository in s.core.leases && Leases(s.core, s.readers[c].repository) > 0
  {
    CountPositive(s.readers, ReadingFrom(s.readers[c].repository));
    assert ReadingFrom(s.readers[c].repository)(s.readers[c]);
  }

  lemma {:induction false} EndReadKeepsLeases(s: System, c: nat)
    requires LeasesCounted(s) && Enabled(s, EndRead(c))
    ensures LeasesCounted(Step(s, EndRead(c)))
  {
    ReaderIsCounted(s, c);
    LeasesAfter(s, Step(s, EndRead(c)), c);
  }

  lemma {:induction false} StartReadKeepsLeases(s: System, c: nat)
    requires LeasesCounted(s) && Enabled(s, StartRead(c)) && s.core.repository.Some?
    ensures LeasesCounted(Step(s, StartRead(c)))
  {
    var t := Step(s, StartRead(c));
    LeasesAfter(s, t, c);
    assert forall r :: r in t.core.leases ==> t.core.leases[r] == Leases(t.core, r);
  }

  lemma {:induction false} StepKeepsLeases(s: System, e: Event)
    requires LeasesCounted(s) && Enabled(s, e)
    ensures LeasesCounted(Step(s, e))
  {
    var t := Step(s, e);
    if e.EndRead? {
      EndReadKeepsLeases(s, e.c);
    } else if e.StartRead? && s.core.repository.Some? {
      StartReadKeepsLeases(s, e.c);
    } else {
      assert t.readers == s.readers && t.core.leases == s.core.leases;
      assert forall r :: Leases(t.core, r) == Leases(s.core, r);
    }
  }

  lemma {:induction false} StartReadKeepsOwners(s: System, c: nat)
    requires LeasesCounted(s) && OpenWhileOwned(s) && LeasedIsOwned(s) && Enabled(s, StartRead(c))
    ensures OpenWhileOwned(Step(s, StartRead(c))) && LeasedIsOwned(Step(s, StartRead(c)))
  {
    var t := Step(s, StartRead(c));
    assert t.core.repository == s.core.repository && t.core.retired == s.core.retired
             && t.repositories == s.repositories;
    assert forall r :: Leases(t.core, r) >= Leases(s.core, r);
  }

  lemma {:induction false} EndReadKeepsOwners(s: System, c: nat)
    requires LeasesCounted(s) && OpenWhileOwned(s) && LeasedIsOwned(s) && Enabled(s, EndRead(c))
    ensures OpenWhileOwned(Step(s, EndRead(c))) && LeasedIsOwned(Step(s, EndRead(c)))
  {
    var t, r := Step(s, EndRead(c)), s.readers[c].repository;
    ReaderIsCounted(s, c);
    assert t.core.repository == s.core.repository;
    if Leases(s.core, r) == 1 {
      assert t.core.leases == s.core.leases - {r} && t.core.retired == s.core.retired - {r};
      assert t.repositories == if r in s.core.retired then Closing(s.repositories, Some(r)) else s.repositories;
    } else {
      assert t.core.retired == s.core.retired && t.repositories == s.repositories;
    }
  }

  lemma {:induction false} OpensKeepsOwners(s: System, id: nat, generation: string, now: nat)
    requires LeasesCounted(s) && OpenWhileOwned(s) && LeasedIsOwned(s)
               && Enabled(s, CandidateOpens(id, generation, now))
    ensures OpenWhileOwned(Step(s, CandidateOpens(id, generation, now)))
              && LeasedIsOwned(Step(s, CandidateOpens(id, generation, now)))
  {
    var t := Step(s, CandidateOpens(id, generation, now));
    assert id !in s.core.leases && id !in s.core.retired;
    assert t.core.leases == s.core.leases && t.core.repository == Some(id);
    if s.core.repository.Some? {
      var previous := s.core.repository.value;
      if Leases(s.core, previous) == 0 {
        assert t.core.retired == s.core.retired;
      } else {
        assert t.core.retired == s.core.retired + {previous};
      }
    }
  }

  lemma {:induction false} StepKeepsConsistent(s: System, e: Event)
    requires OpenWhileOwned(s) && Consistent(s) && Enabled(s, e)
    ensures Consistent(Step(s, e))
  {
    var t := Step(s, e);
    forall r | r in s.repositories
      ensures r in t.repositories && t.repositories[r].url == s.repositories[r].url
                && t.repositories[r].generation == s.repositories[r].generation
    {
    }
  }

  lemma {:induction false} StepKeepsInv(s: System, e: Event)
    requires Inv(s) && Enabled(s, e)
    ensures Inv(Step(s, e))
  {
    StepKeepsLeases(s, e);
    StepKeepsConsistent(s, e);
    match e
    case StartRead(c) => StartReadKeepsOwners(s, c);
    case EndRead(c) => EndReadKeepsOwners(s, c);
    case CandidateOpens(id, generation, now) => OpensKeepsOwners(s, id, generation, now);
    case _ =>
  }

  lemma {:induction false} RunKeepsInv(s: System, events: seq<Event>)
    requires Inv(s) && CanRun(s, events)
    ensures Inv(Run(s, events))
    decreases |events|
  {
    if events != [] {
      StepKeepsInv(s, events[0]);
      RunKeepsInv(Step(s, events[0]), events[1..]);
    }
  }

  // ---------- the promises ----------

  ghost predicate Reading(s: System, c: nat, r: nat) {
    c in s.readers && s.readers[c].reading && s.readers[c].repository == r
  }

  /**
   Over every run of reads and refreshes: no repository is closed while it is read, every superseded
   repository nobody reads is closed exactly once, and only current and leased ones are open.
   */
  lemma {:induction false} LeasesAreSafe(events: seq<Event>)
    requires CanRun(Init(), events)
    ensures var s := Run(Init(), events);
            forall r :: r in s.repositories ==>
              && s.repositories[r].closings <= 1
              && (s.repositories[r].closings == 0 <==> IsCurrent(s, r) || exists c :: Reading(s, c, r))
  {
    InitInv();
    RunKeepsInv(Init(), events);
    var s := Run(Init(), events);
    forall r | r in s.repositories
      ensures s.repositories[r].closings <= 1
      ensures s.repositories[r].closings == 0 <==> IsCurrent(s, r) || exists c :: Reading(s, c, r)
    {
      CountPositive(s.readers, ReadingFrom(r));
      if exists c :: Reading(s, c, r) {
        var c :| Reading(s, c, r);
        assert ReadingFrom(r)(s.readers[c]);
        assert r in s.core.leases;
      }
      if r in s.core.retired {
        var c :| c in s.readers && ReadingFrom(r)(s.readers[c]);
        assert Reading(s, c, r);
      }
    }
  }

  lemma {:induction false} InitInv()
    ensures Inv(Init())
  {
    forall r ensures Leases(Init().core, r) == Count(Init().readers, ReadingFrom(r)) {
      assert Matching(Init().readers, ReadingFrom(r)) == {};
    }
  }

  /** A repository is closed by the refresh that supersedes it, if nobody reads it, or by its last reader. */
  lemma {:induction false} ClosedWhenReleased(s: System, e: Event, r: nat)
    requires Inv(s) && Enabled(s, e) && r in s.repositories
    ensures var t := Step(s, e);
            && r in t.repositories && t.repositories[r].url == s.repositories[r].url
                 && t.repositories[r].generation == s.repositories[r].generation
            && (t.repositories[r].closings == s.repositories[r].closings + 1 <==>
                  || (e.CandidateOpens? && IsCurrent(s, r) && Count(s.readers, ReadingFrom(r)) == 0)
                  || (e.EndRead? && s.readers[e.c].repository == r && !IsCurrent(s, r)
                        && Count(s.readers, ReadingFrom(r)) == 1))
            && (t.repositories[r].closings == s.repositories[r].closings
                  || t.repositories[r].closings == s.repositories[r].closings + 1)
  {
    assert Leases(s.core, r) == Count(s.readers, ReadingFrom(r));
    if e.EndRead? {
      ReaderIsCounted(s, e.c);
    }
  }

  /** What one installation brought: repository, URL and generation of a refresh that completed. */
  ghost predicate Installed(s: System, e: Event, r: nat, url: Option<string>, generation: string) {
    e.CandidateOpens? && Enabled(s, e) && e.id == r && e.generation == generation && s.core.refreshing.url == url
  }

  /** Somewhere in the run one refresh installed this repository with this URL and this generation. */
  ghost predicate InstalledInRun(s: System, events: seq<Event>, r: nat, url: Option<string>, generation: string)
    requires CanRun(s, events)
    decreases |events|
  {
    events != [] && (Installed(s, events[0], r, url, generation)
        || InstalledInRun(Step(s, events[0]), events[1..], r, url, generation))
  }

  lemma {:induction false} OpenedWasInstalled(s: System, events: seq<Event>, r: nat)
    requires Inv(s) && CanRun(s, events) && r !in s.repositories && r in Run(s, events).repositories
    ensures InstalledInRun(s, events, r, Run(s, events).repositories[r].url, Run(s, events).repositories[r].generation)
    decreases |events|
  {
    StepKeepsInv(s, events[0]);
    var t := Step(s, events[0]);
    if r in t.repositories {
      assert Installed(s, events[0], r, t.repositories[r].url, t.repositories[r].generation);
      InstallationStays(t, events[1..], r);
    } else {
      OpenedWasInstalled(t, events[1..], r);
    }
  }

  lemma {:induction false} InstallationStays(s: System, events: seq<Event>, r: nat)
    requires Inv(s) && CanRun(s, events) && r in s.repositories
    ensures r in Run(s, events).repositories
    ensures Run(s, events).repositories[r].url == s.repositories[r].url
    ensures Run(s, events).repositories[r].generation == s.repositories[r].generation
    decreases |events|
  {
    if events != [] {
      ClosedWhenReleased(s, events[0], r);
      StepKeepsInv(s, events[0]);
      InstallationStays(Step(s, events[0]), events[1..], r);
    }
  }

  /** Every read was given the repository, the URL and the generation of one and the same refresh. */
  lemma {:induction false} ReadsSeeOneInstallation(events: seq<Event>, c: nat)
    requires CanRun(Init(), events) && c in Run(Init(), events).readers
    ensures var q := Run(Init(), events).readers[c];
            InstalledInRun(Init(), events, q.repository, q.url, q.generation)
  {
    InitInv();
    RunKeepsInv(Init(), events);
    OpenedWasInstalled(Init(), events, Run(Init(), events).readers[c].repository);
  }

  /**
   Whether a step can replace the current repository. It takes a refresh that was writing, so never a
   second one beside it; a failed or unchanged refresh leaves everything readers see as it was.
   */
  lemma {:induction false} OnlyInstallationsReplace(s: System, e: Event)
    requires Enabled(s, e) && !e.CandidateOpens?
    ensures var t := Step(s, e);
            && t.core.repository == s.core.repository && t.core.activeUrl == s.core.activeUrl
            && t.core.fingerprint == s.core.fingerprint && t.core.lastSuccess == s.core.lastSuccess
            && (t.core.lastError != s.core.lastError ==> e.RefreshFails?)
            && (e.RefreshFails? ==> t == s.(core := s.core.(lastError := Some(e.error), refreshing := Settled(false))))
  {
  }

  /** A candidate is written only for a source that differs from the one installed. */
  ghost predicate CandidateDiffers(s: System) {
    s.core.refreshing.Writing? ==> s.core.repository.None? || s.core.fingerprint != Some(s.core.refreshing.fingerprint)
  }

  /** The shared refresh is not disturbed by readers, so what it compared still holds when it installs. */
  lemma {:induction false} InstallationsDiffer(s: System, events: seq<Event>, last: Event)
    requires CandidateDiffers(s) && CanRun(s, events) && Enabled(Run(s, events), last)
    requires last.CandidateOpens? && Run(s, events).core.repository.Some?
    ensures Step(Run(s, events), last).core.fingerprint != Run(s, events).core.fingerprint
    decreases |events|
  {
    if events != [] {
      InstallationsDiffer(Step(s, events[0]), events[1..], last);
    }
  }

  // ---------- what the events say ----------

  /**
   What the events of refreshes say by themselves: what the source last offered, what was installed last and
   when, and the error since.
   */
  datatype Status = Status(
    offered: Option<(string, Option<string>)>,
    current: Option<Served>,
    fingerprint: Option<string>,
    lastSuccess: Option<nat>,
    lastError: Option<string>)

  datatype Served = Served(repository: nat, url: Option<string>, generation: string)

  function Told(status: Status, e: Event): Status {
    match e
    case SourceAnswers(fingerprint, url) => status.(offered := Some((fingerprint, url)))
    case CandidateOpens(id, generation, now) =>
      if status.offered.None? then status
      else
        var (fingerprint, url) := status.offered.value;
        Status(status.offered, Some(Served(id, url, generation)), Some(fingerprint), Some(now), None)
    case RefreshFails(error) => status.(lastError := Some(error))
    case _ => status
  }

  function AllTold(status: Status, events: seq<Event>): Status
    decreases |events|
  {
    if events == [] then status else AllTold(Told(status, events[0]), events[1..])
  }

  /** The lifecycle shows this status. */
  ghost predicate Shows(s: System, status: Status) {
    && s.core.fingerprint == status.fingerprint && s.core.lastSuccess == status.lastSuccess
    && s.core.lastError == status.lastError
    && (s.core.refreshing.Writing? ==> status.offered == Some((s.core.refreshing.fingerprint, s.core.refreshing.url)))
    && (match status.current
        case None => s.core.repository.None?
        case Some(served) =>
          && IsCurrent(s, served.repository) && served.repository in s.repositories
          && s.core.activeUrl == served.url && s.repositories[served.repository].generation == served.generation)
  }

  lemma {:induction false} StepShows(s: System, status: Status, e: Event)
    requires Shows(s, status) && Enabled(s, e)
    ensures Shows(Step(s, e), Told(status, e))
  {
  }

  lemma {:induction false} RunShows(s: System, status: Status, events: seq<Event>)
    requires Shows(s, status) && CanRun(s, events)
    ensures Shows(Run(s, events), AllTold(status, events))
    decreases |events|
  {
    if events != [] {
      StepShows(s, status, events[0]);
      RunShows(Step(s, events[0]), Told(status, events[0]), events[1..]);
    }
  }

  /**
   Over every run the lifecycle shows what the events say: fingerprint and URL that the source gave for the
   repository installed last, the time of that, and the error since. A read that starts then is given exactly
   that repository with its URL and generation, or nothing before the first installation.
   */
  lemma {:induction false} StatusFollowsEvents(events: seq<Event>, c: nat)
    requires CanRun(Init(), events) && Enabled(Run(Init(), events), StartRead(c))
    ensures var s, status := Run(Init(), events), AllTold(Status(None, None, None, None, None), events);
            var t := Step(s, StartRead(c));
            && s.core.fingerprint == status.fingerprint && s.core.lastSuccess == status.lastSuccess
            && s.core.lastError == status.lastError
            && (match status.current
                case None => s.core.repository.None? && c !in t.readers
                case Some(Served(repository, url, generation)) =>
                  IsCurrent(s, repository) && t.readers[c] == Reader(repository, url, generation, true))
  {
    RunShows(Init(), Status(None, None, None, None, None), events);
  }

  /** Nothing but reads, and calls that share the refresh. */
  predicate Quiet(events: seq<Event>) {
    forall e :: e in events ==> e.StartRead? || e.EndRead? || e.CallRefresh?
  }

  lemma {:induction false} QuietKeeps(s: System, events: seq<Event>)
    requires CanRun(s, events) && Quiet(events) && !s.core.refreshing.Absent?
    ensures var t := Run(s, events);
            && t.core.refreshing == s.core.refreshing && t.core.repository == s.core.repository
            && t.core.fingerprint == s.core.fingerprint && t.repositories.Keys == s.repositories.Keys
    decreases |events|
  {
    if events != [] {
      assert events[0] in events && forall e :: e in events[1..] ==> e in events;
      QuietKeeps(Step(s, events[0]), events[1..]);
    }
  }

  /**
   A refresh that is called when none is under way gets through, whatever reads and calls come between: it
   ends with nothing replaced if what is served has the source's fingerprint, and can otherwise install the
   candidate, with the fingerprint and the URL that the source gave.
   */
  lemma {:induction false} RefreshGetsThrough(s: System, before: seq<Event>, fingerprint: string, url: Option<string>,
      after: seq<Event>, id: nat, generation: string, now: nat)
    requires s.core.refreshing.Absent? && id !in s.repositories && Quiet(before) && Quiet(after)
    requires CanRun(Step(s, CallRefresh), before)
    requires var answer := SourceAnswers(fingerprint, url);
             Enabled(Run(Step(s, CallRefresh), before), answer) ==>
               CanRun(Step(Run(Step(s, CallRefresh), before), answer), after)
    ensures Enabled(Run(Step(s, CallRefresh), before), SourceAnswers(fingerprint, url))
    ensures var asked := Run(Step(s, CallRefresh), before);
            var answered := Run(Step(asked, SourceAnswers(fingerprint, url)), after);
            var same := s.core.repository.Some? && s.core.fingerprint == Some(fingerprint);
            if same then answered.core.refreshing == Settled(false) && answered.core.repository == s.core.repository
            else
              && Enabled(answered, CandidateOpens(id, generation, now))
              && var t := Step(answered, CandidateOpens(id, generation, now));
                 && t.core.repository == Some(id) && t.core.refreshing == Settled(true) && t.core.activeUrl == url
                 && t.core.fingerprint == Some(fingerprint) && t.core.lastSuccess == Some(now)
                 && t.core.lastError.None? && t.repositories[id].generation == generation
                 && Step(t, RefreshClears).core.refreshing.Absent?
  {
    var called := Step(s, CallRefresh);
    QuietKeeps(called, before);
    var asked := Run(called, before);
    QuietKeeps(Step(asked, SourceAnswers(fingerprint, url)), after);
  }
}
