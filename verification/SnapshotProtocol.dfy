/**
 Refreshing the published catalog of the feature server, and who owns its files. A refresh downloads a
 candidate file, opens it and activates it; the registry swaps snapshots under its lock and deletes the
 file of a retired snapshot when its last request ends. A refresh suspends while it downloads, opens and
 activates, so requests come and go between its stages.
 */
module SnapshotProtocol {
  import opened Wrappers
  import opened Counting

  // ---------- judging a download ----------

  datatype Response = Response(status: int, etag: Option<string>, amzChecksum: Option<string>,
                               googChecksum: Option<string>, contentLength: Option<string>, content: string)

  datatype Pointer = Pointer(generation: string, catalogKey: string, sha256: string, sizeBytes: int)

  /** The answers of the servers, a missing one being a transport error. */
  datatype Exchange =
    | Direct(response: Option<Response>)
    | ViaPointer(pointer: Option<Response>, response: Option<Response>)

  /** The libraries at work: digests, case folding, decimal numbers, pointer parsing and URL composition. */
  datatype Library = Library(
    sha256: string -> string,
    lower: string -> string,
    parseInt: string -> Option<int>,
    decimal: int -> string,
    parsePointer: string -> Option<Pointer>,
    locate: (string, Pointer) -> Option<string>)

  datatype FetchError =
    | Transport | BadStatus | BadPointer | MissingMetadata | BadLength | LengthMismatch | ChecksumMismatch
    | Unwritable | Unreadable | WrongGeneration | ReusedGeneration | ActivationFailed

  datatype Fetcher = Fetcher(
    url: string,
    pointerUrl: Option<string>,
    catalogUrl: string,
    etag: Option<string>,
    generation: Option<string>,
    lastError: Option<FetchError>)

  datatype Verdict =
    | Unchanged
    | Rejected(error: FetchError)
    | Accepted(etag: string, url: string, expected: Option<string>)

  predicate IsSuccess(r: Response) {
    200 <= r.status < 300
  }

  /** The first of two header values that is present and not empty, else the second. */
  function Either(first: Option<string>, second: Option<string>): Option<string> {
    if first.Some? && first.value != "" then first else second
  }

  function JudgeResponse(lib: Library, f: Fetcher, r: Response, etag: Option<string>, checksum: Option<string>,
      length: Option<string>, url: string, expected: Option<string>): Verdict
  {
    if r.status == 304 && f.etag.Some? then Unchanged
    else if !IsSuccess(r) then Rejected(BadStatus)
    else if etag.None? || checksum.None? || length.None? then Rejected(MissingMetadata)
    else if lib.parseInt(length.value).None? then Rejected(BadLength)
    else if lib.parseInt(length.value).value != |r.content| then Rejected(LengthMismatch)
    else if lib.sha256(r.content) != lib.lower(checksum.value) then Rejected(ChecksumMismatch)
    else Accepted(etag.value, url, expected)
  }

  function JudgeDirect(lib: Library, f: Fetcher, response: Option<Response>): Verdict {
    match response
    case None => Rejected(Transport)
    case Some(r) =>
      JudgeResponse(lib, f, r, r.etag, Either(r.amzChecksum, r.googChecksum), r.contentLength, f.url, None)
  }

  function JudgePointer(lib: Library, f: Fetcher, pointerUrl: string, answer: Option<Response>,
      response: Option<Response>): Verdict
  {
    match answer
    case None => Rejected(Transport)
    case Some(a) =>
      if a.status == 304 && f.etag.Some? then Unchanged
      else if !IsSuccess(a) then Rejected(BadStatus)
      else
        match lib.parsePointer(a.content)
        case None => Rejected(BadPointer)
        case Some(pointer) =>
          var url := lib.locate(pointerUrl, pointer);
          if url.None? then Rejected(BadPointer)
          else if response.None? then Rejected(Transport)
          else JudgeResponse(lib, f, response.value, Either(a.etag, Some(pointer.generation)), Some(pointer.sha256),
                             Some(lib.decimal(pointer.sizeBytes)), url.value, Some(pointer.generation))
  }

  function Judge(lib: Library, f: Fetcher, x: Exchange): Verdict {
    match f.pointerUrl
    case None => JudgeDirect(lib, f, x.response)
    case Some(pointerUrl) => JudgePointer(lib, f, pointerUrl, if x.ViaPointer? then x.pointer else None, x.response)
  }

  /** What stands against an found candidate. */
  function Objection(f: Fetcher, v: Verdict, found: Option<string>): Option<FetchError>
    requires v.Accepted?
  {
    if found.None? then Some(Unreadable)
    else if v.expected.Some? && found != v.expected then Some(WrongGeneration)
    else if f.generation.Some? && found == f.generation && Some(v.etag) != f.etag then Some(ReusedGeneration)
    else None
  }

  function Failing(f: Fetcher, e: FetchError): Fetcher {
    f.(lastError := Some(e))
  }

  function Activated(f: Fetcher, etag: string, generation: string): Fetcher {
    f.(etag := Some(etag), generation := Some(generation), lastError := None)
  }

  // ---------- snapshots and files ----------

  datatype Snapshot = Snapshot(generation: string, path: string, references: int, retired: bool, owned: bool)

  /** Deletes the file of a retired snapshot that no request holds. */
  function Cleaned(files: set<string>, s: Snapshot): set<string> {
    if s.retired && s.references == 0 && s.owned then files - {s.path} else files
  }

  datatype Phase =
    | Idle
    | Candidate(path: string, exchange: Exchange, verdict: Verdict)
    | Activating(path: string, exchange: Exchange, etag: string, generation: string, previousUrl: string)
    | Recording(etag: string, generation: string)
  {
    /** The candidate file of a refresh that has not activated it. */
    function Candidates(): set<string> {
      if Candidate? || Activating? then {path} else {}
    }
  }

  /** What was activated, and what it rests on: the exchange, and the fetcher that judged it. */
  datatype Activation = Activation(etag: string, generation: string, path: string, exchange: Exchange, before: Fetcher)

  datatype Holder = Holder(snapshot: nat, active: bool)

  /** The server: the fetcher as it was before and is in this refresh, the registry, the disk, and the requests. */
  datatype Server = Server(
    fetcher: Fetcher,
    before: Fetcher,
    phase: Phase,
    snapshots: map<nat, Snapshot>,
    current: Option<nat>,
    files: set<string>,
    holders: map<nat, Holder>,
    activations: seq<Activation>,
    closed: bool)

  datatype Event =
    | Acquire(h: nat)
    | Release(h: nat)
    | Answer(exchange: Exchange, path: string, writable: bool)
    | Open(found: Option<string>)
    | Activate(built: bool, id: nat)
    | Record
    | Close

  function Init(f: Fetcher): Server {
    Server(f, f, Idle, map[], None, {}, map[], [], false)
  }

  function Replaced(s: Server, current: Option<nat>): Server {
    match s.current
    case Some(previous) =>
      if previous in s.snapshots then
        var retired := s.snapshots[previous].(retired := true);
        s.(current := current, snapshots := s.snapshots[previous := retired], files := Cleaned(s.files, retired))
      else s.(current := current)
    case None => s.(current := current)
  }

  predicate Enabled(s: Server, e: Event) {
    match e
    case Acquire(h) => h !in s.holders && (s.current.Some? ==> s.current.value in s.snapshots)
    case Release(h) => h in s.holders && s.holders[h].active && s.holders[h].snapshot in s.snapshots
    case Answer(_, path, _) => s.phase.Idle? && !s.closed && path !in s.files
    case Open(_) => s.phase.Candidate? && s.phase.verdict.Accepted?
    case Activate(_, id) => s.phase.Activating? && id !in s.snapshots
    case Record => s.phase.Recording?
    case Close => s.phase.Idle? && !s.closed
  }

  predicate Activates(e: Event) {
    e.Activate? && e.built
  }

  function Answered(lib: Library, s: Server, x: Exchange, path: string, writable: bool): Server {
    match Judge(lib, s.fetcher, x)
    case Unchanged => s.(before := s.fetcher, fetcher := s.fetcher.(lastError := None))
    case Rejected(error) => s.(before := s.fetcher, fetcher := Failing(s.fetcher, error))
    case Accepted(etag, url, expected) =>
      if !writable then s.(before := s.fetcher, fetcher := Failing(s.fetcher, Unwritable))
      else
        s.(before := s.fetcher, files := s.files + {path},
        phase := Candidate(path, x, Accepted(etag, url, expected)))
  }

  function Step(lib: Library, s: Server, e: Event): Server
    requires Enabled(s, e)
  {
    match e
    case Acquire(h) =>
      (match s.current
       case None => s
       case Some(i) =>
         s.(snapshots := s.snapshots[i := s.snapshots[i].(references := s.snapshots[i].references + 1)],
         holders := s.holders[h := Holder(i, true)]))
    case Release(h) =>
      var i := s.holders[h].snapshot;
      var left := s.snapshots[i].(references := s.snapshots[i].references - 1);
      s.(snapshots := s.snapshots[i := left], holders := s.holders[h := Holder(i, false)],
      files := Cleaned(s.files, left))
    case Answer(exchange, path, writable) => Answered(lib, s, exchange, path, writable)
    case Open(found) =>
      (match Objection(s.fetcher, s.phase.verdict, found)
       case Some(error) => s.(fetcher := Failing(s.fetcher, error), files := s.files - {s.phase.path}, phase := Idle)
       case None =>
         s.(fetcher := s.fetcher.(catalogUrl := s.phase.verdict.url),
         phase := Activating(s.phase.path, s.phase.exchange, s.phase.verdict.etag, found.value, s.fetcher.catalogUrl)))
    case Activate(built, id) =>
      if !built then
        s.(fetcher := Failing(s.fetcher.(catalogUrl := s.phase.previousUrl), ActivationFailed),
        files := s.files - {s.phase.path}, phase := Idle)
      else
        var t := Replaced(s, Some(id));
        t.(snapshots := t.snapshots[id := Snapshot(s.phase.generation, s.phase.path, 0, false, true)],
          phase := Recording(s.phase.etag, s.phase.generation),
          activations := s.activations
              + [Activation(s.phase.etag, s.phase.generation, s.phase.path, s.phase.exchange, s.before)])
    case Record => s.(fetcher := Activated(s.fetcher, s.phase.etag, s.phase.generation), phase := Idle)
    case Close => Replaced(s, None).(closed := true)
  }

  predicate CanRun(lib: Library, s: Server, events: seq<Event>)
    decreases |events|
  {
    events == [] || (Enabled(s, events[0]) && CanRun(lib, Step(lib, s, events[0]), events[1..]))
  }

  function Run(lib: Library, s: Server, events: seq<Event>): Server
    requires CanRun(lib, s, events)
    decreases |events|
  {
    if events == [] then s else Run(lib, Step(lib, s, events[0]), events[1..])
  }

  // ---------- the invariant of the registry and the disk ----------

  function HoldingOf(i: nat): Holder -> bool {
    (h: Holder) => h.active && h.snapshot == i
  }

  ghost predicate ReferencesCounted(s: Server) {
    && (forall i :: i in s.snapshots ==> s.snapshots[i].references == Count(s.holders, HoldingOf(i)))
    && (forall h :: h in s.holders ==> s.holders[h].snapshot in s.snapshots)
  }

  ghost predicate RetiredUnlessCurrent(s: Server) {
    && (s.current.Some? ==> s.current.value in s.snapshots)
    && (forall i :: i in s.snapshots ==> s.snapshots[i].owned && (s.snapshots[i].retired <==> s.current != Some(i)))
  }

  /** A snapshot that is current, or retired and still held by a request. */
  ghost predicate Live(s: Server, i: nat) {
    i in s.snapshots && (s.current == Some(i) || s.snapshots[i].references != 0)
  }

  ghost predicate InFlight(s: Server, path: string) {
    path in s.phase.Candidates()
  }

  ghost predicate HasLivePath(s: Server, path: string) {
    exists i :: Live(s, i) && s.snapshots[i].path == path
  }

  /** The files on disk are those of live snapshots and of the candidate in flight. */
  ghost predicate FilesExact(s: Server) {
    forall p :: p in s.files <==> HasLivePath(s, p) || InFlight(s, p)
  }

  ghost predicate PathsDistinct(s: Server) {
    && (forall i, j :: Live(s, i) && Live(s, j) && s.snapshots[i].path == s.snapshots[j].path ==> i == j)
    && (forall i :: Live(s, i) ==> !InFlight(s, s.snapshots[i].path))
  }

  ghost predicate DiskInv(s: Server) {
    ReferencesCounted(s) && RetiredUnlessCurrent(s) && FilesExact(s) && PathsDistinct(s)
  }

  lemma {:induction false} RequestKeepsReferences(lib: Library, s: Server, e: Event)
    requires ReferencesCounted(s) && Enabled(s, e) && ((e.Acquire? && s.current.Some?) || e.Release?)
    ensures ReferencesCounted(Step(lib, s, e))
  {
    var t := Step(lib, s, e);
    forall i | i in t.snapshots ensures t.snapshots[i].references == Count(t.holders, HoldingOf(i)) {
      CountUpdate(s.holders, e.h, t.holders[e.h], HoldingOf(i));
    }
  }

  /** Steps that leave the requests alone leave the counts alone; a new snapshot starts at zero. */
  lemma {:induction false} SameHoldersKeepReferences(s: Server, t: Server)
    requires ReferencesCounted(s) && t.holders == s.holders && s.snapshots.Keys <= t.snapshots.Keys
    requires forall i :: i in t.snapshots ==>
               t.snapshots[i].references == if i in s.snapshots then s.snapshots[i].references else 0
    ensures ReferencesCounted(t)
  {
    forall i | i in t.snapshots ensures t.snapshots[i].references == Count(t.holders, HoldingOf(i)) {
      CountPositive(s.holders, HoldingOf(i));
    }
  }

  lemma {:induction false} ReplacedKeepsReferences(s: Server, current: Option<nat>)
    ensures var t := Replaced(s, current);
            && t.holders == s.holders && t.snapshots.Keys == s.snapshots.Keys && t.phase == s.phase
            && forall i :: i in t.snapshots ==> t.snapshots[i].references == s.snapshots[i].references
  {
  }

  lemma {:induction false} StepKeepsReferences(lib: Library, s: Server, e: Event)
    requires ReferencesCounted(s) && Enabled(s, e)
    ensures ReferencesCounted(Step(lib, s, e))
  {
    if (e.Acquire? && s.current.Some?) || e.Release? {
      RequestKeepsReferences(lib, s, e);
    } else if Activates(e) {
      ReplacedKeepsReferences(s, Some(e.id));
      SameHoldersKeepReferences(s, Step(lib, s, e));
    } else if e.Close? {
      ReplacedKeepsReferences(s, None);
      SameHoldersKeepReferences(s, Step(lib, s, e));
    } else {
      assert Step(lib, s, e).snapshots == s.snapshots && Step(lib, s, e).holders == s.holders;
      SameHoldersKeepReferences(s, Step(lib, s, e));
    }
  }

  lemma {:induction false} StepKeepsRetired(lib: Library, s: Server, e: Event)
    requires RetiredUnlessCurrent(s) && Enabled(s, e)
    ensures RetiredUnlessCurrent(Step(lib, s, e))
  {
  }

  /** Of the files, only candidates change: the one of the refresh goes, or a new one comes. */
  ghost predicate CandidatesOnly(s: Server, t: Server) {
    var gone, come := s.phase.Candidates() - t.phase.Candidates(), t.phase.Candidates() - s.phase.Candidates();
    t.files == s.files - gone + come && come !! s.files
  }

  /** Files and paths are kept by a step that changes neither the live snapshots nor their paths. */
  lemma {:induction false} FilesFrame(s: Server, t: Server)
    requires FilesExact(s) && PathsDistinct(s)
    requires forall i :: Live(t, i) <==> Live(s, i)
    requires forall i :: Live(t, i) ==> t.snapshots[i].path == s.snapshots[i].path
    requires CandidatesOnly(s, t)
    ensures FilesExact(t) && PathsDistinct(t)
  {
    forall p ensures p in t.files <==> HasLivePath(t, p) || InFlight(t, p) {
      assert HasLivePath(t, p) <==> HasLivePath(s, p) by {
        if HasLivePath(s, p) {
          var i :| Live(s, i) && s.snapshots[i].path == p;
          assert Live(t, i);
        }
        if HasLivePath(t, p) {
          var i :| Live(t, i) && t.snapshots[i].path == p;
          assert Live(s, i);
        }
      }
      assert p in s.files <==> HasLivePath(s, p) || InFlight(s, p);
    }
    forall i | Live(t, i) ensures !InFlight(t, t.snapshots[i].path) {
      assert Live(s, i) && HasLivePath(s, s.snapshots[i].path);
    }
  }

  /** One snapshot dies and its file goes with it. */
  lemma {:induction false} FilesAfterDeath(s: Server, t: Server, dead: nat)
    requires FilesExact(s) && PathsDistinct(s) && Live(s, dead)
    requires forall i :: Live(t, i) <==> Live(s, i) && i != dead
    requires forall i :: Live(t, i) ==> t.snapshots[i].path == s.snapshots[i].path
    requires t.files == s.files - {s.snapshots[dead].path} && t.phase == s.phase
    ensures FilesExact(t) && PathsDistinct(t)
  {
    forall p ensures p in t.files <==> HasLivePath(t, p) || InFlight(t, p) {
      assert p in s.files <==> HasLivePath(s, p) || InFlight(s, p);
      if HasLivePath(s, p) && p != s.snapshots[dead].path {
        var i :| Live(s, i) && s.snapshots[i].path == p;
        assert Live(t, i);
      }
      if HasLivePath(t, p) {
        var i :| Live(t, i) && t.snapshots[i].path == p;
        assert Live(s, i) && HasLivePath(s, p);
      }
    }
  }

  /** The candidate in flight becomes the file of a new live snapshot. */
  lemma {:induction false} FilesAfterBirth(s: Server, t: Server, id: nat)
    requires FilesExact(s) && PathsDistinct(s) && s.phase.Activating? && t.phase.Recording? && !Live(s, id)
    requires forall i :: Live(t, i) <==> Live(s, i) || i == id
    requires forall i :: Live(t, i) ==> t.snapshots[i].path == if i == id then s.phase.path else s.snapshots[i].path
    requires t.files == s.files
    ensures FilesExact(t) && PathsDistinct(t)
  {
    forall p ensures p in t.files <==> HasLivePath(t, p) || InFlight(t, p) {
      assert p in s.files <==> HasLivePath(s, p) || InFlight(s, p);
      if HasLivePath(s, p) {
        var i :| Live(s, i) && s.snapshots[i].path == p;
        assert Live(t, i);
      }
      if InFlight(s, p) {
        assert Live(t, id);
      }
      if HasLivePath(t, p) {
        var i :| Live(t, i) && t.snapshots[i].path == p;
        assert i == id || Live(s, i);
      }
    }
  }

  /** Retiring the current snapshot keeps its file while requests hold it, and deletes it otherwise. */
  lemma {:induction false} ReplacedKeepsFiles(s: Server)
    requires RetiredUnlessCurrent(s) && FilesExact(s) && PathsDistinct(s)
    ensures FilesExact(Replaced(s, None)) && PathsDistinct(Replaced(s, None))
  {
    var t := Replaced(s, None);
    if s.current.Some? {
      var previous := s.current.value;
      if s.snapshots[previous].references == 0 {
        FilesAfterDeath(s, t, previous);
      } else {
        KeptFiles(s, t);
      }
    }
  }

  lemma {:induction false} KeptFiles(s: Server, t: Server)
    requires FilesExact(s) && PathsDistinct(s)
    requires forall i :: Live(t, i) <==> Live(s, i)
    requires forall i :: Live(t, i) ==> t.snapshots[i].path == s.snapshots[i].path
    requires t.phase == s.phase && t.files == s.files
    ensures FilesExact(t) && PathsDistinct(t)
  {
    FilesFrame(s, t);
  }

  lemma {:induction false} ReleaseKeepsFiles(lib: Library, s: Server, h: nat)
    requires DiskInv(s) && Enabled(s, Release(h))
    ensures FilesExact(Step(lib, s, Release(h))) && PathsDistinct(Step(lib, s, Release(h)))
  {
    var t, i := Step(lib, s, Release(h)), s.holders[h].snapshot;
    CountPositive(s.holders, HoldingOf(i));
    assert HoldingOf(i)(s.holders[h]);
    if s.current != Some(i) && s.snapshots[i].references == 1 {
      FilesAfterDeath(s, t, i);
    } else {
      KeptFiles(s, t);
    }
  }

  lemma {:induction false} ActivateKeepsFiles(lib: Library, s: Server, id: nat)
    requires DiskInv(s) && Enabled(s, Activate(true, id))
    ensures FilesExact(Step(lib, s, Activate(true, id))) && PathsDistinct(Step(lib, s, Activate(true, id)))
  {
    ReplacedKeepsFiles(s);
    var retired := Replaced(s, None);
    var t := Step(lib, s, Activate(true, id));
    assert t.files == retired.files;
    assert retired.snapshots.Keys == s.snapshots.Keys;
    FilesAfterBirth(retired, t, id);
  }

  /** An answer touches nothing of the registry; it may leave a candidate file. */
  lemma {:induction false} AnsweredFrame(lib: Library, s: Server, x: Exchange, path: string, writable: bool)
    requires s.phase.Idle?
    ensures var t := Answered(lib, s, x, path, writable);
            && t.snapshots == s.snapshots && t.current == s.current && t.holders == s.holders
            && t.activations == s.activations && t.closed == s.closed
            && t.files == s.files + t.phase.Candidates() && (t.phase.Idle? || t.phase.Candidates() == {path})
  {
  }

  lemma {:induction false} AnswerKeepsFiles(lib: Library, s: Server, e: Event)
    requires DiskInv(s) && Enabled(s, e) && e.Answer?
    ensures FilesExact(Step(lib, s, e)) && PathsDistinct(Step(lib, s, e))
  {
    AnsweredFrame(lib, s, e.exchange, e.path, e.writable);
    SameRegistryFrame(s, Step(lib, s, e));
  }

  lemma {:induction false} SameRegistryFrame(s: Server, t: Server)
    requires FilesExact(s) && PathsDistinct(s) && t.snapshots == s.snapshots && t.current == s.current
    requires CandidatesOnly(s, t)
    ensures FilesExact(t) && PathsDistinct(t)
  {
    FilesFrame(s, t);
  }

  lemma {:induction false} OpenKeepsFiles(lib: Library, s: Server, e: Event)
    requires DiskInv(s) && Enabled(s, e) && e.Open?
    ensures FilesExact(Step(lib, s, e)) && PathsDistinct(Step(lib, s, e))
  {
    FilesFrame(s, Step(lib, s, e));
  }

  lemma {:induction false} FailureKeepsFiles(lib: Library, s: Server, e: Event)
    requires DiskInv(s) && Enabled(s, e) && e.Activate? && !e.built
    ensures FilesExact(Step(lib, s, e)) && PathsDistinct(Step(lib, s, e))
  {
    FilesFrame(s, Step(lib, s, e));
  }

  lemma {:induction false} RecordKeepsFiles(lib: Library, s: Server)
    requires DiskInv(s) && Enabled(s, Record)
    ensures FilesExact(Step(lib, s, Record)) && PathsDistinct(Step(lib, s, Record))
  {
    FilesFrame(s, Step(lib, s, Record));
  }

  lemma {:induction false} AcquireKeepsFiles(lib: Library, s: Server, h: nat)
    requires DiskInv(s) && Enabled(s, Acquire(h))
    ensures FilesExact(Step(lib, s, Acquire(h))) && PathsDistinct(Step(lib, s, Acquire(h)))
  {
    if s.current.Some? {
      CountPositive(s.holders, HoldingOf(s.current.value));
      KeptFiles(s, Step(lib, s, Acquire(h)));
    }
  }

  lemma {:induction false} StepKeepsFiles(lib: Library, s: Server, e: Event)
    requires DiskInv(s) && Enabled(s, e)
    ensures FilesExact(Step(lib, s, e)) && PathsDistinct(Step(lib, s, e))
  {
    if e.Acquire? {
      AcquireKeepsFiles(lib, s, e.h);
    } else if e.Release? {
      ReleaseKeepsFiles(lib, s, e.h);
    } else if Activates(e) {
      ActivateKeepsFiles(lib, s, e.id);
    } else if e.Close? {
      ReplacedKeepsFiles(s);
      KeptFiles(Replaced(s, None), Step(lib, s, e));
    } else if e.Answer? {
      AnswerKeepsFiles(lib, s, e);
    } else if e.Open? {
      OpenKeepsFiles(lib, s, e);
    } else if e.Record? {
      RecordKeepsFiles(lib, s);
    } else {
      FailureKeepsFiles(lib, s, e);
    }
  }

  // ---------- what makes an exchange sound ----------

  /** The bytes are what the publisher announced, by length and by digest. */
  ghost predicate IsIntact(lib: Library, r: Response, checksum: string, length: string) {
    && 200 <= r.status < 300
    && lib.parseInt(length) == Some(|r.content|) && lib.sha256(r.content) == lib.lower(checksum)
  }

  /** A new revision must not reuse the active generation. */
  ghost predicate IsNewRevision(f: Fetcher, etag: Option<string>, generation: Option<string>) {
    f.generation.Some? && generation == f.generation ==> etag == f.etag
  }

  /** The digest a response announces: the one of the first header that is there and not empty, else the second. */
  ghost predicate Announces(r: Response, checksum: string) {
    || (r.amzChecksum == Some(checksum) && checksum != "")
    || ((r.amzChecksum.None? || r.amzChecksum.value == "") && r.googChecksum == Some(checksum))
  }

  ghost predicate DirectIsSound(lib: Library, f: Fetcher, x: Exchange, generation: Option<string>) {
    x.response.Some? &&
    var r := x.response.value;
    && r.etag.Some? && r.contentLength.Some?
    && (exists checksum :: Announces(r, checksum) && IsIntact(lib, r, checksum, r.contentLength.value))
    && IsNewRevision(f, r.etag, generation)
  }

  /** A selected release's revision is named by its pointer's tag, or by its generation without one. */
  function PointerRevision(answer: Response, pointer: Pointer): string {
    if answer.etag.None? || answer.etag.value == "" then pointer.generation else answer.etag.value
  }

  ghost predicate PointerIsSound(lib: Library, f: Fetcher, pointerUrl: string, x: Exchange,
      generation: Option<string>)
  {
    x.ViaPointer? && x.pointer.Some? && x.response.Some? &&
    var answer, r := x.pointer.value, x.response.value;
    200 <= answer.status < 300 && lib.parsePointer(answer.content).Some? &&
    var pointer := lib.parsePointer(answer.content).value;
    && lib.locate(pointerUrl, pointer).Some? && IsIntact(lib, r, pointer.sha256, lib.decimal(pointer.sizeBytes))
    && generation == Some(pointer.generation)
    && IsNewRevision(f, Some(PointerRevision(answer, pointer)), generation)
  }

  /** An exchange whose opened candidate this fetcher may activate. */
  ghost predicate IsSound(lib: Library, f: Fetcher, x: Exchange, generation: Option<string>) {
    generation.Some? &&
    match f.pointerUrl
    case None => DirectIsSound(lib, f, x, generation)
    case Some(pointerUrl) => PointerIsSound(lib, f, pointerUrl, x, generation)
  }

  /** What the checks of the code let through. */
  ghost predicate Passes(lib: Library, f: Fetcher, x: Exchange, generation: Option<string>) {
    Judge(lib, f, x).Accepted? && Objection(f, Judge(lib, f, x), generation).None?
  }

  lemma {:induction false} DirectAcceptance(lib: Library, f: Fetcher, x: Exchange, generation: Option<string>)
    requires f.pointerUrl.None? && generation.Some?
    ensures Passes(lib, f, x, generation) <==> DirectIsSound(lib, f, x, generation)
  {
    if x.response.Some? {
      var r := x.response.value;
      var checksum := Either(r.amzChecksum, r.googChecksum);
      assert forall c :: Announces(r, c) <==> checksum == Some(c);
    }
  }

  lemma {:induction false} PointerAcceptance(lib: Library, f: Fetcher, pointerUrl: string, x: Exchange,
      generation: Option<string>)
    requires f.pointerUrl == Some(pointerUrl) && generation.Some?
    ensures Passes(lib, f, x, generation) <==> PointerIsSound(lib, f, pointerUrl, x, generation)
  {
    if x.ViaPointer? && x.pointer.Some? && lib.parsePointer(x.pointer.value.content).Some? {
      var pointer := lib.parsePointer(x.pointer.value.content).value;
      assert Either(x.pointer.value.etag, Some(pointer.generation)) == Some(PointerRevision(x.pointer.value, pointer));
    }
  }

  /** The ordered checks let a candidate through if and only if its exchange is sound. */
  lemma {:induction false} PassesExactlyWhenSound(lib: Library, f: Fetcher, x: Exchange, generation: Option<string>)
    ensures Passes(lib, f, x, generation) <==> IsSound(lib, f, x, generation)
  {
    if generation.Some? {
      match f.pointerUrl
      case None => DirectAcceptance(lib, f, x, generation);
      case Some(pointerUrl) => PointerAcceptance(lib, f, pointerUrl, x, generation);
    }
  }

  // ---------- what an exchange selects ----------

  /** The server says that nothing changed since the revision that was asked about. */
  ghost predicate NotModified(lib: Library, f: Fetcher, x: Exchange) {
    f.etag.Some? &&
    match f.pointerUrl
    case None => x.response.Some? && x.response.value.status == 304
    case Some(pointerUrl) =>
      && x.ViaPointer? && x.pointer.Some?
      && (x.pointer.value.status == 304 ||
          (&& 200 <= x.pointer.value.status < 300 && SelectedUrl(lib, f, x).Some?
           && x.response.Some? && x.response.value.status == 304))
  }

  /** Where the catalog is downloaded from: at the fixed URL, or where the pointer's release has it. */
  function SelectedUrl(lib: Library, f: Fetcher, x: Exchange): Option<string> {
    match f.pointerUrl
    case None => Some(f.url)
    case Some(pointerUrl) =>
      if x.ViaPointer? && x.pointer.Some? && lib.parsePointer(x.pointer.value.content).Some?
      then lib.locate(pointerUrl, lib.parsePointer(x.pointer.value.content).value)
      else None
  }

  /** What names the revision that an exchange gives. */
  function Revision(lib: Library, f: Fetcher, x: Exchange): Option<string> {
    if f.pointerUrl.None? then (if x.response.Some? then x.response.value.etag else None)
    else if x.ViaPointer? && x.pointer.Some? && lib.parsePointer(x.pointer.value.content).Some?
    then Some(PointerRevision(x.pointer.value, lib.parsePointer(x.pointer.value.content).value))
    else None
  }

  lemma {:induction false} UnchangedExactlyWhen(lib: Library, f: Fetcher, x: Exchange)
    ensures Judge(lib, f, x).Unchanged? <==> NotModified(lib, f, x)
  {
  }

  lemma {:induction false} AcceptedAsSelected(lib: Library, f: Fetcher, x: Exchange)
    requires Judge(lib, f, x).Accepted?
    ensures SelectedUrl(lib, f, x) == Some(Judge(lib, f, x).url)
    ensures Revision(lib, f, x) == Some(Judge(lib, f, x).etag)
  {
    if x.ViaPointer? && x.pointer.Some? && lib.parsePointer(x.pointer.value.content).Some? {
      var pointer := lib.parsePointer(x.pointer.value.content).value;
      assert Either(x.pointer.value.etag, Some(pointer.generation)) == Some(PointerRevision(x.pointer.value, pointer));
    }
  }

  // ---------- the invariant of the fetcher ----------

  /** During a refresh the fetcher is as before it, but for the URL already set for a candidate being activated. */
  ghost predicate RefreshUndoable(s: Server) {
    match s.phase
    case Idle => true
    case Candidate(_, _, _) => s.fetcher == s.before
    case Activating(_, _, etag, generation, previousUrl) =>
      && previousUrl == s.before.catalogUrl && s.fetcher == s.before.(catalogUrl := s.fetcher.catalogUrl)
      && (s.fetcher.generation == Some(generation) ==> s.fetcher.etag == Some(etag))
    case Recording(_, _) => s.fetcher == s.before.(catalogUrl := s.fetcher.catalogUrl)
  }

  ghost predicate AllPassed(lib: Library, activations: seq<Activation>) {
    forall a :: a in activations ==>
      Passes(lib, a.before, a.exchange, Some(a.generation)) && Judge(lib, a.before, a.exchange).etag == a.etag
  }

  /** The URL that a refresh falls back to when it fails. */
  function SettledUrl(s: Server): string {
    if s.phase.Activating? then s.phase.previousUrl else s.fetcher.catalogUrl
  }

  /** The URL in use is the one that the last activation came from, or the fixed one before any. */
  ghost predicate UrlFollows(lib: Library, f: Fetcher, url: string, activations: seq<Activation>) {
    if activations == [] then url == f.url
    else
      var last := activations[|activations| - 1];
      Judge(lib, last.before, last.exchange).Accepted? && url == Judge(lib, last.before, last.exchange).url
  }

  /** Every candidate under way, and everything ever activated, passed the checks of the fetcher of its time. */
  ghost predicate ChecksPassed(lib: Library, s: Server) {
    && (s.phase.Candidate? ==> s.phase.verdict == Judge(lib, s.before, s.phase.exchange))
    && (s.phase.Activating? ==>
          && Passes(lib, s.before, s.phase.exchange, Some(s.phase.generation))
          && Judge(lib, s.before, s.phase.exchange).etag == s.phase.etag
          && Judge(lib, s.before, s.phase.exchange).url == s.fetcher.catalogUrl)
    && AllPassed(lib, s.activations) && UrlFollows(lib, s.fetcher, SettledUrl(s), s.activations)
  }

  /** The fetcher remembers this activation, or none before the first one. */
  ghost predicate Remembers(f: Fetcher, activations: seq<Activation>) {
    if activations == [] then f.etag.None? && f.generation.None?
    else
      var last := activations[|activations| - 1];
      f.etag == Some(last.etag) && f.generation == Some(last.generation)
  }

  /** The registry serves the last activation. */
  ghost predicate ServesLast(s: Server) {
    if s.closed || s.activations == [] then s.current.None?
    else
      var last := s.activations[|s.activations| - 1];
      && s.current.Some? && s.current.value in s.snapshots
      && s.snapshots[s.current.value].generation == last.generation && s.snapshots[s.current.value].path == last.path
  }

  /**
   The fetcher remembers what is served, but for the stretch between the replacement of the snapshot
   and the recording of it: there it still remembers the activation before.
   */
  ghost predicate RemembersLast(s: Server) {
    if s.phase.Recording? then
      && s.activations != [] && Remembers(s.fetcher, s.activations[..|s.activations| - 1])
      && s.phase.etag == s.activations[|s.activations| - 1].etag
      && s.phase.generation == s.activations[|s.activations| - 1].generation
    else Remembers(s.fetcher, s.activations)
  }

  /** Consecutive activations with different revisions have different generations. */
  ghost predicate RevisionsDiffer(activations: seq<Activation>) {
    forall i :: 0 < i < |activations| && activations[i].etag != activations[i - 1].etag ==>
      activations[i].generation != activations[i - 1].generation
  }

  ghost predicate FetchInv(s: Server) {
    && RefreshUndoable(s) && RemembersLast(s) && ServesLast(s) && RevisionsDiffer(s.activations)
    && (s.closed ==> s.phase.Idle?)
  }

  ghost predicate Inv(lib: Library, s: Server) {
    DiskInv(s) && FetchInv(s) && ChecksPassed(lib, s)
  }

  lemma {:induction false} StepKeepsUndo(lib: Library, s: Server, e: Event)
    requires FetchInv(s) && Enabled(s, e)
    ensures RefreshUndoable(Step(lib, s, e))
  {
  }

  lemma {:induction false} ActivationPassed(lib: Library, s: Server, e: Event)
    requires ChecksPassed(lib, s) && Enabled(s, e) && Activates(e)
    ensures ChecksPassed(lib, Step(lib, s, e))
  {
    var t := Step(lib, s, e);
    forall a | a in t.activations
      ensures Passes(lib, a.before, a.exchange, Some(a.generation)) && Judge(lib, a.before, a.exchange).etag == a.etag
    {
      assert a in s.activations || a == t.activations[|s.activations|];
    }
  }

  lemma {:induction false} StepKeepsChecks(lib: Library, s: Server, e: Event)
    requires FetchInv(s) && ChecksPassed(lib, s) && Enabled(s, e)
    ensures ChecksPassed(lib, Step(lib, s, e))
  {
    if Activates(e) {
      ActivationPassed(lib, s, e);
    } else {
      assert Step(lib, s, e).activations == s.activations;
    }
  }

  lemma {:induction false} StepKeepsMemory(lib: Library, s: Server, e: Event)
    requires FetchInv(s) && RetiredUnlessCurrent(s) && Enabled(s, e)
    ensures RemembersLast(Step(lib, s, e))
  {
    if e.Activate? && e.built {
      assert Step(lib, s, e).activations[..|s.activations|] == s.activations;
    }
  }

  lemma {:induction false} StepKeepsServing(lib: Library, s: Server, e: Event)
    requires FetchInv(s) && RetiredUnlessCurrent(s) && Enabled(s, e)
    ensures ServesLast(Step(lib, s, e))
  {
  }

  /** A revision that reuses the active generation is refused before it can be activated. */
  lemma {:induction false} StepKeepsRevisions(lib: Library, s: Server, e: Event)
    requires FetchInv(s) && Enabled(s, e)
    ensures RevisionsDiffer(Step(lib, s, e).activations) && (Step(lib, s, e).closed ==> Step(lib, s, e).phase.Idle?)
  {
    if e.Activate? && e.built {
      assert Step(lib, s, e).activations[..|s.activations|] == s.activations;
    } else {
      assert Step(lib, s, e).activations == s.activations;
    }
  }

  lemma {:induction false} StepKeepsInv(lib: Library, s: Server, e: Event)
    requires Inv(lib, s) && Enabled(s, e)
    ensures Inv(lib, Step(lib, s, e))
  {
    StepKeepsReferences(lib, s, e);
    StepKeepsRetired(lib, s, e);
    StepKeepsFiles(lib, s, e);
    StepKeepsUndo(lib, s, e);
    StepKeepsChecks(lib, s, e);
    StepKeepsMemory(lib, s, e);
    StepKeepsServing(lib, s, e);
    StepKeepsRevisions(lib, s, e);
  }

  lemma {:induction false} RunKeepsInv(lib: Library, s: Server, events: seq<Event>)
    requires Inv(lib, s) && CanRun(lib, s, events)
    ensures Inv(lib, Run(lib, s, events))
    decreases |events|
  {
    if events != [] {
      StepKeepsInv(lib, s, events[0]);
      RunKeepsInv(lib, Step(lib, s, events[0]), events[1..]);
    }
  }

  // ---------- the promises ----------

  /** A fetcher as it is constructed. */
  predicate New(f: Fetcher) {
    f.etag.None? && f.generation.None? && f.lastError.None? && f.catalogUrl == f.url
  }

  /** A request under way on this snapshot. */
  ghost predicate Held(s: Server, h: nat, i: nat) {
    h in s.holders && s.holders[h].active && s.holders[h].snapshot == i
  }

  /**
   Over every run: between refreshes the files on disk are exactly those of the current snapshot and of
   retired snapshots some request still holds. In particular a file in use is never deleted.
   */
  lemma {:induction false} FilesAreConserved(lib: Library, f: Fetcher, events: seq<Event>)
    requires New(f) && CanRun(lib, Init(f), events)
    ensures var s := Run(lib, Init(f), events);
            s.phase.Idle? ==>
              forall p :: p in s.files <==>
                exists i :: i in s.snapshots && s.snapshots[i].path == p
                    && (s.current == Some(i) || exists h :: Held(s, h, i))
    ensures var s := Run(lib, Init(f), events);
            forall h :: h in s.holders && s.holders[h].active ==>
              s.holders[h].snapshot in s.snapshots && s.snapshots[s.holders[h].snapshot].path in s.files
  {
    RunKeepsInv(lib, Init(f), events);
    var s := Run(lib, Init(f), events);
    forall i | i in s.snapshots ensures Live(s, i) <==> s.current == Some(i) || exists h :: Held(s, h, i) {
      LiveIsHeld(s, i);
    }
    forall h | h in s.holders && s.holders[h].active ensures s.snapshots[s.holders[h].snapshot].path in s.files {
      assert Held(s, h, s.holders[h].snapshot);
      assert Live(s, s.holders[h].snapshot);
    }
  }

  lemma {:induction false} LiveIsHeld(s: Server, i: nat)
    requires ReferencesCounted(s) && i in s.snapshots
    ensures Live(s, i) <==> s.current == Some(i) || exists h :: Held(s, h, i)
  {
    CountPositive(s.holders, HoldingOf(i));
    if h :| Held(s, h, i) {
      assert HoldingOf(i)(s.holders[h]);
    }
    if s.snapshots[i].references != 0 {
      var h :| h in s.holders && HoldingOf(i)(s.holders[h]);
      assert Held(s, h, i);
    }
  }

  /** After shutdown, when the last request has ended, no file is left. */
  lemma {:induction false} NothingIsLeftBehind(lib: Library, f: Fetcher, events: seq<Event>)
    requires New(f) && CanRun(lib, Init(f), events)
    ensures var s := Run(lib, Init(f), events);
            s.closed && (forall h :: h in s.holders ==> !s.holders[h].active) ==> s.files == {}
  {
    RunKeepsInv(lib, Init(f), events);
    var s := Run(lib, Init(f), events);
    if s.closed && (forall h :: h in s.holders ==> !s.holders[h].active) {
      forall i | i in s.snapshots ensures !Live(s, i) {
        LiveIsHeld(s, i);
      }
      assert forall p :: p in s.files <==> HasLivePath(s, p);
    }
  }

  lemma {:induction false} StepLeavesServed(lib: Library, s: Server, e: Event)
    requires RefreshUndoable(s) && Enabled(s, e) && !Activates(e) && !e.Close? && !s.phase.Recording?
    ensures var t := Step(lib, s, e);
            && !t.phase.Recording?
            && t.fetcher.etag == s.fetcher.etag && t.fetcher.generation == s.fetcher.generation
            && SettledUrl(t) == SettledUrl(s) && t.current == s.current && t.activations == s.activations
  {
  }

  /** However often refreshes fail or find nothing new, what is served and what is remembered of it stay. */
  lemma {:induction false} OnlyActivationsChange(lib: Library, s: Server, events: seq<Event>)
    requires Inv(lib, s) && CanRun(lib, s, events) && !s.phase.Recording?
    requires forall e :: e in events ==> !Activates(e) && !e.Close?
    ensures var t := Run(lib, s, events);
            && t.fetcher.etag == s.fetcher.etag && t.fetcher.generation == s.fetcher.generation
            && SettledUrl(t) == SettledUrl(s) && t.current == s.current && t.activations == s.activations
    decreases |events|
  {
    if events != [] {
      assert events[0] in events;
      assert forall e :: e in events[1..] ==> e in events;
      StepLeavesServed(lib, s, events[0]);
      StepKeepsInv(lib, s, events[0]);
      OnlyActivationsChange(lib, Step(lib, s, events[0]), events[1..]);
    }
  }

  /** This event ends a refresh that activates nothing. */
  predicate EndsUnactivated(lib: Library, s: Server, e: Event) {
    Enabled(s, e) && (e.Answer? || e.Open? || e.Activate?) && !Activates(e) && Step(lib, s, e).phase.Idle?
  }

  lemma {:induction false} FailureRestores(lib: Library, s: Server, e: Event)
    requires RefreshUndoable(s) && EndsUnactivated(lib, s, e)
    ensures var t := Step(lib, s, e);
            && t.before == (if e.Answer? then s.fetcher else s.before)
            && t.fetcher == t.before.(lastError := t.fetcher.lastError)
            && t.current == s.current && t.snapshots == s.snapshots && t.activations == s.activations
  {
  }

  /** A refresh that ends without activating leaves the fetcher as it found it, its error aside, and no candidate. */
  lemma {:induction false} FailedRefreshIsUndone(lib: Library, s: Server, e: Event)
    requires Inv(lib, s) && EndsUnactivated(lib, s, e)
    ensures var t := Step(lib, s, e);
            && t.before == (if e.Answer? then s.fetcher else s.before)
            && t.fetcher == t.before.(lastError := t.fetcher.lastError)
            && t.current == s.current && t.snapshots == s.snapshots && t.activations == s.activations
            && (t.fetcher.lastError.None? <==> e.Answer? && NotModified(lib, s.fetcher, e.exchange))
            && forall p :: p in t.files <==> HasLivePath(s, p)
  {
    FailureRestores(lib, s, e);
    if e.Answer? {
      UnchangedExactlyWhen(lib, s.fetcher, e.exchange);
    }
    StepKeepsFiles(lib, s, e);
    SameLivePaths(s, Step(lib, s, e));
  }

  lemma {:induction false} SameLivePaths(s: Server, t: Server)
    requires t.current == s.current && t.snapshots == s.snapshots && t.phase.Idle? && FilesExact(t)
    ensures forall p :: p in t.files <==> HasLivePath(s, p)
  {
    assert forall i :: Live(t, i) <==> Live(s, i);
    forall p ensures p in t.files <==> HasLivePath(s, p) {
      if HasLivePath(s, p) {
        var i :| Live(s, i) && s.snapshots[i].path == p;
        assert Live(t, i);
      }
      if HasLivePath(t, p) {
        var i :| Live(t, i) && t.snapshots[i].path == p;
        assert Live(s, i);
      }
    }
  }

  /**
   Over every run, activations of different revisions in a row carry different generations. The fetcher
   remembers the revision and generation being served, except between replacing and recording, when it
   remembers the ones before.
   */
  lemma {:induction false} GenerationsAdvance(lib: Library, f: Fetcher, events: seq<Event>)
    requires New(f) && CanRun(lib, Init(f), events)
    ensures var s := Run(lib, Init(f), events);
            && RevisionsDiffer(s.activations) && ServesLast(s)
            && (if s.phase.Recording? then
                  s.activations != [] && Remembers(s.fetcher, s.activations[..|s.activations| - 1])
                else Remembers(s.fetcher, s.activations))
            && (!s.closed && !s.phase.Recording? && s.current.Some? ==>
                  s.current.value in s.snapshots
                      && s.fetcher.generation == Some(s.snapshots[s.current.value].generation))
  {
    RunKeepsInv(lib, Init(f), events);
  }

  /** Every activation rests on an exchange that was sound for the fetcher of its time, and has its revision. */
  ghost predicate AllSound(lib: Library, activations: seq<Activation>) {
    forall a :: a in activations ==>
      IsSound(lib, a.before, a.exchange, Some(a.generation)) && Revision(lib, a.before, a.exchange) == Some(a.etag)
  }

  lemma {:induction false} PassedAreSound(lib: Library, s: Server)
    requires ChecksPassed(lib, s)
    ensures AllSound(lib, s.activations)
  {
    forall a | a in s.activations
      ensures IsSound(lib, a.before, a.exchange, Some(a.generation))
      ensures Revision(lib, a.before, a.exchange) == Some(a.etag)
    {
      PassesExactlyWhenSound(lib, a.before, a.exchange, Some(a.generation));
      AcceptedAsSelected(lib, a.before, a.exchange);
    }
  }

  /** The URL in use is the one that the exchange of the last activation selected. */
  ghost predicate AddressFollows(lib: Library, s: Server) {
    s.activations != [] ==>
      var last := s.activations[|s.activations| - 1];
      SelectedUrl(lib, last.before, last.exchange) == Some(SettledUrl(s))
  }

  lemma {:induction false} UrlIsSelected(lib: Library, s: Server)
    requires UrlFollows(lib, s.fetcher, SettledUrl(s), s.activations)
    ensures AddressFollows(lib, s)
  {
    if s.activations != [] {
      var last := s.activations[|s.activations| - 1];
      AcceptedAsSelected(lib, last.before, last.exchange);
    }
  }

  /** The current snapshot is this activation's. */
  predicate Serves(s: Server, a: Activation) {
    && s.current.Some? && s.current.value in s.snapshots
    && s.snapshots[s.current.value].generation == a.generation && s.snapshots[s.current.value].path == a.path
  }

  lemma {:induction false} ServedIsActivated(s: Server)
    requires ServesLast(s)
    ensures s.current.Some? ==> exists a :: a in s.activations && Serves(s, a)
  {
    if s.current.Some? {
      assert Serves(s, s.activations[|s.activations| - 1]);
    }
  }

  /**
   Over every run, whatever is served came from a sound exchange: intact bytes, of the release the
   pointer selects, opened with the generation that is served.
   */
  lemma {:induction false} OnlySoundExchangesAreServed(lib: Library, f: Fetcher, events: seq<Event>)
    requires New(f) && CanRun(lib, Init(f), events)
    ensures var s := Run(lib, Init(f), events);
            && AllSound(lib, s.activations)
            && (s.current.Some? ==> exists a :: a in s.activations && Serves(s, a))
            && AddressFollows(lib, s)
  {
    RunKeepsInv(lib, Init(f), events);
    var s := Run(lib, Init(f), events);
    PassedAreSound(lib, s);
    UrlIsSelected(lib, s);
    ServedIsActivated(s);
  }
}
