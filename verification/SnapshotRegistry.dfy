/**
 The snapshot registry and the catalog fetcher as the source writes them: objects whose fields change
 under the registry's lock and in the stages of a refresh. Their contracts tie the fields to the
 functions of SnapshotProtocol.
 */
module SnapshotRegistry {
  import opened Wrappers
  import opened SnapshotProtocol

  /** The candidate files, as the file system holds them. */
  class Disk {
    var files: set<string>

    constructor ()
      ensures files == {}
    {
      files := {};
    }
  }

  class ApiSnapshot {
    const generation: string
    const path: string
    const ownedPath: bool
    var references: int
    var retired: bool

    ghost function Value(): Snapshot
      reads this
    {
      Snapshot(generation, path, references, retired, ownedPath)
    }

    constructor (generation: string, path: string, ownedPath: bool)
      ensures Value() == Snapshot(generation, path, 0, false, ownedPath)
    {
      this.generation, this.path, this.ownedPath := generation, path, ownedPath;
      references, retired := 0, false;
    }
  }

  class SnapshotRegistry {
    const disk: Disk
    var current: Option<ApiSnapshot>

    constructor (disk: Disk)
      ensures this.disk == disk && current == None
    {
      this.disk := disk;
      current := None;
    }

    method Cleanup(snapshot: ApiSnapshot)
      modifies disk
      ensures disk.files == Cleaned(old(disk.files), snapshot.Value())
    {
      if snapshot.retired && snapshot.references == 0 && snapshot.ownedPath {
        disk.files := disk.files - {snapshot.path};
      }
    }

    /** Installs a snapshot, or none at shutdown; the previous one is retired, and its file goes if nobody holds it. */
    method Replace(snapshot: Option<ApiSnapshot>)
      requires snapshot.Some? ==> snapshot != current
      modifies this`current, disk, if current.Some? then {current.value} else {}
      ensures current == snapshot
      ensures old(current).None? ==> disk.files == old(disk.files)
      ensures old(current).Some? ==>
                && old(current).value.Value() == old(current.value.Value()).(retired := true)
                && disk.files == Cleaned(old(disk.files), old(current).value.Value())
    {
      var previous := current;
      current := snapshot;
      if previous.Some? {
        previous.value.retired := true;
        Cleanup(previous.value);
      }
    }

    /** A request takes the current snapshot; there may be none yet. */
    method Acquire() returns (held: Option<ApiSnapshot>)
      modifies if current.Some? then {current.value} else {}
      ensures held == current
      ensures held.Some? ==>
                held.value.Value() == old(current.value.Value()).(references := old(current.value.references) + 1)
    {
      if current.Some? {
        current.value.references := current.value.references + 1;
      }
      held := current;
    }

    /** A request ends, on whichever snapshot it took. */
    method Release(held: ApiSnapshot)
      modifies held, disk
      ensures held.Value() == old(held.Value()).(references := old(held.references) - 1)
      ensures disk.files == Cleaned(old(disk.files), held.Value())
    {
      held.references := held.references - 1;
      Cleanup(held);
    }
  }

  datatype RefreshResult = CatalogActivated | CatalogUnchanged | RefreshFailed

  /** What the environment answers to one refresh. */
  datatype Attempt = Attempt(exchange: Exchange, path: string, writable: bool, generation: Option<string>, built: bool)

  /** The fetcher after a refresh that is not interrupted, and whether it activated its candidate. */
  function Refreshed(lib: Library, f: Fetcher, a: Attempt): (Fetcher, RefreshResult) {
    match Judge(lib, f, a.exchange)
    case Unchanged => (f.(lastError := None), CatalogUnchanged)
    case Rejected(error) => (Failing(f, error), RefreshFailed)
    case Accepted(etag, url, expected) =>
      if !a.writable then (Failing(f, Unwritable), RefreshFailed)
      else
        match Objection(f, Accepted(etag, url, expected), a.generation)
        case Some(error) => (Failing(f, error), RefreshFailed)
        case None =>
          if !a.built then (Failing(f, ActivationFailed), RefreshFailed)
          else (Activated(f.(catalogUrl := url), etag, a.generation.value), CatalogActivated)
  }

  /**
   An uninterrupted refresh activates its candidate if and only if its exchange is sound and the
   candidate can be stored, opened and built.
   */
  lemma {:induction false} ActivatedExactlyWhenSound(lib: Library, f: Fetcher, a: Attempt)
    ensures Refreshed(lib, f, a).1 == CatalogActivated <==>
            IsSound(lib, f, a.exchange, a.generation) && a.writable && a.built
  {
    PassesExactlyWhenSound(lib, f, a.exchange, a.generation);
  }

  /**
   What an uninterrupted refresh comes to: nothing new exactly when a server says so about the known
   revision; an error exactly when it fails, and then nothing else changes; and after an activation the
   fetcher remembers the exchange's own revision, generation and address.
   */
  lemma {:induction false} RefreshMeans(lib: Library, f: Fetcher, a: Attempt)
    ensures var (g, result) := Refreshed(lib, f, a);
            && (result == CatalogUnchanged <==> NotModified(lib, f, a.exchange))
            && (result == CatalogActivated <==>
                  IsSound(lib, f, a.exchange, a.generation) && a.writable && a.built)
            && (result == RefreshFailed <==> g.lastError.Some?)
            && (result != CatalogActivated ==> g == f.(lastError := g.lastError))
            && (result == CatalogActivated ==>
                  && g.generation == a.generation && g.etag == Revision(lib, f, a.exchange)
                  && Some(g.catalogUrl) == SelectedUrl(lib, f, a.exchange)
                  && g.url == f.url && g.pointerUrl == f.pointerUrl)
  {
    ActivatedExactlyWhenSound(lib, f, a);
    UnchangedExactlyWhen(lib, f, a.exchange);
    if Judge(lib, f, a.exchange).Accepted? {
      AcceptedAsSelected(lib, f, a.exchange);
    }
  }

  /** What a refresh that failed with this error met. */
  ghost predicate HasCause(lib: Library, f: Fetcher, a: Attempt, e: FetchError) {
    var x, r := a.exchange, a.exchange.response;
    match e
    case Transport => r.None? || (f.pointerUrl.Some? && (x.Direct? || x.pointer.None?))
    case BadStatus =>
      || (r.Some? && !(200 <= r.value.status < 300))
      || (x.ViaPointer? && x.pointer.Some? && !(200 <= x.pointer.value.status < 300))
    case BadPointer => f.pointerUrl.Some? && x.ViaPointer? && x.pointer.Some? && SelectedUrl(lib, f, x).None?
    case MissingMetadata =>
      && f.pointerUrl.None? && r.Some?
      && (r.value.etag.None? || r.value.contentLength.None? || forall c :: !Announces(r.value, c))
    case BadLength => exists length :: AnnouncesLength(lib, f, x, length) && lib.parseInt(length).None?
    case LengthMismatch =>
      r.Some? && exists length :: AnnouncesLength(lib, f, x, length) && lib.parseInt(length) != Some(|r.value.content|)
    case ChecksumMismatch =>
      r.Some? && exists c :: AnnouncesDigest(lib, f, x, c) && lib.sha256(r.value.content) != lib.lower(c)
    case Unwritable => !a.writable
    case Unreadable => a.generation.None?
    case WrongGeneration => f.pointerUrl.Some? && a.generation != Some(SelectedGeneration(lib, x))
    case ReusedGeneration => f.generation.Some? && a.generation == f.generation && Revision(lib, f, x) != f.etag
    case ActivationFailed => !a.built
  }

  /** The length announced for the catalog: by the response itself, or by the pointer to it. */
  ghost predicate AnnouncesLength(lib: Library, f: Fetcher, x: Exchange, length: string) {
    if f.pointerUrl.None? then x.response.Some? && x.response.value.contentLength == Some(length)
    else PointerTo(lib, x).Some? && length == lib.decimal(PointerTo(lib, x).value.sizeBytes)
  }

  ghost predicate AnnouncesDigest(lib: Library, f: Fetcher, x: Exchange, checksum: string) {
    if f.pointerUrl.None? then x.response.Some? && Announces(x.response.value, checksum)
    else PointerTo(lib, x).Some? && checksum == PointerTo(lib, x).value.sha256
  }

  function PointerTo(lib: Library, x: Exchange): Option<Pointer> {
    if x.ViaPointer? && x.pointer.Some? then lib.parsePointer(x.pointer.value.content) else None
  }

  function SelectedGeneration(lib: Library, x: Exchange): string {
    if PointerTo(lib, x).Some? then PointerTo(lib, x).value.generation else ""
  }

  lemma {:induction false} RejectionHasCause(lib: Library, f: Fetcher, a: Attempt)
    requires Judge(lib, f, a.exchange).Rejected?
    ensures HasCause(lib, f, a, Judge(lib, f, a.exchange).error)
  {
    var x := a.exchange;
    if f.pointerUrl.None? && x.response.Some? {
      var r := x.response.value;
      var checksum := Either(r.amzChecksum, r.googChecksum);
      assert forall c :: Announces(r, c) <==> checksum == Some(c);
      assert r.contentLength.Some? ==> AnnouncesLength(lib, f, x, r.contentLength.value);
      assert checksum.Some? ==> AnnouncesDigest(lib, f, x, checksum.value);
    }
    if PointerTo(lib, x).Some? && f.pointerUrl.Some? {
      assert AnnouncesLength(lib, f, x, lib.decimal(PointerTo(lib, x).value.sizeBytes));
      assert AnnouncesDigest(lib, f, x, PointerTo(lib, x).value.sha256);
    }
  }

  /** A refresh that fails records an error whose cause it met. */
  lemma {:induction false} FailureHasCause(lib: Library, f: Fetcher, a: Attempt)
    requires Refreshed(lib, f, a).1 == RefreshFailed
    ensures Refreshed(lib, f, a).0.lastError.Some?
    ensures HasCause(lib, f, a, Refreshed(lib, f, a).0.lastError.value)
  {
    if Judge(lib, f, a.exchange).Rejected? {
      RejectionHasCause(lib, f, a);
    } else {
      AcceptedAsSelected(lib, f, a.exchange);
    }
  }

  class CatalogFetcher {
    const url: string
    const pointerUrl: Option<string>
    const lib: Library
    const registry: SnapshotRegistry
    var catalogUrl: string
    var activeEtag: Option<string>
    var activeGeneration: Option<string>
    var lastError: Option<FetchError>

    ghost function Fields(): Fetcher
      reads this
    {
      Fetcher(url, pointerUrl, catalogUrl, activeEtag, activeGeneration, lastError)
    }

    constructor (lib: Library, url: string, pointerUrl: Option<string>, registry: SnapshotRegistry)
      ensures this.lib == lib && this.registry == registry && this.url == url && this.pointerUrl == pointerUrl
                && New(Fields())
    {
      this.lib, this.url, this.pointerUrl, this.registry, catalogUrl := lib, url, pointerUrl, registry, url;
      activeEtag, activeGeneration, lastError := None, None, None;
    }

    /**
     One refresh, with its candidate deleted on every way out but activation. The new snapshot is
     current exactly when the refresh activated it; otherwise the registry and the disk are untouched.
     */
    method Refresh(a: Attempt) returns (result: RefreshResult)
      requires a.path !in registry.disk.files
      modifies this, registry`current, registry.disk, if registry.current.Some? then {registry.current.value} else {}
      ensures Fields() == Refreshed(lib, old(Fields()), a).0
      ensures result == Refreshed(lib, old(Fields()), a).1
      ensures result != CatalogActivated ==>
                && registry.current == old(registry.current) && registry.disk.files == old(registry.disk.files)
                && (registry.current.Some? ==> registry.current.value.Value() == old(registry.current.value.Value()))
      ensures result == CatalogActivated ==>
                && registry.current.Some? && fresh(registry.current.value)
                && registry.current.value.Value() == Snapshot(a.generation.value, a.path, 0, false, true)
                && (old(registry.current).None? ==> registry.disk.files == old(registry.disk.files) + {a.path})
                && (old(registry.current).Some? ==>
                      && old(registry.current).value.Value() == old(registry.current.value.Value()).(retired := true)
                      && registry.disk.files ==
                           Cleaned(old(registry.disk.files) + {a.path}, old(registry.current).value.Value()))
    {
      var disk := registry.disk;
      var fetcher := Fetcher(url, pointerUrl, catalogUrl, activeEtag, activeGeneration, lastError);
      var verdict := Judge(lib, fetcher, a.exchange);
      if verdict.Unchanged? {
        lastError := None;
        return CatalogUnchanged;
      }
      if verdict.Rejected? {
        lastError := Some(verdict.error);
        return RefreshFailed;
      }
      if !a.writable {
        lastError := Some(Unwritable);
        return RefreshFailed;
      }
      disk.files := disk.files + {a.path};
      var objection := Objection(fetcher, verdict, a.generation);
      if objection.Some? {
        lastError := objection;
        disk.files := disk.files - {a.path};
        return RefreshFailed;
      }
      var previousUrl := catalogUrl;
      catalogUrl := verdict.url;
      if !a.built {
        catalogUrl := previousUrl;
        lastError := Some(ActivationFailed);
        disk.files := disk.files - {a.path};
        return RefreshFailed;
      }
      var snapshot := new ApiSnapshot(a.generation.value, a.path, true);
      registry.Replace(Some(snapshot));
      activeEtag := Some(verdict.etag);
      activeGeneration := a.generation;
      lastError := None;
      result := CatalogActivated;
    }
  }

  lemma {:induction false} RunFirst(lib: Library, s: Server, e: Event, rest: seq<Event>)
    requires Enabled(s, e) && CanRun(lib, Step(lib, s, e), rest)
    ensures CanRun(lib, s, [e] + rest) && Run(lib, s, [e] + rest) == Run(lib, Step(lib, s, e), rest)
  {
    assert ([e] + rest)[1..] == rest;
  }

  /** The server after a refresh that is not interrupted, by the functions of the registry. */
  function Refreshing(lib: Library, s: Server, a: Attempt, id: nat): Server {
    var (fetcher, result) := Refreshed(lib, s.fetcher, a);
    if result != CatalogActivated then s.(before := s.fetcher, fetcher := fetcher)
    else
      var t := Replaced(s.(files := s.files + {a.path}), Some(id));
      t.(snapshots := t.snapshots[id := Snapshot(a.generation.value, a.path, 0, false, true)],
      before := s.fetcher, fetcher := fetcher,
      activations := s.activations
                     + [Activation(fetcher.etag.value, a.generation.value, a.path, a.exchange, s.fetcher)])
  }

  /**
   The stages of the protocol, run without a request in between, make exactly that server: the previous
   snapshot retired, its file deleted unless a request holds it, and no candidate left behind.
   */
  lemma {:induction false} StagesMakeARefresh(lib: Library, s: Server, a: Attempt, id: nat) returns (events: seq<Event>)
    requires s.phase.Idle? && !s.closed && a.path !in s.files && id !in s.snapshots
    requires s.current.Some? ==> s.current.value in s.snapshots
    ensures CanRun(lib, s, events) && Run(lib, s, events) == Refreshing(lib, s, a, id)
  {
    var answer := Answer(a.exchange, a.path, a.writable);
    var s1 := Step(lib, s, answer);
    events := [];
    if !s1.phase.Idle? {
      events := OpenedStages(lib, s, s1, a, id);
    }
    RunFirst(lib, s, answer, events);
    events := [answer] + events;
  }

  lemma {:induction false} OpenedStages(lib: Library, s: Server, s1: Server, a: Attempt, id: nat)
      returns (events: seq<Event>)
    requires s.phase.Idle? && !s.closed && a.path !in s.files && id !in s.snapshots
    requires s.current.Some? ==> s.current.value in s.snapshots
    requires a.writable && Judge(lib, s.fetcher, a.exchange).Accepted?
    requires s1 == s.(before := s.fetcher, files := s.files + {a.path},
                      phase := Candidate(a.path, a.exchange, Judge(lib, s.fetcher, a.exchange)))
    ensures CanRun(lib, s1, events) && Run(lib, s1, events) == Refreshing(lib, s, a, id)
  {
    var open := Open(a.generation);
    var s2 := Step(lib, s1, open);
    events := [];
    if s2.phase.Idle? {
      assert s2.files == s.files;
    } else {
      var activate := Activate(a.built, id);
      var s3 := Step(lib, s2, activate);
      if a.built {
        RunFirst(lib, s3, Record, events);
        events := [Record] + events;
      } else {
        assert s3.files == s.files;
      }
      RunFirst(lib, s2, activate, events);
      events := [activate] + events;
    }
    RunFirst(lib, s1, open, events);
    events := [open] + events;
  }
}
