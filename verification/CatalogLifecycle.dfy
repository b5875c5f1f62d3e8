/**
 The catalog lifecycle as the source writes it: one object that owns repository objects and updates
 its fields between suspensions. Each method is one such section; its contract ties the new fields to
 the functions of CatalogProtocol and names the one repository it may close.
 */
module CatalogLifecycle {
  import opened Wrappers
  import opened CatalogProtocol

  /** An open database; closing it is the effect that must happen once. */
  class Repository {
    const generation: string
    var closings: nat

    constructor (generation: string)
      ensures this.generation == generation && closings == 0
    {
      this.generation := generation;
      closings := 0;
    }

    method Close()
      modifies this
      ensures closings == old(closings) + 1
    {
      closings := closings + 1;
    }
  }

  datatype Snapshot = Snapshot(repository: Repository, catalogUrl: Option<string>, generation: string)

  class CatalogLifecycle {
    var repository: Option<Repository>
    var activeUrl: Option<string>
    var fingerprint: Option<string>
    var lastSuccess: Option<nat>
    var lastError: Option<string>
    var refreshing: Refresh
    var leases: map<Repository, int>
    var retired: set<Repository>

    ghost function Fields(): Lifecycle<Repository>
      reads this
    {
      Lifecycle(repository, activeUrl, fingerprint, lastSuccess, lastError, refreshing, leases, retired)
    }

    /** What a read that starts now is given. */
    ghost function Served(): Option<Snapshot>
      reads this
    {
      if repository.None? then None
      else Some(Snapshot(repository.value, activeUrl, repository.value.generation))
    }

    /** The repositories that are neither closed nor forgotten: the current one, and those retired but read. */
    ghost function OpenOnes(): set<Repository>
      reads this
    {
      retired + if repository.Some? then {repository.value} else {}
    }

    constructor ()
      ensures Fields() == Empty() && Served().None? && OpenOnes() == {}
    {
      repository, activeUrl, fingerprint, lastSuccess, lastError := None, None, None, None, None;
      refreshing, leases, retired := Absent, map[], {};
    }

    /** A read begins on the current repository, or finds none. */
    method StartRead() returns (snapshot: Option<Snapshot>)
      modifies this`leases
      ensures snapshot == old(Served()) == Served() && OpenOnes() == old(OpenOnes())
      ensures snapshot.None? ==> Fields() == old(Fields())
      ensures snapshot.Some? ==> Fields() == Lease(old(Fields()), snapshot.value.repository)
    {
      if repository.None? {
        return None;
      }
      var current := repository.value;
      leases := leases[current := (if current in leases then leases[current] else 0) + 1];
      snapshot := Some(Snapshot(current, activeUrl, current.generation));
    }

    /** A read ends, and closes its repository if it was retired and this was the last lease. */
    method EndRead(read: Repository)
      modifies this`leases, this`retired, read
      ensures Fields() == EndLease(old(Fields()), read).0
      ensures read.closings == old(read.closings) + if EndLease(old(Fields()), read).1 == Some(read) then 1 else 0
      ensures Served() == old(Served())
      ensures old(repository) != Some(read) ==>
                OpenOnes() == old(OpenOnes()) - if read.closings == old(read.closings) then {} else {read}
    {
      var remaining := (if read in leases then leases[read] else 1) - 1;
      if remaining == 0 {
        leases := leases - {read};
        if read in retired {
          retired := retired - {read};
          read.Close();
        }
      } else {
        leases := leases[read := remaining];
      }
    }

    /** Starts a refresh, or shares the one under way and leaves it as it is. Reads notice nothing. */
    method BeginRefresh() returns (shared: bool)
      modifies this`refreshing
      ensures Fields() == Begin(old(Fields()))
      ensures !refreshing.Absent? && (if shared then refreshing == old(refreshing) else old(refreshing).Absent?)
      ensures Served() == old(Served()) && OpenOnes() == old(OpenOnes())
    {
      shared := !refreshing.Absent?;
      if !shared {
        refreshing := Fetching;
      }
    }

    /**
     The source answered with a fingerprint. The refresh is over if what is served has it; otherwise a
     candidate is written, which will differ from what is served. Reads notice nothing yet.
     */
    method SourceAnswers(found: string, url: Option<string>) returns (same: bool)
      requires refreshing.Fetching?
      modifies this`refreshing
      ensures Fields() == Compare(old(Fields()), found, url) && same == refreshing.Settled?
      ensures same <==> Served().Some? && fingerprint == Some(found)
      ensures refreshing.Writing? && Served().Some? ==> fingerprint != Some(refreshing.fingerprint)
      ensures Served() == old(Served()) && OpenOnes() == old(OpenOnes())
    {
      same := fingerprint == Some(found) && repository.Some?;
      refreshing := if same then Settled(false) else Writing(found, url);
    }

    /** The validated candidate becomes current; the previous repository is closed or retired. */
    method CandidateOpens(candidate: Repository, now: nat)
      requires refreshing.Writing? && repository != Some(candidate)
      modifies this, if repository.Some? then {repository.value} else {}
      ensures Fields() == Install(old(Fields()), candidate, now).0
      ensures old(repository).Some? ==>
                old(repository).value.closings == old(repository.value.closings)
                  + if Install(old(Fields()), candidate, now).1 == old(repository) then 1 else 0
      ensures Served() == Some(Snapshot(candidate, old(refreshing).url, candidate.generation))
      ensures old(repository).Some? && old(repository).value !in old(retired) ==>
                OpenOnes() == old(OpenOnes()) + {candidate}
                              - (if old(repository).value.closings == old(repository.value.closings) then {}
                                 else {old(repository).value})
    {
      var previous := repository;
      repository := Some(candidate);
      fingerprint := Some(refreshing.fingerprint);
      activeUrl := refreshing.url;
      lastSuccess := Some(now);
      lastError := None;
      refreshing := Settled(true);
      if previous.Some? {
        if (if previous.value in leases then leases[previous.value] else 0) == 0 {
          previous.value.Close();
        } else {
          retired := retired + {previous.value};
        }
      }
    }

    method RefreshFails(error: string)
      modifies this`lastError, this`refreshing
      ensures Fields() == Fail(old(Fields()), error)
      ensures Served() == old(Served()) && OpenOnes() == old(OpenOnes())
    {
      lastError := Some(error);
      refreshing := Settled(false);
    }

    method RefreshClears()
      modifies this`refreshing
      ensures Fields() == Clear(old(Fields()))
      ensures Served() == old(Served()) && OpenOnes() == old(OpenOnes())
    {
      refreshing := Absent;
    }
  }
}
