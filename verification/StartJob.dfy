/**
 Starting a generation job: a lock, a reserved generation id, the latest entry and two local
 tables, with a rollback for every step that can fail.

 The start is taken as one atomic operation at one moment. Each Redis call may fail, either before or
 after it took effect on the server, and starting a thread may fail; the calls made to roll back are
 taken to succeed.
 */
module StartJob {
  import opened Basics
  import opened ActiveLocks

  type Generation = string

  datatype Fault = NoFault | FailsBefore | FailsAfter

  /**
   Which of the fallible calls of one start fail. A submission that fails after its effect has put
   the job into the pool and then could not start the thread that renews its lock.
   */
  datatype Faults = Faults(acquire: Fault, clearFails: bool, reserve: Fault, readLatest: bool, storeLatest: Fault, listener: bool, submit: Fault)

  datatype Refusal =
    | StoreUnavailable
    | InvalidId
    | AlreadyRunning
    | IdConflict
    | CoordinationFailed
    | ListenerFailed
    | SubmitFailed

  predicate ValidGenerationId(id: Generation) {
    |id| == 32 && forall i :: 0 <= i < |id| ==> '0' <= id[i] <= '9' || 'a' <= id[i] <= 'f'
  }

  datatype Claim = Claimed | Conflicting | Broken

  /** The shared keys of the coordinator; without a reachable Redis every operation is a no-op that allows the start. */
  class Coordinator {
    const reachable: bool
    const ttl: nat
    var clock: real
    var locks: Table
    var reservations: set<(Key, Generation)>
    var latest: map<Key, Generation>
    var cancelRequests: set<Key>

    constructor (reachable: bool, ttl: nat)
      ensures locks == map[] && reservations == {} && latest == map[] && cancelRequests == {}
      ensures this.reachable == reachable && this.ttl == ttl
    {
      this.reachable, this.ttl, clock := reachable, ttl, 0.0;
      locks, reservations, latest, cancelRequests := map[], {}, map[], {};
    }

    /** Fails closed: an error is reported as not acquired even if the server stored the token. */
    method TryAcquire(key: Key, token: Token, fault: Fault) returns (acquired: bool)
      modifies this`locks
      ensures acquired <==> !reachable || (fault.NoFault? && !Held(old(locks), clock, key))
      ensures locks == if !reachable || fault.FailsBefore? then old(locks) else Acquired(old(locks), clock, ttl, key, token)
    {
      if !reachable {
        return true;
      }
      acquired := false;
      if !fault.FailsBefore? && !Held(locks, clock, key) {
        locks := locks[key := Entry(token, clock + ttl as real)];
        acquired := fault.NoFault?;
      }
    }

    method ReleaseLock(key: Key, token: Token)
      modifies this`locks
      ensures locks == if reachable then Released(old(locks), clock, key, token) else old(locks)
    {
      if reachable && HeldBy(locks, clock, key, token) {
        locks := locks - {key};
      }
    }

    /** A failure is only logged. */
    method ClearCancelRequest(key: Key, fails: bool)
      modifies this`cancelRequests
      ensures cancelRequests == if reachable && !fails then old(cancelRequests) - {key} else old(cancelRequests)
    {
      if reachable && !fails {
        cancelRequests := cancelRequests - {key};
      }
    }

    method Reserve(key: Key, id: Generation, fault: Fault) returns (claim: Claim)
      modifies this`reservations
      ensures claim == if !reachable then Claimed else if !fault.NoFault? then Broken
                       else if (key, id) in old(reservations) then Conflicting else Claimed
      ensures reservations == if !reachable || fault.FailsBefore? then old(reservations) else old(reservations) + {(key, id)}
    {
      if !reachable {
        return Claimed;
      }
      if fault.FailsBefore? {
        return Broken;
      }
      claim := if fault.FailsAfter? then Broken else if (key, id) in reservations then Conflicting else Claimed;
      reservations := reservations + {(key, id)};
    }

    method ReleaseReservation(key: Key, id: Generation)
      modifies this`reservations
      ensures reservations == if reachable then old(reservations) - {(key, id)} else old(reservations)
    {
      if reachable {
        reservations := reservations - {(key, id)};
      }
    }

    method StoreLatest(key: Key, id: Generation, fault: Fault) returns (stored: bool)
      modifies this`latest
      ensures stored <==> !reachable || fault.NoFault?
      ensures latest == if !reachable || fault.FailsBefore? then old(latest) else old(latest)[key := id]
    {
      if !reachable {
        return true;
      }
      if !fault.FailsBefore? {
        latest := latest[key := id];
      }
      stored := fault.NoFault?;
    }

    /** Compare-and-set: an entry that no longer names the failed generation is left alone. */
    method RestoreLatest(key: Key, failed: Generation, previous: Option<Generation>)
      modifies this`latest
      ensures reachable && key in old(latest) && old(latest)[key] == failed ==>
                latest == if previous.Some? then old(latest)[key := previous.value] else old(latest) - {key}
      ensures !(reachable && key in old(latest) && old(latest)[key] == failed) ==> latest == old(latest)
    {
      if reachable && key in latest && latest[key] == failed {
        latest := if previous.Some? then latest[key := previous.value] else latest - {key};
      }
    }

    /** Undo a claim: the latest entry goes back to what it was before, the reservation is dropped. */
    method Unclaim(key: Key, id: Generation, previous: Option<Generation>, ghost before: map<Key, Generation>)
      requires reachable ==> previous == if key in before then Some(before[key]) else None
      requires latest == before || (reachable && latest == before[key := id])
      modifies this`latest, this`reservations
      ensures latest == before
      ensures reservations == if reachable then old(reservations) - {(key, id)} else old(reservations)
    {
      RestoreLatest(key, id, previous);
      assert latest == before;
      ReleaseReservation(key, id);
    }

    /**
     Reserve the id, remember the latest entry and move it. A claim that does not succeed leaves
     both as they were, except that a reservation whose call failed after taking effect stays behind.
     */
    method ClaimGeneration(key: Key, id: Generation, faults: Faults) returns (claim: Claim, previous: Option<Generation>)
      modifies this`latest, this`reservations
      ensures !reachable ==> claim.Claimed? && latest == old(latest) && reservations == old(reservations)
      ensures reachable && claim.Claimed? ==>
                && latest == old(latest)[key := id]
                && (key, id) !in old(reservations) && reservations == old(reservations) + {(key, id)}
                && previous == if key in old(latest) then Some(old(latest)[key]) else None
      ensures !claim.Claimed? ==> latest == old(latest)
      ensures !claim.Claimed? ==>
                reservations == if faults.reserve.FailsAfter? then old(reservations) + {(key, id)} else old(reservations)
      ensures reachable ==> (claim.Conflicting? <==> faults.reserve.NoFault? && (key, id) in old(reservations))
      ensures reachable ==> (claim.Claimed? <==> faults.reserve.NoFault? && (key, id) !in old(reservations)
                                                 && !faults.readLatest && faults.storeLatest.NoFault?)
    {
      previous := None;
      claim := Reserve(key, id, faults.reserve);
      if !claim.Claimed? {
        assert claim.Conflicting? ==> reservations == old(reservations);
        return;
      }
      assert reachable ==> reservations - {(key, id)} == old(reservations);
      if reachable && faults.readLatest {
        ReleaseReservation(key, id);
        return Broken, None;
      }
      previous := if reachable && key in latest then Some(latest[key]) else None;
      var stored := StoreLatest(key, id, faults.storeLatest);
      if !stored {
        Unclaim(key, id, previous, old(latest));
        return Broken, None;
      }
    }
  }

  class Job {
    const generation: Generation
    var isDone: bool
    var finishedAt: int

    constructor (generation: Generation)
      ensures this.generation == generation && !isDone
    {
      this.generation := generation;
      isDone, finishedAt := false, 0;
    }
  }

  /** What a start finds: an unfinished job of the room, the id still kept by this process, the id reserved by any. */
  datatype Situation = Situation(running: bool, idKept: bool, idReserved: bool)

  /** How a start with the room's lock ends. */
  function LockedRefusal(reachable: bool, x: Situation, faults: Faults): Option<Refusal> {
    if x.running then Some(AlreadyRunning)
    else if x.idKept then Some(IdConflict)
    else if reachable && !faults.reserve.NoFault? then Some(CoordinationFailed)
    else if reachable && x.idReserved then Some(IdConflict)
    else if reachable && (faults.readLatest || !faults.storeLatest.NoFault?) then Some(CoordinationFailed)
    else if reachable && faults.listener then Some(ListenerFailed)
    else if faults.submit.FailsBefore? || (reachable && faults.submit.FailsAfter?) then Some(SubmitFailed)
    else None
  }

  /** The shared keys can be claimed. */
  predicate ClaimSucceeds(reachable: bool, x: Situation, faults: Faults) {
    reachable ==> faults.reserve.NoFault? && !x.idReserved && !faults.readLatest && faults.storeLatest.NoFault?
  }

  /** Nothing found stands in the way, and no fault strikes that a start does not survive. */
  predicate Startable(reachable: bool, x: Situation, faults: Faults) {
    && !x.running && !x.idKept && !faults.submit.FailsBefore?
    && (reachable ==>
          && faults.reserve.NoFault? && !x.idReserved && !faults.readLatest && faults.storeLatest.NoFault?
          && !faults.listener && faults.submit.NoFault?)
  }

  lemma StartsIff(reachable: bool, x: Situation, faults: Faults)
    ensures LockedRefusal(reachable, x, faults).None? <==> Startable(reachable, x, faults)
    ensures x.running ==> LockedRefusal(reachable, x, faults) == Some(AlreadyRunning)
  {
  }

  /** Each ending of a locked start, by what was found and which call failed. */
  lemma LockedRefusalMeaning(reachable: bool, x: Situation, faults: Faults)
    ensures var r, free, claimed := LockedRefusal(reachable, x, faults), !x.running && !x.idKept, ClaimSucceeds(reachable, x, faults);
            && (r == Some(AlreadyRunning) <==> x.running)
            && (r == Some(IdConflict) <==> !x.running && (x.idKept || (reachable && faults.reserve.NoFault? && x.idReserved)))
            && (r == Some(CoordinationFailed) <==>
                free && reachable && (!faults.reserve.NoFault? || (!x.idReserved && (faults.readLatest || !faults.storeLatest.NoFault?))))
            && (r == Some(ListenerFailed) <==> free && claimed && reachable && faults.listener)
            && (r == Some(SubmitFailed) <==>
                free && claimed && !(reachable && faults.listener) && (faults.submit.FailsBefore? || (reachable && faults.submit.FailsAfter?)))
            && (r == None <==> Startable(reachable, x, faults))
  {
  }

  /** How putting a job to work ended. */
  datatype Launch = Launched | Unheard | NotSubmitted | Orphaned

  class Service {
    const shared: Coordinator
    const retention: nat
    const redisConfigured: bool
    var jobs: map<Key, Job>
    var retained: map<(Key, Generation), Job>
    /** Every job ever given to the pool. */
    var submitted: set<Job>

    constructor (shared: Coordinator, redisConfigured: bool, retention: nat)
      ensures Valid() && jobs == map[] && retained == map[] && submitted == {}
    {
      this.shared, this.redisConfigured, this.retention := shared, redisConfigured, retention;
      jobs, retained, submitted := map[], map[], {};
    }

    /** The local tables agree, and an unfinished retained job is the current job of its room. */
    ghost predicate Valid()
      reads this, jobs.Values, retained.Values
    {
      TablesAgree(jobs, retained)
    }

    static ghost predicate TablesAgree(jobs: map<Key, Job>, retained: map<(Key, Generation), Job>)
      reads jobs.Values, retained.Values
    {
      && (forall p :: p in retained ==> retained[p].generation == p.1)
      && (forall k :: k in jobs ==> (k, jobs[k].generation) in retained && retained[(k, jobs[k].generation)] == jobs[k])
      && (forall p :: p in retained && !retained[p].isDone ==> p.0 in jobs && jobs[p.0] == retained[p])
    }

    predicate Expired(job: Job, now: int)
      reads job
    {
      job.isDone && now - job.finishedAt >= (if retention >= 1 then retention else 1)
    }

    function LiveJobs(now: int): map<Key, Job>
      reads this, jobs.Values
    {
      map k | k in jobs && !Expired(jobs[k], now) :: jobs[k]
    }

    function LiveRetained(now: int): map<(Key, Generation), Job>
      reads this, retained.Values
    {
      map p | p in retained && !Expired(retained[p], now) :: retained[p]
    }

    method CleanupExpired(now: int)
      requires Valid()
      modifies this`jobs, this`retained
      ensures Valid()
      ensures jobs == old(LiveJobs(now)) && retained == old(LiveRetained(now))
      ensures forall key, id :: Found(key, id) == old(FoundAt(key, id, now))
    {
      var live := LiveJobs(now);
      retained := LiveRetained(now);
      jobs := live;
    }

    /** What a start finds in the tables as they are. */
    ghost function Found(key: Key, id: Generation): Situation
      reads this, jobs.Values, shared
    {
      Situation(key in jobs && !jobs[key].isDone, (key, id) in retained, (key, id) in shared.reservations)
    }

    /** What a start at `now` finds once expired jobs are dropped. */
    ghost function FoundAt(key: Key, id: Generation, now: int): Situation
      reads this, jobs.Values, retained.Values, shared
    {
      Situation(key in jobs && !jobs[key].isDone,
                (key, id) in retained && !Expired(retained[(key, id)], now),
                (key, id) in shared.reservations)
    }

    /** Why the local tables refuse this start, if they do. */
    function LocalRefusal(key: Key, id: Generation): Option<Refusal>
      reads this, jobs.Values
    {
      if key in jobs && !jobs[key].isDone then Some(AlreadyRunning)
      else if (key in jobs && jobs[key].generation == id) || (key, id) in retained then Some(IdConflict)
      else None
    }

    /**
     Enter a new job in both tables, make sure that stop requests are heard, and submit it. A job that
     cannot be submitted is taken out again; one whose renewal thread does not start is taken out too,
     although it already runs; without the listener it stays entered and never runs.
     */
    method Install(key: Key, id: Generation, faults: Faults) returns (launch: Launch, job: Job)
      requires Valid() && LocalRefusal(key, id).None?
      modifies this`jobs, this`retained, this`submitted
      ensures Valid()
      ensures fresh(job) && job.generation == id && !job.isDone
      ensures launch == LaunchOf(faults)
      ensures launch.Launched? || launch.Unheard? ==> jobs == old(jobs)[key := job] && retained == old(retained)[(key, id) := job]
      ensures launch.NotSubmitted? || launch.Orphaned? ==> jobs == old(jobs) && retained == old(retained)
      ensures submitted == old(submitted) + if launch.Launched? || launch.Orphaned? then {job} else {}
    {
      hide ValidGenerationId, LaunchOf, TablesAgree;
      var previousJob: Job? := if key in jobs then jobs[key] else null;
      job := new Job(id);
      Enter(key, id, job);
      launch := PutToWork(job, faults);
      if launch.NotSubmitted? || launch.Orphaned? {
        TakeOut(key, id, previousJob, old(jobs), old(retained));
      }
    }

    /** Start the listener, submit the job, start the thread that renews its lock. */
    method PutToWork(job: Job, faults: Faults) returns (launch: Launch)
      modifies this`submitted
      ensures launch == LaunchOf(faults)
      ensures submitted == old(submitted) + if launch.Launched? || launch.Orphaned? then {job} else {}
    {
      if shared.reachable && faults.listener {
        return Unheard;
      }
      if faults.submit.FailsBefore? {
        return NotSubmitted;
      }
      submitted := submitted + {job};
      launch := if shared.reachable && faults.submit.FailsAfter? then Orphaned else Launched;
    }

    function LaunchOf(faults: Faults): Launch {
      if shared.reachable && faults.listener then Unheard
      else if faults.submit.FailsBefore? then NotSubmitted
      else if shared.reachable && faults.submit.FailsAfter? then Orphaned
      else Launched
    }

    method Enter(key: Key, id: Generation, job: Job)
      requires Valid() && LocalRefusal(key, id).None? && job.generation == id && !job.isDone
      modifies this`jobs, this`retained
      ensures Valid()
      ensures jobs == old(jobs)[key := job] && retained == old(retained)[(key, id) := job]
    {
      jobs := jobs[key := job];
      retained := retained[(key, id) := job];
    }

    method TakeOut(key: Key, id: Generation, previousJob: Job?, ghost jobsBefore: map<Key, Job>,
                   ghost retainedBefore: map<(Key, Generation), Job>)
      requires (key, id) in retained && (key, id) !in retainedBefore && retained == retainedBefore[(key, id) := retained[(key, id)]]
      requires key in jobs && jobs == jobsBefore[key := jobs[key]]
      requires previousJob == if key in jobsBefore then jobsBefore[key] else null
      modifies this`jobs, this`retained
      ensures jobs == jobsBefore && retained == retainedBefore
    {
      retained := retained - {(key, id)};
      jobs := jobs - {key};
      if previousJob != null {
        jobs := jobs[key := previousJob];
      }
    }

    /** The start of a caller that holds the room's lock. */
    method StartLocked(key: Key, id: Generation, faults: Faults) returns (refusal: Option<Refusal>, job: Job?)
      requires Valid()
      modifies this`jobs, this`retained, this`submitted, shared`latest, shared`reservations
      ensures Valid()
      ensures refusal == LockedRefusal(shared.reachable, old(Found(key, id)), faults)
      ensures job != null ==> fresh(job) && job.generation == id && !job.isDone
      ensures refusal.None? ==> job != null
      ensures Enters(refusal) ==> job != null && jobs == old(jobs)[key := job] && retained == old(retained)[(key, id) := job]
      ensures Enters(refusal) && shared.reachable ==>
                && (key, id) !in old(shared.reservations) && shared.reservations == old(shared.reservations) + {(key, id)}
                && shared.latest == old(shared.latest)[key := id]
      ensures !Enters(refusal) ==>
                && jobs == old(jobs) && retained == old(retained) && shared.latest == old(shared.latest)
                && !refusal.value.StoreUnavailable? && !refusal.value.InvalidId?
                && shared.reservations == (if refusal.value.CoordinationFailed? && faults.reserve.FailsAfter?
                                           then old(shared.reservations) + {(key, id)} else old(shared.reservations))
      ensures submitted == old(submitted) + (if refusal.None? || Orphans(refusal, faults) then {job} else {})
      ensures Orphans(refusal, faults) ==> job != null
      ensures !shared.reachable ==> shared.reservations == old(shared.reservations) && shared.latest == old(shared.latest)
      ensures key in old(jobs) && !old(jobs[key].isDone) ==> refusal == Some(AlreadyRunning)
      ensures refusal == Some(ListenerFailed) ==> shared.reachable && faults.listener
    {
      assert key in jobs && jobs[key].generation == id ==> (key, id) in retained;
      hide Valid, ValidGenerationId;
      job := null;
      refusal := LocalRefusal(key, id);
      if refusal.Some? {
        return;
      }
      var claim, previousLatest := shared.ClaimGeneration(key, id, faults);
      if !claim.Claimed? {
        refusal := Some(if claim.Conflicting? then IdConflict else CoordinationFailed);
        return;
      }
      var launch, installed := Install(key, id, faults);
      job := installed;
      if launch.Unheard? {
        refusal := Some(ListenerFailed);
      } else if !launch.Launched? {
        assert shared.reachable ==> shared.reservations - {(key, id)} == old(shared.reservations);
        shared.Unclaim(key, id, previousLatest, old(shared.latest));
        refusal := Some(SubmitFailed);
      }
    }

    /** The job stays entered: it was started, or only the listener failed. */
    predicate Enters(refusal: Option<Refusal>) { refusal.None? || refusal.value.ListenerFailed? }

    /** The job runs although its start was undone. */
    predicate Orphans(refusal: Option<Refusal>, faults: Faults) {
      shared.reachable && refusal == Some(SubmitFailed) && faults.submit.FailsAfter?
    }

    /**
     A start either happens completely or leaves every table as it was, expired jobs aside, with five
     exceptions: an acquire or a reserve call that fails after its effect leaves its key behind, a
     pending stop request of the room is erased once the lock was taken, a listener that does not start
     leaves everything behind but a running job, and a renewal thread that does not start leaves a
     running job behind but nothing else. `job` is the job that was created.
     */
    method Start(key: Key, id: Generation, token: Token, now: int, faults: Faults)
      returns (refusal: Option<Refusal>, job: Job?)
      requires Valid()
      modifies this`jobs, this`retained, this`submitted, shared`locks, shared`latest, shared`reservations, shared`cancelRequests
      ensures Valid()
      ensures job != null ==> fresh(job) && job.generation == id && !job.isDone
      // the outcome, from the state before the call
      ensures refusal == Some(StoreUnavailable) <==> redisConfigured && !shared.reachable
      ensures refusal == Some(InvalidId) <==> (shared.reachable || !redisConfigured) && !ValidGenerationId(id)
      ensures Admissible(id) ==>
                refusal == if shared.reachable && !(faults.acquire.NoFault? && !Held(old(shared.locks), shared.clock, key))
                           then Some(AlreadyRunning)
                           else LockedRefusal(shared.reachable, old(FoundAt(key, id, now)), faults)
      ensures refusal.None? <==>
                && Admissible(id)
                && (shared.reachable ==> faults.acquire.NoFault? && !Held(old(shared.locks), shared.clock, key))
                && Startable(shared.reachable, old(FoundAt(key, id, now)), faults)
      // local tables
      ensures refusal == Some(StoreUnavailable) || refusal == Some(InvalidId) ==>
                jobs == old(jobs) && retained == old(retained)
      ensures !Enters(refusal) && !refusal.value.StoreUnavailable? && !refusal.value.InvalidId? ==>
                jobs == old(LiveJobs(now)) && retained == old(LiveRetained(now))
      ensures Enters(refusal) ==>
                && job != null && jobs == old(LiveJobs(now))[key := job]
                && retained == old(LiveRetained(now))[(key, id) := job]
      // the pool
      ensures refusal.None? || Orphans(refusal, faults) ==> job != null && submitted == old(submitted) + {job}
      ensures refusal.Some? && !Orphans(refusal, faults) ==> submitted == old(submitted)
      // shared keys after an undone start: as before, unless a failed call had already taken effect
      ensures !Enters(refusal) ==> shared.latest == old(shared.latest)
      ensures !Enters(refusal) ==>
                SameLocks(shared.locks, if AcquireLeaks(id, faults) then Acquired(old(shared.locks), shared.clock, shared.ttl, key, token)
                                        else old(shared.locks), shared.clock)
      ensures !Enters(refusal) ==>
                shared.reservations == (if refusal.value.CoordinationFailed? && faults.reserve.FailsAfter?
                                        then old(shared.reservations) + {(key, id)} else old(shared.reservations))
      // shared keys after a start
      ensures Enters(refusal) && shared.reachable ==>
                && !Held(old(shared.locks), shared.clock, key)
                && shared.locks == Acquired(old(shared.locks), shared.clock, shared.ttl, key, token)
                && (key, id) !in old(shared.reservations) && shared.reservations == old(shared.reservations) + {(key, id)}
                && shared.latest == old(shared.latest)[key := id]
      ensures !shared.reachable ==>
                shared.locks == old(shared.locks) && shared.reservations == old(shared.reservations)
                && shared.latest == old(shared.latest)
      ensures refusal == Some(ListenerFailed) ==> shared.reachable && faults.listener
      // a pending stop request of the room is erased as soon as the lock is taken, and never put back
      ensures shared.cancelRequests == if TakesLock(key, id, faults, old(shared.locks)) && !faults.clearFails
                                       then old(shared.cancelRequests) - {key} else old(shared.cancelRequests)
      ensures Enters(refusal) && shared.reachable ==> TakesLock(key, id, faults, old(shared.locks))
      // a running job refuses the start, in this process or in another
      ensures Admissible(id) && (Held(old(shared.locks), shared.clock, key) || !faults.acquire.NoFault?) && shared.reachable ==>
                refusal == Some(AlreadyRunning)
      ensures Admissible(id) && key in old(jobs) && !old(jobs[key].isDone) ==> refusal == Some(AlreadyRunning)
    {
      hide Valid, ValidGenerationId, Acquired, Released, Held, HeldBy, LockedRefusal, Startable, LiveJobs, LiveRetained;
      job := null;
      if redisConfigured && !shared.reachable {
        return Some(StoreUnavailable), null;
      }
      if !ValidGenerationId(id) {
        return Some(InvalidId), null;
      }
      StartsIff(shared.reachable, FoundAt(key, id, now), faults);
      CleanupExpired(now);
      AcquireThenRelease(shared.locks, shared.clock, shared.ttl, key, token);
      var acquired := shared.TryAcquire(key, token, faults.acquire);
      if !acquired {
        return Some(AlreadyRunning), null;
      }
      shared.ClearCancelRequest(key, faults.clearFails);
      refusal, job := StartLocked(key, id, faults);
      if !Enters(refusal) {
        shared.ReleaseLock(key, token);
      }
    }

    /** A job that was entered without its listener never runs, and refuses every later start of its room in this process. */
    method StartAgain(key: Key, id: Generation, token: Token, now: int, faults: Faults,
                      id': Generation, token': Token, now': int, faults': Faults)
      returns (first: Option<Refusal>, second: Option<Refusal>)
      requires Valid()
      modifies this`jobs, this`retained, this`submitted, shared`locks, shared`latest, shared`reservations, shared`cancelRequests
      ensures first == Some(ListenerFailed) && Admissible(id') ==> second == Some(AlreadyRunning) && submitted == old(submitted)
    {
      hide Valid, ValidGenerationId, Acquired, Released, Held, HeldBy, SameLocks;
      var job: Job?;
      first, job := Start(key, id, token, now, faults);
      second, job := Start(key, id', token', now', faults');
    }

    predicate Admissible(id: Generation) { (shared.reachable || !redisConfigured) && ValidGenerationId(id) }

    /** The acquire call succeeds. */
    predicate TakesLock(key: Key, id: Generation, faults: Faults, locks: Table)
      reads shared
    {
      shared.reachable && ValidGenerationId(id) && faults.acquire.NoFault? && !Held(locks, shared.clock, key)
    }

    /** The server may have stored the token although the acquire call was reported as failed. */
    predicate AcquireLeaks(id: Generation, faults: Faults) {
      shared.reachable && ValidGenerationId(id) && faults.acquire.FailsAfter?
    }
  }

  /** Both tables hold the same live locks. */
  ghost predicate SameLocks(a: Table, b: Table, now: real) {
    forall k: Key :: (Held(a, now, k) <==> Held(b, now, k)) && (Held(a, now, k) ==> a[k] == b[k])
  }

  /** A live lock cannot be taken; taking a free one and releasing it again changes no live lock. */
  lemma AcquireThenRelease(locks: Table, now: real, ttl: nat, key: Key, token: Token)
    ensures Held(locks, now, key) ==> Acquired(locks, now, ttl, key, token) == locks
    ensures !Held(locks, now, key) ==> SameLocks(Released(Acquired(locks, now, ttl, key, token), now, key, token), locks, now)
  {
  }
}

/**
 Starts and stops of one room in one process, with a start as three steps: the job is entered, it is
 launched, or its launch fails and the entry is undone.
 */
module StartRace {
  import opened Basics

  /** `current` is the room's entry, `previous` what each job found there, `undecided` the jobs entered but not launched. */
  datatype State = State(current: Option<nat>, previous: map<nat, Option<nat>>, undecided: set<nat>, running: set<nat>, done: set<nat>)

  datatype Step =
    | Enter(job: nat)   // under the table lock, if the room has no unfinished job
    | Stop(job: nat)    // a stop finishes the room's current job
    | Launch(job: nat)
    | Undo(job: nat)    // the launch failed: put back what was there before

  function Apply(s: State, step: Step): State {
    match step
    case Enter(job) =>
      if job in s.previous || (s.current.Some? && s.current.value !in s.done) then s
      else s.(current := Some(job), previous := s.previous[job := s.current], undecided := s.undecided + {job})
    case Stop(job) => if s.current == Some(job) then s.(done := s.done + {job}) else s
    case Launch(job) =>
      if job in s.undecided then s.(undecided := s.undecided - {job}, running := s.running + {job}) else s
    case Undo(job) =>
      if job in s.undecided && job in s.previous then s.(undecided := s.undecided - {job}, current := s.previous[job]) else s
  }

  function Run(steps: seq<Step>): State {
    if |steps| == 0 then State(None, map[], {}, {}, {}) else Apply(Run(steps[..|steps| - 1]), steps[|steps| - 1])
  }

  /** Undoing the job would put something in the place of another job's entry. */
  predicate Stale(s: State, step: Step) { step.Undo? && step.job in s.undecided && s.current != Some(step.job) }

  /** No undo so far was stale. */
  predicate Clean(steps: seq<Step>) {
    |steps| == 0 || (Clean(steps[..|steps| - 1]) && !Stale(Run(steps[..|steps| - 1]), steps[|steps| - 1]))
  }

  predicate Unfinished(s: State, job: nat) { (job in s.undecided || job in s.running) && job !in s.done }

  /** Every unfinished job, launched or not, is the room's entry. */
  ghost predicate UnfinishedIsCurrent(s: State) {
    forall j: nat :: Unfinished(s, j) ==> s.current == Some(j)
  }

  /** Jobs are entered once, over nothing or a finished job. */
  ghost predicate EntriesOk(s: State) {
    && s.undecided !! s.running && s.undecided + s.running <= s.previous.Keys
    && forall j :: j in s.previous && s.previous[j].Some? ==> s.previous[j].value in s.done
  }

  lemma StepKeepsEntries(s: State, step: Step)
    requires EntriesOk(s)
    ensures EntriesOk(Apply(s, step))
  {
  }

  lemma CleanStepKeeps(s: State, step: Step)
    requires EntriesOk(s) && UnfinishedIsCurrent(s) && !Stale(s, step)
    ensures UnfinishedIsCurrent(Apply(s, step))
  {
    var s' := Apply(s, step);
    forall j: nat | Unfinished(s', j) ensures s'.current == Some(j) {
      assert Unfinished(s, j) || step == Enter(j);
    }
  }

  /** Until an undo is stale, the room's entry is its unfinished job, so that at most one is unfinished. */
  lemma {:induction false} CleanRunKeeps(steps: seq<Step>)
    requires Clean(steps)
    ensures UnfinishedIsCurrent(Run(steps)) && EntriesOk(Run(steps))
  {
    if |steps| > 0 {
      hide Apply, UnfinishedIsCurrent, EntriesOk, Stale;
      var before := steps[..|steps| - 1];
      CleanRunKeeps(before);
      StepKeepsEntries(Run(before), steps[|steps| - 1]);
      CleanStepKeeps(Run(before), steps[|steps| - 1]);
    } else {
      assert Run(steps) == State(None, map[], {}, {}, {});
    }
  }

  /**
   An undo leaves an unfinished job without its entry exactly when that job, and not the failed one,
   is the room's entry; the failed one was then stopped before its launch failed.
   */
  lemma UndoDropsIff(steps: seq<Step>, job: nat)
    requires Clean(steps) && job in Run(steps).undecided
    ensures var s := Run(steps);
            && (UnfinishedIsCurrent(Apply(s, Undo(job))) <==>
                !(Stale(s, Undo(job)) && s.current.Some? && Unfinished(s, s.current.value)))
            && (Stale(s, Undo(job)) ==> job in s.done)
  {
    CleanRunKeeps(steps);
    var s := Run(steps);
    var s' := Apply(s, Undo(job));
    if s.current.Some? && Unfinished(s, s.current.value) && Stale(s, Undo(job)) {
      assert Unfinished(s', s.current.value);
    } else {
      forall j: nat ensures !Unfinished(s', j) {
        assert Unfinished(s', j) ==> Unfinished(s, j);
      }
    }
  }

  /** A running job loses its entry: the first start is stopped, a second one runs, the first one's launch fails. */
  lemma StaleUndoDropsRunningJob(a: nat, b: nat)
    requires a != b
    ensures var s := Run([Enter(a), Stop(a), Enter(b), Launch(b), Undo(a)]);
            s.current == None && b in s.running && b !in s.done
  {
    var steps := [Enter(a), Stop(a), Enter(b), Launch(b), Undo(a)];
    assert steps[..4] == [Enter(a), Stop(a), Enter(b), Launch(b)] && steps[..4][..3] == [Enter(a), Stop(a), Enter(b)];
    assert steps[..4][..3][..2] == [Enter(a), Stop(a)] && steps[..4][..3][..2][..1] == [Enter(a)];
    assert steps[..4][..3][..2][..1][..0] == [];
    var s1 := State(Some(a), map[a := None], {a}, {}, {});
    var s2 := s1.(done := {a});
    var s3 := State(Some(b), map[a := None, b := Some(a)], {a, b}, {}, {a});
    var s4 := s3.(undecided := {a}, running := {b});
    assert Run([Enter(a)]) == s1;
    assert Run([Enter(a), Stop(a)]) == s2;
    assert Run([Enter(a), Stop(a), Enter(b)]) == s3;
    assert Run([Enter(a), Stop(a), Enter(b), Launch(b)]) == s4;
  }
}
