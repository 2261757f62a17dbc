/**
 The active-job lock: one expiring entry per room key, guarded by the owner's token.

 `LockTable` holds the coordinator's operations; the protocol below lets any number of workers
 interleave them with renewals, expiry and forced releases.
 */
module ActiveLocks {

  type Key = string
  type Token = nat

  datatype Entry = Entry(token: Token, expiresAt: real)

  type Table = map<Key, Entry>

  predicate Held(locks: Table, now: real, key: Key) {
    key in locks && now < locks[key].expiresAt
  }

  predicate HeldBy(locks: Table, now: real, key: Key, token: Token) {
    Held(locks, now, key) && locks[key].token == token
  }

  /** SET NX EX: only a free or expired key can be taken. */
  function Acquired(locks: Table, now: real, ttl: nat, key: Key, token: Token): Table {
    if Held(locks, now, key) then locks else locks[key := Entry(token, now + ttl as real)]
  }

  /** Compare the token, then delete. */
  function Released(locks: Table, now: real, key: Key, token: Token): Table {
    if HeldBy(locks, now, key, token) then locks - {key} else locks
  }

  /** Compare the token, then extend the expiry. */
  function Renewed(locks: Table, now: real, ttl: nat, key: Key, token: Token): Table {
    if HeldBy(locks, now, key, token) then locks[key := Entry(token, now + ttl as real)] else locks
  }

  /** Releasing or renewing touches only an entry that carries the caller's own token. */
  lemma OnlyOwnEntryChanges(locks: Table, now: real, ttl: nat, key: Key, token: Token, other: Key)
    requires other in locks && (other != key || locks[other].token != token)
    ensures other in Released(locks, now, key, token) && Released(locks, now, key, token)[other] == locks[other]
    ensures other in Renewed(locks, now, ttl, key, token) && Renewed(locks, now, ttl, key, token)[other] == locks[other]
  {
  }

  /** The coordinator's view of the stored locks. */
  class LockTable {
    var locks: Table
    var now: real
    const ttl: nat

    constructor (ttl: nat)
      ensures locks == map[] && now == 0.0 && this.ttl == ttl
    {
      this.ttl := ttl;
      locks, now := map[], 0.0;
    }

    method TryAcquire(key: Key, token: Token) returns (acquired: bool)
      modifies this`locks
      ensures locks == Acquired(old(locks), now, ttl, key, token)
      ensures acquired <==> !Held(old(locks), now, key)
      ensures acquired && ttl > 0 ==> HeldBy(locks, now, key, token)
    {
      acquired := !(key in locks && now < locks[key].expiresAt);
      if acquired {
        locks := locks[key := Entry(token, now + ttl as real)];
      }
    }

    method Release(key: Key, token: Token)
      modifies this`locks
      ensures locks == Released(old(locks), now, key, token)
      ensures !HeldBy(locks, now, key, token)
    {
      if key in locks && now < locks[key].expiresAt && locks[key].token == token {
        locks := locks - {key};
      }
    }

    method Refresh(key: Key, token: Token) returns (renewed: bool)
      modifies this`locks
      ensures locks == Renewed(old(locks), now, ttl, key, token)
      ensures renewed <==> HeldBy(old(locks), now, key, token)
    {
      renewed := key in locks && now < locks[key].expiresAt && locks[key].token == token;
      if renewed {
        locks := locks[key := Entry(token, now + ttl as real)];
      }
    }

    method ForceRelease(key: Key)
      modifies this`locks
      ensures locks == old(locks) - {key}
    {
      locks := locks - {key};
    }
  }
}

/** Every run of many workers over one lock table. */
module LockProtocol {
  import opened ActiveLocks

  /** A job that once acquired its key; `running` until it publishes its terminal event. */
  datatype Job = Job(key: Key, running: bool)

  /**
   `jobs` is indexed by lock token (tokens are never reused); `lost` collects the jobs whose lock
   expired, was force-released, or was released by the undoing of their start, while they were running.
   */
  datatype State = State(locks: Table, now: real, jobs: map<Token, Job>, lost: set<Token>)

  datatype Step =
    | Start(key: Key, token: Token)  // acquire with a fresh token, run a job if it succeeds
    | Renew(token: Token)            // the job's renewal thread, possibly late
    | Finish(token: Token)           // the job publishes its terminal event
    | Release(token: Token)          // the finalizer, after the job finished
    | UndoStart(token: Token)        // the start failed after its job was submitted: its lock is released
    | ForceRelease(key: Key)         // a stop request that timed out on another worker
    | Tick(seconds: real)            // time passes

  ghost predicate Running(s: State, t: Token) { t in s.jobs && s.jobs[t].running }

  ghost function NewlyLost(s: State, locks: Table, now: real): set<Token> {
    set t | t in s.jobs && s.jobs[t].running && HeldBy(s.locks, s.now, s.jobs[t].key, t)
                                             && !HeldBy(locks, now, s.jobs[t].key, t)
  }

  ghost function Apply(s: State, ttl: nat, step: Step): State {
    match step
    case Start(key, token) =>
      if token in s.jobs || Held(s.locks, s.now, key) then s
      else s.(locks := Acquired(s.locks, s.now, ttl, key, token), jobs := s.jobs[token := Job(key, true)])
    case Renew(token) =>
      if token !in s.jobs then s
      else s.(locks := Renewed(s.locks, s.now, ttl, s.jobs[token].key, token))
    case Finish(token) =>
      if token !in s.jobs then s else s.(jobs := s.jobs[token := s.jobs[token].(running := false)])
    case Release(token) =>
      if token !in s.jobs || s.jobs[token].running then s
      else s.(locks := Released(s.locks, s.now, s.jobs[token].key, token))
    case UndoStart(token) =>
      if token !in s.jobs then s
      else
        var locks := Released(s.locks, s.now, s.jobs[token].key, token);
        s.(locks := locks, lost := s.lost + NewlyLost(s, locks, s.now))
    case ForceRelease(key) =>
      s.(locks := s.locks - {key}, lost := s.lost + NewlyLost(s, s.locks - {key}, s.now))
    case Tick(d) =>
      if d < 0.0 then s else s.(now := s.now + d, lost := s.lost + NewlyLost(s, s.locks, s.now + d))
  }

  ghost function Run(s: State, ttl: nat, steps: seq<Step>): State {
    if |steps| == 0 then s else Apply(Run(s, ttl, steps[..|steps| - 1]), ttl, steps[|steps| - 1])
  }

  const EMPTY := State(map[], 0.0, map[], {})

  /** Every stored token belongs to a job of that key. */
  ghost predicate TokensAccounted(s: State) {
    forall k :: k in s.locks ==> s.locks[k].token in s.jobs && s.jobs[s.locks[k].token].key == k
  }

  /** A running job holds the lock of its key unless it lost it. */
  ghost predicate RunningHolds(s: State) {
    forall t :: Running(s, t) && t !in s.lost ==> HeldBy(s.locks, s.now, s.jobs[t].key, t)
  }

  /** A lost lock never comes back. */
  ghost predicate LostStaysLost(s: State) {
    forall t :: t in s.lost ==> t in s.jobs && !HeldBy(s.locks, s.now, s.jobs[t].key, t)
  }

  ghost predicate Invariant(s: State) {
    TokensAccounted(s) && RunningHolds(s) && LostStaysLost(s)
  }

  lemma StartKeeps(s: State, ttl: nat, key: Key, token: Token)
    requires Invariant(s) && ttl > 0
    ensures Invariant(Apply(s, ttl, Start(key, token)))
  {
    if token !in s.jobs && !Held(s.locks, s.now, key) {
      var s' := Apply(s, ttl, Start(key, token));
      forall t | Running(s', t) && t !in s'.lost
        ensures HeldBy(s'.locks, s'.now, s'.jobs[t].key, t)
      {
        assert t == token || Running(s, t);
      }
    }
  }

  lemma OwnerStepKeeps(s: State, ttl: nat, step: Step)
    requires Invariant(s) && ttl > 0 && (step.Renew? || step.Finish? || step.Release?)
    ensures Invariant(Apply(s, ttl, step))
  {
    if step.token in s.jobs {
      var s' := Apply(s, ttl, step);
      forall t | Running(s', t) && t !in s'.lost
        ensures HeldBy(s'.locks, s'.now, s'.jobs[t].key, t)
      {
        assert Running(s, t);
      }
    }
  }

  lemma LossStepKeeps(s: State, ttl: nat, step: Step)
    requires Invariant(s) && (step.ForceRelease? || step.Tick? || step.UndoStart?)
    ensures Invariant(Apply(s, ttl, step))
  {
    var s' := Apply(s, ttl, step);
    forall t | Running(s', t) && t !in s'.lost
      ensures HeldBy(s'.locks, s'.now, s'.jobs[t].key, t)
    {
      assert Running(s, t);
    }
  }

  lemma {:induction false} RunKeeps(ttl: nat, steps: seq<Step>)
    requires ttl > 0
    ensures Invariant(Run(EMPTY, ttl, steps))
  {
    hide Invariant;
    if |steps| == 0 {
      EmptyIsValid();
    } else {
      var s, step := Run(EMPTY, ttl, steps[..|steps| - 1]), steps[|steps| - 1];
      RunKeeps(ttl, steps[..|steps| - 1]);
      if step.Start? {
        StartKeeps(s, ttl, step.key, step.token);
      } else if step.ForceRelease? || step.Tick? || step.UndoStart? {
        LossStepKeeps(s, ttl, step);
      } else {
        OwnerStepKeeps(s, ttl, step);
      }
    }
  }

  lemma EmptyIsValid()
    ensures Invariant(EMPTY)
  {
  }

  // ---- Main results -------------------------------------------------------------

  /**
   In every run, two running jobs of one key are only possible if one of them lost its lock while
   running; so where no running job's lock expires, is force-released or is released by the undoing
   of its start, each key has at most one.
   */
  lemma AtMostOneRunningJob(ttl: nat, steps: seq<Step>, a: Token, b: Token)
    requires ttl > 0
    requires var s := Run(EMPTY, ttl, steps); Running(s, a) && Running(s, b) && s.jobs[a].key == s.jobs[b].key
    ensures a == b || a in Run(EMPTY, ttl, steps).lost || b in Run(EMPTY, ttl, steps).lost
  {
    hide Run;
    RunKeeps(ttl, steps);
  }

  /** While a running job still has its lock, no further job starts on its key. */
  lemma RunningJobBlocksStart(ttl: nat, steps: seq<Step>, owner: Token, newcomer: Token)
    requires ttl > 0
    requires var s := Run(EMPTY, ttl, steps); Running(s, owner) && owner !in s.lost
    ensures var s := Run(EMPTY, ttl, steps); Apply(s, ttl, Start(s.jobs[owner].key, newcomer)) == s
  {
    hide Run;
    RunKeeps(ttl, steps);
  }

  lemma GoneStep(s: State, ttl: nat, step: Step, t: Token)
    requires t in s.jobs && !HeldBy(s.locks, s.now, s.jobs[t].key, t)
    ensures var s' := Apply(s, ttl, step);
            t in s'.jobs && s'.jobs[t].key == s.jobs[t].key && !HeldBy(s'.locks, s'.now, s'.jobs[t].key, t)
  {
  }

  /** A lock that is gone, whether its job was running or finished by then, never comes back to its owner. */
  lemma {:induction false} GoneStaysGone(s: State, ttl: nat, steps: seq<Step>, t: Token)
    requires t in s.jobs && !HeldBy(s.locks, s.now, s.jobs[t].key, t)
    ensures var s' := Run(s, ttl, steps);
            t in s'.jobs && s'.jobs[t].key == s.jobs[t].key && !HeldBy(s'.locks, s'.now, s'.jobs[t].key, t)
  {
    if |steps| > 0 {
      hide Apply;
      GoneStaysGone(s, ttl, steps[..|steps| - 1], t);
      GoneStep(Run(s, ttl, steps[..|steps| - 1]), ttl, steps[|steps| - 1], t);
    }
  }

  /**
   A late owner, running or finished, whose lock is gone at some moment, at no later moment removes
   or extends any lock, whatever it still does and whoever has the key by then.
   */
  lemma LateOwnerIsHarmless(s: State, ttl: nat, since: seq<Step>, late: Token)
    requires late in s.jobs && !HeldBy(s.locks, s.now, s.jobs[late].key, late)
    ensures var t := Run(s, ttl, since);
            && Apply(t, ttl, Renew(late)).locks == t.locks
            && Apply(t, ttl, Finish(late)).locks == t.locks
            && Apply(t, ttl, Release(late)).locks == t.locks
            && Apply(t, ttl, UndoStart(late)).locks == t.locks
  {
    GoneStaysGone(s, ttl, since, late);
  }

  /** A renewed lock is held for less than a full TTL from the renewal, and refuses every other start until then. */
  lemma RenewalLasts(s: State, ttl: nat, owner: Token, d: real, newcomer: Token)
    requires owner in s.jobs && HeldBy(s.locks, s.now, s.jobs[owner].key, owner) && d >= 0.0
    ensures var s' := Apply(Apply(s, ttl, Renew(owner)), ttl, Tick(d));
            && (HeldBy(s'.locks, s'.now, s.jobs[owner].key, owner) <==> d < ttl as real)
            && (d < ttl as real ==> Apply(s', ttl, Start(s.jobs[owner].key, newcomer)) == s' && (owner in s'.lost ==> owner in s.lost))
  {
  }

  /** Once the holder has finished and released, a fresh job starts on its key at once. */
  lemma ReleasedKeyStarts(s: State, ttl: nat, owner: Token, newcomer: Token)
    requires owner in s.jobs && HeldBy(s.locks, s.now, s.jobs[owner].key, owner) && newcomer !in s.jobs && ttl > 0
    ensures var key := s.jobs[owner].key;
            var s' := Apply(Apply(Apply(s, ttl, Finish(owner)), ttl, Release(owner)), ttl, Start(key, newcomer));
            Running(s', newcomer) && !Running(s', owner) && HeldBy(s'.locks, s'.now, key, newcomer)
  {
  }

  /** A forced release frees the key for the next job, even while its holder runs. */
  lemma ForcedKeyStarts(s: State, ttl: nat, key: Key, newcomer: Token)
    requires newcomer !in s.jobs && ttl > 0
    ensures var s' := Apply(Apply(s, ttl, ForceRelease(key)), ttl, Start(key, newcomer));
            Running(s', newcomer) && HeldBy(s'.locks, s'.now, key, newcomer)
  {
  }

  /** A running job loses its lock only by force on its key, by the clock, or by the undoing of its own start. */
  lemma LossHasCause(s: State, ttl: nat, step: Step, t: Token)
    requires t !in s.lost && t in Apply(s, ttl, step).lost
    ensures Running(s, t) && HeldBy(s.locks, s.now, s.jobs[t].key, t)
    ensures match step
            case ForceRelease(key) => key == s.jobs[t].key
            case Tick(d) => s.locks[s.jobs[t].key].expiresAt <= s.now + d
            case UndoStart(token) => token == t
            case _ => false
  {
  }

  /** An undone start that left its job running lets a second job of the same key run, with neither expiry nor force. */
  lemma UndoneStartRunsTwo(key: Key, ttl: nat, a: Token, b: Token)
    requires a != b && ttl > 0
    ensures var s := Run(EMPTY, ttl, [Start(key, a), UndoStart(a), Start(key, b)]);
            Running(s, a) && Running(s, b) && s.jobs[a].key == s.jobs[b].key == key && s.lost == {a}
  {
    var steps := [Start(key, a), UndoStart(a), Start(key, b)];
    assert steps[..2] == [Start(key, a), UndoStart(a)] && steps[..2][..1] == [Start(key, a)] && steps[..2][..1][..0] == [];
    var one := Apply(EMPTY, ttl, Start(key, a));
    assert Run(EMPTY, ttl, steps[..2][..1]) == one;
    var two := Apply(one, ttl, UndoStart(a));
    assert two.lost == {a} && two.locks == map[];
    assert Run(EMPTY, ttl, steps[..2]) == two;
    assert Run(EMPTY, ttl, steps) == Apply(two, ttl, Start(key, b));
  }
}

/** The renewal thread: every third of the TTL it extends the lock of a job that is still running. */
module LockRenewal {
  import opened ActiveLocks

  const KEY: Key := "room"
  const TOKEN: Token := 1

  /** The renewal thread waits, then tries once; a failed try leaves the store alone. */
  datatype Attempt = Attempt(wait: real, succeeds: bool)

  function Interval(ttl: nat): real {
    var third := ttl as real / 3.0;
    if third < 1.0 then 1.0 else third
  }

  function TimeOf(acquired: real, attempts: seq<Attempt>): real {
    if |attempts| == 0 then acquired
    else TimeOf(acquired, attempts[..|attempts| - 1]) + attempts[|attempts| - 1].wait
  }

  /** The stored locks after these attempts, starting from an acquisition. */
  function LocksAfter(acquired: real, ttl: nat, attempts: seq<Attempt>): Table {
    if |attempts| == 0 then Acquired(map[], acquired, ttl, KEY, TOKEN)
    else
      var before := LocksAfter(acquired, ttl, attempts[..|attempts| - 1]);
      if attempts[|attempts| - 1].succeeds then Renewed(before, TimeOf(acquired, attempts), ttl, KEY, TOKEN) else before
  }

  /** Still held at the moment attempt n (1-based) is made, hence ever since the last success. */
  ghost predicate HeldAtAttempt(acquired: real, ttl: nat, attempts: seq<Attempt>, n: nat)
    requires 0 < n <= |attempts|
  {
    HeldBy(LocksAfter(acquired, ttl, attempts[..n - 1]), TimeOf(acquired, attempts[..n]), KEY, TOKEN)
  }

  ghost predicate NeverExpires(acquired: real, ttl: nat, attempts: seq<Attempt>) {
    forall n :: 0 < n <= |attempts| ==> HeldAtAttempt(acquired, ttl, attempts, n)
  }

  /** Waits are at most the interval plus a delay. */
  ghost predicate OnSchedule(attempts: seq<Attempt>, ttl: nat, delay: real) {
    forall i :: 0 <= i < |attempts| ==> 0.0 <= attempts[i].wait <= Interval(ttl) + delay
  }

  ghost predicate Punctual(attempts: seq<Attempt>, ttl: nat) {
    forall i :: 0 <= i < |attempts| ==> attempts[i].wait == Interval(ttl)
  }

  /** No two failures in a row. */
  ghost predicate SingleMissesOnly(attempts: seq<Attempt>) {
    forall i :: 0 < i < |attempts| ==> attempts[i - 1].succeeds || attempts[i].succeeds
  }

  ghost predicate LastFailed(attempts: seq<Attempt>) {
    |attempts| > 0 && !attempts[|attempts| - 1].succeeds
  }

  /** The expiry always lies a full TTL, or a TTL less one late interval, ahead. */
  lemma {:induction false} ExpiryAhead(acquired: real, ttl: nat, delay: real, attempts: seq<Attempt>)
    requires 0.0 <= delay && 2.0 * (Interval(ttl) + delay) < ttl as real
    requires OnSchedule(attempts, ttl, delay) && SingleMissesOnly(attempts)
    ensures var locks := LocksAfter(acquired, ttl, attempts);
            && KEY in locks && locks[KEY].token == TOKEN
            && locks[KEY].expiresAt >= TimeOf(acquired, attempts) + ttl as real
                 - (if LastFailed(attempts) then Interval(ttl) + delay else 0.0)
    ensures NeverExpires(acquired, ttl, attempts)
  {
    if |attempts| > 0 {
      var prior := attempts[..|attempts| - 1];
      ExpiryAhead(acquired, ttl, delay, prior);
      assert attempts[..|attempts|] == attempts;
      forall n | 0 < n <= |attempts|
        ensures HeldAtAttempt(acquired, ttl, attempts, n)
      {
        if n < |attempts| {
          assert HeldAtAttempt(acquired, ttl, prior, n);
          assert prior[..n] == attempts[..n] && prior[..n - 1] == attempts[..n - 1];
        }
      }
    }
  }

  /** Two failures in a row let a punctual lock expire before the next attempt. */
  lemma {:induction false} DoubleMissExpires(acquired: real, ttl: nat, attempts: seq<Attempt>)
    requires ttl >= 3 && Punctual(attempts, ttl)
    requires |attempts| >= 3 && !attempts[|attempts| - 2].succeeds && !attempts[|attempts| - 3].succeeds
    ensures !HeldAtAttempt(acquired, ttl, attempts, |attempts|)
  {
    var n := |attempts|;
    var a, b, c := attempts[..n - 3], attempts[..n - 2], attempts[..n - 1];
    assert c[..n - 2] == b && b[..n - 3] == a && attempts[..n] == attempts;
    assert LocksAfter(acquired, ttl, c) == LocksAfter(acquired, ttl, b) == LocksAfter(acquired, ttl, a);
    assert Interval(ttl) + Interval(ttl) + Interval(ttl) == ttl as real;
    assert TimeOf(acquired, b) == TimeOf(acquired, a) + Interval(ttl);
    assert TimeOf(acquired, c) == TimeOf(acquired, b) + Interval(ttl);
    assert TimeOf(acquired, attempts) == TimeOf(acquired, c) + Interval(ttl);
    ExpiryBounded(acquired, ttl, a);
  }

  lemma {:induction false} ExpiryBounded(acquired: real, ttl: nat, attempts: seq<Attempt>)
    requires Punctual(attempts, ttl)
    ensures var locks := LocksAfter(acquired, ttl, attempts);
            KEY in locks && locks[KEY].expiresAt <= TimeOf(acquired, attempts) + ttl as real
  {
    if |attempts| > 0 {
      ExpiryBounded(acquired, ttl, attempts[..|attempts| - 1]);
    }
  }

  // ---- Main results -------------------------------------------------------------

  /**
   With a TTL of at least 3 seconds a punctual lock is still held at its latest renewal attempt
   exactly when no two of the attempts before it failed in a row.
   */
  lemma PunctualLockSurvivesIff(acquired: real, ttl: nat, attempts: seq<Attempt>)
    requires ttl >= 3 && Punctual(attempts, ttl) && |attempts| > 0
    ensures NeverExpires(acquired, ttl, attempts) <==> SingleMissesOnly(attempts[..|attempts| - 1])
  {
    var prior := attempts[..|attempts| - 1];
    if SingleMissesOnly(prior) {
      LastAttemptIrrelevant(acquired, ttl, attempts);
    } else {
      var i :| 0 < i < |prior| && !prior[i - 1].succeeds && !prior[i].succeeds;
      var n := i + 2;
      var cut := attempts[..n];
      DoubleMissExpires(acquired, ttl, cut);
      assert cut[..n - 1] == attempts[..n - 1] && cut[..n] == attempts[..n];
      assert !HeldAtAttempt(acquired, ttl, attempts, n);
    }
  }

  /** Whether the last attempt itself succeeds cannot matter for the time before it. */
  lemma LastAttemptIrrelevant(acquired: real, ttl: nat, attempts: seq<Attempt>)
    requires ttl >= 3 && Punctual(attempts, ttl) && |attempts| > 0
    requires SingleMissesOnly(attempts[..|attempts| - 1])
    ensures NeverExpires(acquired, ttl, attempts)
  {
    var last := |attempts| - 1;
    var lucky := attempts[last := Attempt(attempts[last].wait, true)];
    forall i | 0 < i < |lucky|
      ensures lucky[i - 1].succeeds || lucky[i].succeeds
    {
      assert attempts[..last][i - 1] == lucky[i - 1];
      if i < last {
        assert attempts[..last][i] == lucky[i];
      }
    }
    ExpiryAhead(acquired, ttl, 0.0, lucky);
    forall n | 0 < n <= |attempts|
      ensures HeldAtAttempt(acquired, ttl, attempts, n)
    {
      assert HeldAtAttempt(acquired, ttl, lucky, n);
      assert lucky[..n - 1] == attempts[..n - 1];
      SameTimes(acquired, attempts[..n], lucky[..n]);
    }
  }

  lemma {:induction false} SameTimes(acquired: real, a: seq<Attempt>, b: seq<Attempt>)
    requires |a| == |b| && forall i :: 0 <= i < |a| ==> a[i].wait == b[i].wait
    ensures TimeOf(acquired, a) == TimeOf(acquired, b)
  {
    if |a| > 0 {
      SameTimes(acquired, a[..|a| - 1], b[..|b| - 1]);
    }
  }

  ghost predicate SurvivesSingleMisses(ttl: nat) {
    forall acquired: real, attempts: seq<Attempt> ::
      Punctual(attempts, ttl) && SingleMissesOnly(attempts) ==> NeverExpires(acquired, ttl, attempts)
  }

  /** One missed renewal is survivable exactly for a TTL of at least 3 seconds. */
  lemma SingleMissSafeIff(ttl: nat)
    ensures SurvivesSingleMisses(ttl) <==> ttl >= 3
  {
    if ttl >= 3 {
      forall acquired: real, attempts: seq<Attempt> | Punctual(attempts, ttl) && SingleMissesOnly(attempts)
        ensures NeverExpires(acquired, ttl, attempts)
      {
        ExpiryAhead(acquired, ttl, 0.0, attempts);
      }
    } else {
      var attempts := [Attempt(1.0, false), Attempt(1.0, true)];
      assert attempts[..1][..0] == [] && attempts[..2] == attempts && attempts[..0] == [];
      assert !HeldAtAttempt(0.0, ttl, attempts, 2);
      assert Punctual(attempts, ttl) && SingleMissesOnly(attempts) && !NeverExpires(0.0, ttl, attempts);
    }
  }
}
