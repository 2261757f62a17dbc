/**
 * Fixed-window rate limits. The counters live either in a local table that drops
 * every expired window on each call, or in Redis under a script that relies on
 * key expiry. Times are whole seconds; a Redis key is gone at its expiry instant.
 */
module RateLimiter {
  import opened Basics

  datatype Call = Call(key: string, limit: int, window: int, now: int)

  datatype Answer = Answer(allowed: bool, remaining: int, retryAfter: int)

  /** A local counter. */
  datatype Window = Window(count: int, expires: int)

  /** A Redis counter; a key may exist without an expiry. */
  datatype Expiry = Never | At(time: int)

  datatype Entry = Entry(count: int, expiry: Expiry)

  // The local table

  function Purged(windows: map<string, Window>, now: int): map<string, Window> {
    map k | k in windows && windows[k].expires > now :: windows[k]
  }

  /** The window a call falls into: the live one, or a new one that starts now. */
  function CurrentWindow(windows: map<string, Window>, c: Call): Window {
    if c.key in windows && windows[c.key].expires > c.now then windows[c.key] else Window(0, c.now + c.window)
  }

  function MemoryAnswer(windows: map<string, Window>, c: Call): Answer {
    var w := CurrentWindow(windows, c);
    var retry := Max(w.expires - c.now, 1);
    if w.count >= c.limit then Answer(false, 0, retry) else Answer(true, Max(c.limit - w.count - 1, 0), retry)
  }

  function MemoryAfter(windows: map<string, Window>, c: Call): map<string, Window> {
    var w := CurrentWindow(windows, c);
    if w.count >= c.limit then Purged(windows, c.now) else Purged(windows, c.now)[c.key := Window(w.count + 1, w.expires)]
  }

  class InMemoryLimiter {
    var windows: map<string, Window>

    constructor ()
      ensures windows == map[]
    {
      windows := map[];
    }

    method Consume(c: Call) returns (answer: Answer)
      modifies this
      ensures answer == MemoryAnswer(old(windows), c)
      ensures windows == MemoryAfter(old(windows), c)
    {
      windows := map k | k in windows && windows[k].expires > c.now :: windows[k];
      var current, expires := 0, c.now + c.window;
      if c.key in windows {
        current, expires := windows[c.key].count, windows[c.key].expires;
      }
      if expires <= c.now {
        current, expires := 0, c.now + c.window;
      }
      if current >= c.limit {
        return Answer(false, 0, Max(expires - c.now, 1));
      }
      current := current + 1;
      windows := windows[c.key := Window(current, expires)];
      return Answer(true, Max(c.limit - current, 0), Max(expires - c.now, 1));
    }
  }

  // The Redis script

  predicate LiveKey(store: map<string, Entry>, key: string, now: int) {
    key in store && (store[key].expiry.At? ==> store[key].expiry.time > now)
  }

  function StoredCount(store: map<string, Entry>, key: string, now: int): int {
    if LiveKey(store, key, now) then store[key].count else 0
  }

  /** The TTL command: -2 for a missing key, -1 for one that never expires. */
  function Ttl(store: map<string, Entry>, key: string, now: int): int {
    if !LiveKey(store, key, now) then -2
    else match store[key].expiry
         case Never => -1
         case At(time) => time - now
  }

  /** INCR keeps the expiry of a live key and starts a dead one at 1 without any. */
  function Incremented(store: map<string, Entry>, key: string, now: int): map<string, Entry> {
    if LiveKey(store, key, now) then store[key := store[key].(count := store[key].count + 1)] else store[key := Entry(1, Never)]
  }

  function RedisAfter(store: map<string, Entry>, c: Call): map<string, Entry> {
    var current := StoredCount(store, c.key, c.now);
    if current >= c.limit then store
    else if current + 1 == 1 then Incremented(store, c.key, c.now)[c.key := Entry(1, At(c.now + c.window))]
    else Incremented(store, c.key, c.now)
  }

  function RedisAnswer(store: map<string, Entry>, c: Call): Answer {
    var current, ttl := StoredCount(store, c.key, c.now), Ttl(store, c.key, c.now);
    var wait := if ttl < 0 then c.window else ttl;
    if current >= c.limit then Answer(false, Max(c.limit - current, 0), Max(wait, 1))
    else Answer(true, Max(c.limit - current - 1, 0), Max(if current == 0 then c.window else wait, 1))
  }

  class RedisLimiter {
    var store: map<string, Entry>

    constructor ()
      ensures store == map[]
    {
      store := map[];
    }

    method Consume(c: Call) returns (answer: Answer)
      modifies this
      ensures answer == RedisAnswer(old(store), c)
      ensures store == RedisAfter(old(store), c)
    {
      var current := StoredCount(store, c.key, c.now);
      var keyTtl := Ttl(store, c.key, c.now);
      if current >= c.limit {
        if keyTtl < 0 {
          keyTtl := c.window;
        }
        return Answer(false, Max(c.limit - current, 0), Max(keyTtl, 1));
      }
      store := Incremented(store, c.key, c.now);
      current := current + 1;
      if current == 1 {
        store := store[c.key := Entry(1, At(c.now + c.window))];
        keyTtl := c.window;
      } else {
        keyTtl := Ttl(store, c.key, c.now);
        if keyTtl < 0 {
          keyTtl := c.window;
        }
      }
      return Answer(true, Max(c.limit - current, 0), Max(keyTtl, 1));
    }
  }

  // The two stores agree

  /** From `now` on, both stores hold the same live counters. */
  ghost predicate Agree(windows: map<string, Window>, store: map<string, Entry>, now: int) {
    forall k: string ::
      && (k in windows && windows[k].expires > now <==> LiveKey(store, k, now))
      && (LiveKey(store, k, now) ==> windows[k].count > 0 && store[k] == Entry(windows[k].count, At(windows[k].expires)))
  }

  lemma AgreeLater(windows: map<string, Window>, store: map<string, Entry>, now: int, later: int)
    requires Agree(windows, store, now) && now <= later
    ensures Agree(windows, store, later)
  {
    forall k: string
      ensures k in windows && windows[k].expires > later <==> LiveKey(store, k, later)
      ensures LiveKey(store, k, later) ==> windows[k].count > 0 && store[k] == Entry(windows[k].count, At(windows[k].expires))
    {
      assert k in windows && windows[k].expires > now <==> LiveKey(store, k, now);
    }
  }

  lemma StepAgrees(windows: map<string, Window>, store: map<string, Entry>, c: Call)
    requires Agree(windows, store, c.now)
    ensures MemoryAnswer(windows, c) == RedisAnswer(store, c)
    ensures Agree(MemoryAfter(windows, c), RedisAfter(store, c), c.now)
  {
    assert c.key in windows && windows[c.key].expires > c.now <==> LiveKey(store, c.key, c.now);
    var windows', store' := MemoryAfter(windows, c), RedisAfter(store, c);
    forall k: string
      ensures k in windows' && windows'[k].expires > c.now <==> LiveKey(store', k, c.now)
      ensures LiveKey(store', k, c.now) ==>
                windows'[k].count > 0 && store'[k] == Entry(windows'[k].count, At(windows'[k].expires))
    {
      assert k in windows && windows[k].expires > c.now <==> LiveKey(store, k, c.now);
    }
  }

  predicate InOrder(calls: seq<Call>) {
    forall i, j :: 0 <= i < j < |calls| ==> calls[i].now <= calls[j].now
  }

  function MemoryRun(calls: seq<Call>): map<string, Window> {
    if |calls| == 0 then map[] else MemoryAfter(MemoryRun(calls[..|calls| - 1]), calls[|calls| - 1])
  }

  function RedisRun(calls: seq<Call>): map<string, Entry> {
    if |calls| == 0 then map[] else RedisAfter(RedisRun(calls[..|calls| - 1]), calls[|calls| - 1])
  }

  lemma {:induction false} RunsAgree(calls: seq<Call>, now: int)
    requires InOrder(calls) && (|calls| > 0 ==> calls[|calls| - 1].now <= now)
    ensures Agree(MemoryRun(calls), RedisRun(calls), now)
  {
    if |calls| > 0 {
      hide MemoryAfter, RedisAfter, Agree;
      var before, c := calls[..|calls| - 1], calls[|calls| - 1];
      RunsAgree(before, c.now);
      StepAgrees(MemoryRun(before), RedisRun(before), c);
      AgreeLater(MemoryRun(calls), RedisRun(calls), c.now, now);
    }
  }

  /** After any calls with any keys, limits and windows, both stores answer the next call alike. */
  lemma StoresAnswerAlike(calls: seq<Call>, next: Call)
    requires InOrder(calls + [next])
    ensures MemoryAnswer(MemoryRun(calls), next) == RedisAnswer(RedisRun(calls), next)
  {
    var all := calls + [next];
    assert forall i :: 0 <= i < |calls| ==> calls[i] == all[i] && calls[i].now <= all[|calls|].now;
    RunsAgree(calls, next.now);
    StepAgrees(MemoryRun(calls), RedisRun(calls), next);
  }

  // What a window admits

  /** Calls on one key all use the same positive limit and window. */
  predicate Fixed(calls: seq<Call>, key: string, limit: int, window: int) {
    && limit > 0 && window > 0
    && forall i :: 0 <= i < |calls| && calls[i].key == key ==> calls[i].limit == limit && calls[i].window == window
  }

  /** The times at which calls on a key were admitted. */
  function Admissions(calls: seq<Call>, key: string): seq<int> {
    if |calls| == 0 then []
    else
      var before, c := calls[..|calls| - 1], calls[|calls| - 1];
      if c.key == key && MemoryAnswer(MemoryRun(before), c).allowed then Admissions(before, key) + [c.now]
      else Admissions(before, key)
  }

  /** How many of some times fall into [from, to). */
  function Within(times: seq<int>, from: int, to: int): nat {
    if |times| == 0 then 0
    else Within(times[..|times| - 1], from, to) + (if from <= times[|times| - 1] < to then 1 else 0)
  }

  /** How many fall into one window length from a given time. */
  function Stretch(times: seq<int>, from: int, window: int): nat { Within(times, from, from + window) }

  lemma WithinAppend(times: seq<int>, t: int, from: int, to: int)
    ensures Within(times + [t], from, to) == Within(times, from, to) + (if from <= t < to then 1 else 0)
  {
    assert (times + [t])[..|times|] == times;
  }

  lemma {:induction false} WithinSplits(times: seq<int>, from: int, mid: int, to: int)
    requires from <= mid <= to
    ensures Within(times, from, to) == Within(times, from, mid) + Within(times, mid, to)
  {
    if |times| > 0 {
      WithinSplits(times[..|times| - 1], from, mid, to);
    }
  }

  lemma {:induction false} WithinGrows(times: seq<int>, from: int, to: int, from': int, to': int)
    requires from' <= from && to <= to'
    ensures Within(times, from, to) <= Within(times, from', to')
  {
    if |times| > 0 {
      WithinGrows(times[..|times| - 1], from, to, from', to');
    }
  }

  lemma {:induction false} NoneBeyond(times: seq<int>, from: int, to: int)
    requires forall i :: 0 <= i < |times| ==> times[i] < from
    ensures Within(times, from, to) == 0
  {
    if |times| > 0 {
      NoneBeyond(times[..|times| - 1], from, to);
    }
  }

  /**
   * A key's live window, which its first admission opened at expires - window, counts exactly
   * the admissions since then. Less than one window length before it, at most limit - 1 were
   * admitted: the call that opened the window before is further back.
   */
  ghost predicate LiveTracks(w: Window, times: seq<int>, limit: int, window: int, now: int) {
    var start := w.expires - window;
    && start <= now < w.expires
    && w.count <= limit
    && w.count == Within(times, start, w.expires)
    && Within(times, start, start + 1) >= 1
    && Within(times, start - window + 1, start) <= limit - 1
    && forall i :: 0 <= i < |times| ==> times[i] <= now
  }

  /** A key without a live window: its last window is over, and the call that opened it is one window length back. */
  ghost predicate IdleTracks(times: seq<int>, limit: int, window: int, now: int) {
    && Within(times, now - window + 1, now) <= limit - 1
    && forall i :: 0 <= i < |times| ==> times[i] < now
  }

  ghost predicate Tracks(windows: map<string, Window>, times: seq<int>, key: string, limit: int, window: int, now: int) {
    if key in windows && windows[key].expires > now then LiveTracks(windows[key], times, limit, window, now)
    else IdleTracks(times, limit, window, now)
  }

  /** No stretch of one window length holds two full limits. */
  ghost predicate Spread(times: seq<int>, limit: int, window: int) {
    forall from :: Stretch(times, from, window) <= 2 * limit - 1
  }

  lemma TracksLater(windows: map<string, Window>, times: seq<int>, key: string, limit: int, window: int, now: int, later: int)
    requires limit > 0 && window > 0 && now <= later && Tracks(windows, times, key, limit, window, now)
    ensures Tracks(windows, times, key, limit, window, later)
  {
    if key in windows && windows[key].expires > now {
      var w := windows[key];
      if w.expires <= later {
        var start := w.expires - window;
        WithinGrows(times, later - window + 1, later, start + 1, later);
        WithinSplits(times, start + 1, w.expires, later);
        NoneBeyond(times, w.expires, later);
        WithinSplits(times, start, start + 1, w.expires);
      }
    } else {
      WithinGrows(times, later - window + 1, later, now - window + 1, later);
      WithinSplits(times, now - window + 1, now, later);
      NoneBeyond(times, now, later);
    }
  }

  /** Admitting a call into the live window. */
  lemma JoinsWindow(w: Window, times: seq<int>, limit: int, window: int, now: int)
    requires window > 0 && w.count < limit && LiveTracks(w, times, limit, window, now) && Spread(times, limit, window)
    ensures LiveTracks(Window(w.count + 1, w.expires), times + [now], limit, window, now)
    ensures Spread(times + [now], limit, window)
  {
    var start, more := w.expires - window, times + [now];
    WithinAppend(times, now, start, w.expires);
    WithinAppend(times, now, start, start + 1);
    WithinAppend(times, now, start - window + 1, start);
    forall from ensures Stretch(more, from, window) <= 2 * limit - 1 {
      assert Stretch(times, from, window) <= 2 * limit - 1;
      WithinAppend(times, now, from, from + window);
      if from <= now < from + window {
        AroundStart(more, start, limit, window, from);
      }
    }
  }

  /** Admitting a call that opens a new window. */
  lemma OpensWindow(times: seq<int>, limit: int, window: int, now: int)
    requires limit > 0 && window > 0 && IdleTracks(times, limit, window, now) && Spread(times, limit, window)
    ensures LiveTracks(Window(1, now + window), times + [now], limit, window, now)
    ensures Spread(times + [now], limit, window)
  {
    var more := times + [now];
    WithinAppend(times, now, now, now + window);
    NoneBeyond(times, now, now + window);
    WithinAppend(times, now, now, now + 1);
    WithinAppend(times, now, now - window + 1, now);
    forall from ensures Stretch(more, from, window) <= 2 * limit - 1 {
      assert Stretch(times, from, window) <= 2 * limit - 1;
      WithinAppend(times, now, from, from + window);
      if from <= now < from + window {
        AroundStart(more, now, limit, window, from);
      }
    }
  }

  /** A stretch reaching into the current window, split at that window's start. */
  lemma AroundStart(times: seq<int>, start: int, limit: int, window: int, from: int)
    requires window > 0 && start - window < from
    requires limit > 0 && Within(times, start, start + window) <= limit
    requires Within(times, start - window + 1, start) <= limit - 1
    requires forall i :: 0 <= i < |times| ==> times[i] < start + window
    ensures Stretch(times, from, window) <= 2 * limit - 1
  {
    if from < start {
      WithinSplits(times, from, start, from + window);
      WithinGrows(times, from, start, start - window + 1, start);
      WithinGrows(times, start, from + window, start, start + window);
    } else {
      WithinGrows(times, from, from + window, start, from + window);
      WithinSplits(times, start, start + window, from + window);
      NoneBeyond(times, start + window, from + window);
    }
  }

  /** One call, on this key or another. */
  lemma CallTracks(windows: map<string, Window>, times: seq<int>, key: string, limit: int, window: int, c: Call)
    requires limit > 0 && window > 0 && (c.key == key ==> c.limit == limit && c.window == window)
    requires Tracks(windows, times, key, limit, window, c.now) && Spread(times, limit, window)
    ensures var times' := if c.key == key && MemoryAnswer(windows, c).allowed then times + [c.now] else times;
            Tracks(MemoryAfter(windows, c), times', key, limit, window, c.now) && Spread(times', limit, window)
  {
    hide Spread, LiveTracks, IdleTracks;
    if c.key == key && MemoryAnswer(windows, c).allowed {
      if key in windows && windows[key].expires > c.now {
        JoinsWindow(windows[key], times, limit, window, c.now);
      } else {
        OpensWindow(times, limit, window, c.now);
      }
    }
  }

  lemma {:induction false} RunTracks(calls: seq<Call>, key: string, limit: int, window: int, now: int)
    requires InOrder(calls) && Fixed(calls, key, limit, window) && (|calls| > 0 ==> calls[|calls| - 1].now <= now)
    ensures Tracks(MemoryRun(calls), Admissions(calls, key), key, limit, window, now)
    ensures Spread(Admissions(calls, key), limit, window)
  {
    if |calls| > 0 {
      hide Tracks, Spread, MemoryAfter, MemoryAnswer;
      var before, c := calls[..|calls| - 1], calls[|calls| - 1];
      RunTracks(before, key, limit, window, c.now);
      CallTracks(MemoryRun(before), Admissions(before, key), key, limit, window, c);
      TracksLater(MemoryRun(calls), Admissions(calls, key), key, limit, window, c.now, now);
    }
  }

  /** Any stretch of one window length admits fewer than two limits. */
  lemma FewerThanTwoLimits(calls: seq<Call>, key: string, limit: int, window: int, from: int)
    requires InOrder(calls) && Fixed(calls, key, limit, window)
    ensures Stretch(Admissions(calls, key), from, window) <= 2 * limit - 1
  {
    hide Tracks, MemoryRun;
    RunTracks(calls, key, limit, window, if |calls| > 0 then calls[|calls| - 1].now else 0);
  }

  lemma RunAppend(calls: seq<Call>, c: Call)
    ensures MemoryRun(calls + [c]) == MemoryAfter(MemoryRun(calls), c)
    ensures Admissions(calls + [c], c.key)
            == Admissions(calls, c.key) + (if MemoryAnswer(MemoryRun(calls), c).allowed then [c.now] else [])
    ensures MemoryRun([]) == map[] && Admissions([], c.key) == []
  {
    assert (calls + [c])[..|calls|] == calls;
  }

  function Repeat<T>(x: T, n: nat): seq<T> { if n == 0 then [] else Repeat(x, n - 1) + [x] }

  lemma RepeatOnto<T>(front: seq<T>, x: T, n: nat)
    ensures n == 0 ==> front + Repeat(x, n) == front
    ensures n > 0 ==> front + Repeat(x, n) == front + Repeat(x, n - 1) + [x]
  {
  }

  lemma {:induction false} WithinRepeat(times: seq<int>, t: int, n: nat, from: int, to: int)
    ensures Within(times + Repeat(t, n), from, to) == Within(times, from, to) + (if from <= t < to then n else 0)
  {
    hide Within, Repeat;
    RepeatOnto(times, t, n);
    if n > 0 {
      WithinRepeat(times, t, n - 1, from, to);
      WithinAppend(times + Repeat(t, n - 1), t, from, to);
    }
  }

  /** Repeated calls inside a live window are all admitted while the limit lasts. */
  lemma {:induction false} RepeatedCalls(calls: seq<Call>, c: Call, n: nat)
    requires c.key in MemoryRun(calls) && MemoryRun(calls)[c.key].expires > c.now && MemoryRun(calls)[c.key].count + n <= c.limit
    ensures var w, run := MemoryRun(calls)[c.key], MemoryRun(calls + Repeat(c, n));
            && c.key in run && run[c.key] == Window(w.count + n, w.expires)
            && Admissions(calls + Repeat(c, n), c.key) == Admissions(calls, c.key) + Repeat(c.now, n)
  {
    hide MemoryRun, Admissions, Repeat;
    RepeatOnto(calls, c, n);
    RepeatOnto(Admissions(calls, c.key), c.now, n);
    if n > 0 {
      RepeatedCalls(calls, c, n - 1);
      RunAppend(calls + Repeat(c, n - 1), c);
    }
  }

  /** A call that finds no live window opens one. */
  lemma OpeningCall(calls: seq<Call>, c: Call)
    requires c.limit > 0 && (c.key in MemoryRun(calls) ==> MemoryRun(calls)[c.key].expires <= c.now)
    ensures var run := MemoryRun(calls + [c]);
            && c.key in run && run[c.key] == Window(1, c.now + c.window)
            && Admissions(calls + [c], c.key) == Admissions(calls, c.key) + [c.now]
  {
    RunAppend(calls, c);
  }

  /** One call at 0, the rest of the limit in the window's last second, a whole limit in the next window. */
  function LateBurst(key: string, limit: nat, window: int): seq<Call>
    requires limit > 0
  {
    var c := (now: int) => Call(key, limit, window, now);
    [c(0)] + Repeat(c(window - 1), limit - 1) + [c(window)] + Repeat(c(window), limit - 1)
  }

  /** The bound is reached for every limit and every window longer than a second. */
  lemma BoundIsReached(key: string, limit: nat, window: int)
    requires limit > 0 && window > 1
    ensures Stretch(Admissions(LateBurst(key, limit, window), key), window - 1, window) == 2 * limit - 1
  {
    hide MemoryRun, Admissions, Within, Repeat;
    var first, late, next := Call(key, limit, window, 0), Call(key, limit, window, window - 1), Call(key, limit, window, window);
    var a := [first];
    NoCallsYet(key);
    assert [] + [first] == a;
    OpeningCall([], first);
    RepeatedCalls(a, late, limit - 1);
    var b := a + Repeat(late, limit - 1);
    OpeningCall(b, next);
    RepeatedCalls(b + [next], next, limit - 1);
    assert LateBurst(key, limit, window) == b + [next] + Repeat(next, limit - 1);
    var times := [] + [0] + Repeat(window - 1, limit - 1);
    WithinRepeat(times + [window], window, limit - 1, window - 1, 2 * window - 1);
    WithinAppend(times, window, window - 1, 2 * window - 1);
    WithinRepeat([] + [0], window - 1, limit - 1, window - 1, 2 * window - 1);
    WithinAppend([], 0, window - 1, 2 * window - 1);
    NoneBeyond([], window - 1, 2 * window - 1);
  }

  lemma NoCallsYet(key: string)
    ensures MemoryRun([]) == map[] && Admissions([], key) == []
  {
  }

  /** With a window of one second the bound is the limit itself. */
  lemma {:induction false} OneSecondWindow(calls: seq<Call>, key: string, limit: int, from: int)
    requires InOrder(calls) && Fixed(calls, key, limit, 1)
    ensures Stretch(Admissions(calls, key), from, 1) <= limit
  {
    if |calls| > 0 {
      hide MemoryRun, MemoryAfter;
      var before, c := calls[..|calls| - 1], calls[|calls| - 1];
      OneSecondWindow(before, key, limit, from);
      WithinAppend(Admissions(before, key), c.now, from, from + 1);
      RunTracks(calls, key, limit, 1, c.now);
      AtThisSecond(MemoryRun(calls), Admissions(calls, key), key, limit, c.now);
    }
  }

  lemma AtThisSecond(windows: map<string, Window>, times: seq<int>, key: string, limit: int, now: int)
    requires limit > 0 && Tracks(windows, times, key, limit, 1, now)
    ensures Within(times, now, now + 1) <= limit
  {
    if !(key in windows && windows[key].expires > now) {
      NoneBeyond(times, now, now + 1);
    }
  }

  /** The calls on a key among some calls. */
  function CallsOn(calls: seq<Call>, key: string): nat {
    if |calls| == 0 then 0
    else CallsOn(calls[..|calls| - 1], key) + (if calls[|calls| - 1].key == key then 1 else 0)
  }

  function MemoryRunFrom(windows: map<string, Window>, calls: seq<Call>): map<string, Window> {
    if |calls| == 0 then windows else MemoryAfter(MemoryRunFrom(windows, calls[..|calls| - 1]), calls[|calls| - 1])
  }

  /** A window that opened at `start`: the calls made since are counted up to the limit, and other keys do not matter. */
  lemma {:induction false} WindowCounts(windows: map<string, Window>, calls: seq<Call>, key: string, limit: int, window: int, start: int)
    requires Fixed(calls, key, limit, window)
    requires forall i :: 0 <= i < |calls| ==> start <= calls[i].now < start + window
    requires forall i :: 0 <= i < |calls| ==> calls[i].key == key ==> calls[i].now == start || CallsOn(calls[..i], key) > 0
    requires key !in windows || windows[key].expires <= start
    ensures var after, n := MemoryRunFrom(windows, calls), CallsOn(calls, key);
            && (n > 0 ==> key in after && after[key] == Window(Min(n, limit), start + window))
            && (n == 0 ==> key !in after || after[key].expires <= start)
  {
    if |calls| > 0 {
      var before, c := calls[..|calls| - 1], calls[|calls| - 1];
      assert forall i :: 0 <= i < |before| ==> before[i] == calls[i] && before[..i] == calls[..i];
      assert before == calls[..|calls| - 1];
      WindowCounts(windows, before, key, limit, window, start);
    }
  }

  /**
   * Each window admits exactly its first `limit` calls: with n calls already made in the
   * window that opened at `start`, the next one inside it is admitted if and only if n < limit,
   * is told what remains, and waits for the window's end.
   */
  lemma FirstCallsAdmitted(windows: map<string, Window>, calls: seq<Call>, key: string, limit: int, window: int, start: int, next: Call)
    requires Fixed(calls + [next], key, limit, window) && next.key == key
    requires forall i :: 0 <= i < |calls| ==> start <= calls[i].now < start + window
    requires forall i :: 0 <= i < |calls| ==> calls[i].key == key ==> calls[i].now == start || CallsOn(calls[..i], key) > 0
    requires start <= next.now < start + window && (CallsOn(calls, key) == 0 ==> next.now == start)
    requires key !in windows || windows[key].expires <= start
    ensures var n := CallsOn(calls, key);
            MemoryAnswer(MemoryRunFrom(windows, calls), next)
            == Answer(n < limit, Max(limit - n - 1, 0), start + window - next.now)
  {
    hide MemoryRunFrom, CallsOn;
    var all := calls + [next];
    assert all[|calls|] == next;
    assert forall i :: 0 <= i < |calls| ==> all[i] == calls[i];
    WindowCounts(windows, calls, key, limit, window, start);
  }

  /** Running on from a run is the run of all calls. */
  lemma {:induction false} RunContinues(before: seq<Call>, calls: seq<Call>)
    ensures MemoryRun(before + calls) == MemoryRunFrom(MemoryRun(before), calls)
  {
    if |calls| == 0 {
      assert before + calls == before;
    } else {
      RunContinues(before, calls[..|calls| - 1]);
      assert (before + calls)[..|before| + |calls| - 1] == before + calls[..|calls| - 1];
    }
  }

  /** The same of every run: whatever came before, a window that opens at `start` admits exactly its first `limit` calls. */
  lemma FirstCallsAdmittedInRun(before: seq<Call>, calls: seq<Call>, key: string, limit: int, window: int, start: int, next: Call)
    requires Fixed(calls + [next], key, limit, window) && next.key == key
    requires forall i :: 0 <= i < |calls| ==> start <= calls[i].now < start + window
    requires forall i :: 0 <= i < |calls| ==> calls[i].key == key ==> calls[i].now == start || CallsOn(calls[..i], key) > 0
    requires start <= next.now < start + window && (CallsOn(calls, key) == 0 ==> next.now == start)
    requires key !in MemoryRun(before) || MemoryRun(before)[key].expires <= start
    ensures var n := CallsOn(calls, key);
            MemoryAnswer(MemoryRun(before + calls), next) == Answer(n < limit, Max(limit - n - 1, 0), start + window - next.now)
  {
    hide MemoryRun, MemoryAnswer;
    RunContinues(before, calls);
    FirstCallsAdmitted(MemoryRun(before), calls, key, limit, window, start, next);
  }

  // The public entry

  /** How the Redis call of one check ends; a result that cannot be read fails after the script has run. */
  datatype RedisCall = NoRedis | Works | FailsBefore | FailsAfter

  /**
   A limit of zero or less closes the action; otherwise Redis answers if it can, else the local table.
   A call that fails after its script ran is counted in both stores.
   */
  method ConsumeRateLimit(redis: RedisLimiter, memory: InMemoryLimiter, c: Call, call: RedisCall) returns (answer: Answer)
    modifies redis, memory
    ensures c.limit <= 0 ==>
              && answer == Answer(false, 0, Max(c.window, 1))
              && redis.store == old(redis.store) && memory.windows == old(memory.windows)
    ensures c.limit > 0 ==>
              redis.store == if call.Works? || call.FailsAfter? then RedisAfter(old(redis.store), c) else old(redis.store)
    ensures c.limit > 0 && call.Works? ==> answer == RedisAnswer(old(redis.store), c) && memory.windows == old(memory.windows)
    ensures c.limit > 0 && !call.Works? ==>
              answer == MemoryAnswer(old(memory.windows), c) && memory.windows == MemoryAfter(old(memory.windows), c)
  {
    if c.limit <= 0 {
      return Answer(false, 0, Max(c.window, 1));
    }
    if call.Works? || call.FailsAfter? {
      answer := redis.Consume(c);
      if call.Works? {
        return;
      }
    }
    answer := memory.Consume(c);
  }
}
