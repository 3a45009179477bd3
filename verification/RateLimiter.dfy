/** Sliding-window rate limiter: a pruned list of instants per key. */
module RateLimiter {
  import opened Sequences

  /** Both servers limit by the minute. */
  const LIMIT_WINDOW_MS := 60_000

  type Attempts = map<string, seq<int>>

  /** Instants are ticks of a monotonic clock; an instant in the future counts as just now. */
  function Elapsed(now: int, t: int): nat {
    if now >= t then now - t else 0
  }

  function Within(window: nat, now: int): int -> bool {
    t => Elapsed(now, t) < window
  }

  function Recent(window: nat, now: int, times: seq<int>): seq<int> {
    Filter(Within(window, now), times)
  }

  function At(attempts: Attempts, key: string): seq<int> {
    if key in attempts then attempts[key] else []
  }

  predicate Allows(max: nat, window: nat, attempts: Attempts, key: string, now: int) {
    |Recent(window, now, At(attempts, key))| < max
  }

  function Recorded(max: nat, window: nat, attempts: Attempts, key: string, now: int): Attempts {
    var recent := Recent(window, now, At(attempts, key));
    attempts[key := if |recent| < max then recent + [now] else recent]
  }

  /** How many of the instants lie less than a minute back. */
  ghost function InLastMinute(times: seq<int>, now: int): nat {
    |set k: nat | k < |times| && now - times[k] < 60_000|
  }

  /** The table lists fewer than n calls with the key in the last minute. */
  ghost predicate Room(attempts: Attempts, key: string, now: int, n: nat) {
    InLastMinute(if key in attempts then attempts[key] else [], now) < n
  }

  function Swept(attempts: Attempts): Attempts {
    map key | key in attempts && attempts[key] != [] :: attempts[key]
  }

  class RateLimiter {
    var attempts: Attempts
    const maxAttempts: nat
    const window: nat

    constructor (maxAttempts: nat, window: nat)
      ensures this.maxAttempts == maxAttempts && this.window == window
      ensures attempts == map[]
    {
      this.maxAttempts, this.window := maxAttempts, window;
      attempts := map[];
    }

    method CheckAndRecord(key: string, now: int) returns (allowed: bool)
      modifies this
      ensures allowed == Allows(maxAttempts, window, old(attempts), key, now)
      ensures attempts == Recorded(maxAttempts, window, old(attempts), key, now)
    {
      if key !in attempts {
        attempts := attempts[key := []];
      }
      attempts := attempts[key := Recent(window, now, attempts[key])];
      if |attempts[key]| >= maxAttempts {
        return false;
      }
      attempts := attempts[key := attempts[key] + [now]];
      return true;
    }

    method Cleanup()
      modifies this
      ensures attempts == Swept(old(attempts))
    {
      attempts := map key | key in attempts && attempts[key] != [] :: attempts[key];
    }
  }

  // ----- What a window of one minute means -----

  lemma RecentInNumbers(times: seq<int>, now: int)
    ensures |Recent(LIMIT_WINDOW_MS, now, times)| == InLastMinute(times, now)
  {
    FilterSize(Within(LIMIT_WINDOW_MS, now), times);
    assert Places(Within(LIMIT_WINDOW_MS, now), times) == set k: nat | k < |times| && now - times[k] < 60_000;
  }

  /** The limiter of the last minute allows a call if and only if its table has room for it, swept or not. */
  lemma AllowsInNumbers(max: nat, attempts: Attempts, key: string, now: int)
    ensures Allows(max, LIMIT_WINDOW_MS, attempts, key, now) <==> Room(attempts, key, now, max)
    ensures Allows(max, LIMIT_WINDOW_MS, Swept(attempts), key, now) <==> Room(attempts, key, now, max)
    ensures Room(Swept(attempts), key, now, max) <==> Room(attempts, key, now, max)
  {
    assert At(Swept(attempts), key) == At(attempts, key);
    RecentInNumbers(At(attempts, key), now);
  }

  // ----- Whole runs -----

  datatype Op = Check(key: string, now: int) | Cleanup

  function Apply(max: nat, window: nat, attempts: Attempts, op: Op): Attempts {
    match op
    case Check(key, now) => Recorded(max, window, attempts, key, now)
    case Cleanup => Swept(attempts)
  }

  /** The limiter's table after a run of calls. */
  function After(max: nat, window: nat, run: seq<Op>): Attempts {
    if run == [] then map[] else Apply(max, window, After(max, window, run[..|run| - 1]), run[|run| - 1])
  }

  lemma AfterSnoc(max: nat, window: nat, run: seq<Op>, op: Op)
    ensures After(max, window, run + [op]) == Apply(max, window, After(max, window, run), op)
  {
    assert (run + [op])[..|run|] == run;
  }

  /**
   * The reference limiter never forgets: the instants of every call with this key that was
   * accepted, a call being refused when max accepted ones lie within the window.
   */
  function Accepted(max: nat, window: nat, run: seq<Op>, key: string): seq<int> {
    if run == [] then []
    else
      var before := Accepted(max, window, run[..|run| - 1], key);
      match run[|run| - 1]
      case Check(k, now) =>
        if k == key && |Recent(window, now, before)| < max then before + [now] else before
      case Cleanup => before
  }

  ghost predicate Monotone(run: seq<Op>) {
    forall i, j :: 0 <= i < j < |run| && run[i].Check? && run[j].Check? ==> run[i].now <= run[j].now
  }

  ghost predicate NotBefore(run: seq<Op>, now: int) {
    forall i :: 0 <= i < |run| && run[i].Check? ==> run[i].now <= now
  }

  /** The calls with one key. */
  function OnlyKey(key: string): Op -> bool {
    (op: Op) => op.Check? && op.key == key
  }

  lemma RecentLater(window: nat, t: int, now: int, times: seq<int>)
    requires t <= now
    ensures Recent(window, now, Recent(window, t, times)) == Recent(window, now, times)
  {
    FilterWithin(Within(window, t), Within(window, now), times);
  }

  /** The pruned table answers every later query exactly as the full history does. */
  lemma {:induction false} PrunedAgrees(max: nat, window: nat, run: seq<Op>, key: string, now: int)
    requires Monotone(run) && NotBefore(run, now)
    ensures Recent(window, now, At(After(max, window, run), key))
         == Recent(window, now, Accepted(max, window, run, key))
  {
    if run != [] {
      var prefix, op := run[..|run| - 1], run[|run| - 1];
      var table, history := After(max, window, prefix), Accepted(max, window, prefix, key);
      PrunedAgrees(max, window, prefix, key, now);
      if op.Check? && op.key == key {
        var times := At(table, key);
        PrunedAgrees(max, window, prefix, key, op.now);
        RecentLater(window, op.now, now, times);
        FilterConcat(Within(window, now), Recent(window, op.now, times), [op.now]);
        FilterConcat(Within(window, now), history, [op.now]);
      }
    }
  }

  /**
   * A call is refused if and only if max accepted calls with its key lie within the window,
   * counting over the whole history.
   */
  lemma DecidesAsFullHistory(max: nat, window: nat, run: seq<Op>, key: string, now: int)
    requires Monotone(run) && NotBefore(run, now)
    ensures Allows(max, window, After(max, window, run), key, now)
       <==> |Recent(window, now, Accepted(max, window, run, key))| < max
  {
    PrunedAgrees(max, window, run, key, now);
  }

  /** Neither other keys' calls nor cleanups influence which calls of a key are accepted. */
  lemma {:induction false} KeysIndependent(max: nat, window: nat, run: seq<Op>, key: string)
    ensures Accepted(max, window, run, key) == Accepted(max, window, Filter(OnlyKey(key), run), key)
  {
    if run != [] {
      var prefix, op := run[..|run| - 1], run[|run| - 1];
      KeysIndependent(max, window, prefix, key);
      var mine := Filter(OnlyKey(key), prefix);
      if OnlyKey(key)(op) {
        assert (mine + [op])[..|mine|] == mine;
      } else {
        assert mine + [] == mine;
      }
    }
  }

  /** Accepted instants of a key are taken from its calls, in call order. */
  lemma {:induction false} AcceptedSorted(max: nat, window: nat, run: seq<Op>, key: string, now: int)
    requires Monotone(run) && NotBefore(run, now)
    ensures forall t :: t in Accepted(max, window, run, key) ==> t <= now
    ensures forall i, j :: 0 <= i < j < |Accepted(max, window, run, key)|
              ==> Accepted(max, window, run, key)[i] <= Accepted(max, window, run, key)[j]
  {
    if run != [] {
      var prefix, op := run[..|run| - 1], run[|run| - 1];
      AcceptedSorted(max, window, prefix, key, if op.Check? then op.now else now);
      var before := Accepted(max, window, prefix, key);
      assert forall i :: 0 <= i < |before| ==> before[i] in before;
    }
  }

  /** When the last n instants all lie within the window, at least n do. */
  lemma RecentSuffix(window: nat, now: int, times: seq<int>, n: nat)
    requires n <= |times|
    requires forall i :: |times| - n <= i < |times| ==> Within(window, now)(times[i])
    ensures |Recent(window, now, times)| >= n
  {
    var cut := |times| - n;
    assert times == times[..cut] + times[cut..];
    FilterConcat(Within(window, now), times[..cut], times[cut..]);
    FilterAll(Within(window, now), times[cut..]);
  }

  /** The k-th and the (k+max)-th accepted calls of a key are at least one window apart. */
  lemma {:induction false} AcceptedSpacing(max: nat, window: nat, run: seq<Op>, key: string, k: nat)
    requires Monotone(run)
    requires k + max < |Accepted(max, window, run, key)|
    ensures Accepted(max, window, run, key)[k + max] - Accepted(max, window, run, key)[k] >= window
  {
    var prefix, op := run[..|run| - 1], run[|run| - 1];
    var before := Accepted(max, window, prefix, key);
    if k + max < |before| {
      AcceptedSpacing(max, window, prefix, key, k);
    } else {
      AcceptedSorted(max, window, prefix, key, op.now);
      if op.now - before[k] < window {
        forall i | k <= i < |before| ensures Within(window, op.now)(before[i]) {
          assert before[i] in before;
        }
        RecentSuffix(window, op.now, before, max);
      }
    }
  }

  /** No list outgrows max, and with max at least one no list is empty. */
  lemma {:induction false} TableBounded(max: nat, window: nat, run: seq<Op>, key: string)
    requires key in After(max, window, run)
    ensures |After(max, window, run)[key]| <= max
    ensures max >= 1 ==> After(max, window, run)[key] != []
  {
    var prefix, op := run[..|run| - 1], run[|run| - 1];
    if key in After(max, window, prefix) {
      TableBounded(max, window, prefix, key);
    }
  }

  /** Hence a cleanup changes nothing when it runs in any reachable state. */
  lemma CleanupChangesNothing(max: nat, window: nat, run: seq<Op>)
    requires max >= 1
    ensures Swept(After(max, window, run)) == After(max, window, run)
  {
    var table := After(max, window, run);
    forall key | key in table ensures table[key] != [] {
      TableBounded(max, window, run, key);
    }
  }
}
