/**
 The limiters inside the two servers: whatever the messages, each table is what the sliding-window
 limiter alone would hold, so the servers decide as the limiter that never forgets.
 */
module ServerLimits {
  import opened Sequences
  import opened RateLimiter
  import Discovery = DiscoverySpec
  import Group = GroupSpec

  // ----- One message as calls on a limiter -----

  /** A message always sweeps the table; some also check a key. */
  function Ops(checks: bool, key: string, now: int): seq<Op> {
    if checks then [Cleanup, Check(key, now)] else [Cleanup]
  }

  function Next(max: nat, window: nat, table: Attempts, checks: bool, key: string, now: int): Attempts {
    if checks then Recorded(max, window, Swept(table), key, now) else Swept(table)
  }

  lemma AfterOps(max: nat, window: nat, run: seq<Op>, checks: bool, key: string, now: int)
    ensures After(max, window, run + Ops(checks, key, now))
         == Next(max, window, After(max, window, run), checks, key, now)
  {
    var swept := run + [Cleanup];
    AfterSnoc(max, window, run, Cleanup);
    if checks {
      assert run + Ops(true, key, now) == swept + [Check(key, now)];
      AfterSnoc(max, window, swept, Check(key, now));
    }
  }

  /** No call of the run is later than `now`, and calls are in time order. */
  ghost predicate InOrder(run: seq<Op>, now: int) {
    Monotone(run) && NotBefore(run, now)
  }

  lemma OrderKept(run: seq<Op>, earlier: int, checks: bool, key: string, now: int)
    requires InOrder(run, earlier) && earlier <= now
    ensures InOrder(run + Ops(checks, key, now), now)
  {
  }

  // ----- Discovery server -----

  /** Registrations, logins and pings share one limiter, keyed by the sender's tag. */
  predicate AuthChecks(r: Discovery.Request) {
    r.Register? || r.Login? || r.Ping?
  }

  predicate SendChecks(r: Discovery.Request) {
    r.Send? || r.SealedSend?
  }

  function TagOf(r: Discovery.Request): string {
    if AuthChecks(r) || SendChecks(r) then r.tag else ""
  }

  /** The calls since the last start. */
  function AuthRun(run: Discovery.Run): seq<Op> {
    if run == [] || run[|run| - 1].request.Restart? then []
    else
      var i := run[|run| - 1];
      AuthRun(run[..|run| - 1]) + Ops(AuthChecks(i.request), TagOf(i.request), i.instant)
  }

  function SendRun(run: Discovery.Run): seq<Op> {
    if run == [] || run[|run| - 1].request.Restart? then []
    else
      var i := run[|run| - 1];
      SendRun(run[..|run| - 1]) + Ops(SendChecks(i.request), TagOf(i.request), i.instant)
  }

  ghost predicate Counted(s: Discovery.State, i: Discovery.Input, t: Discovery.State) {
    && t.auth == (if AuthChecks(i.request) then Discovery.CountAuth(s, i.request.tag, i.instant).auth else s.auth)
    && t.sends == (if SendChecks(i.request) then Discovery.CountSend(s, i.request.tag, i.instant).sends else s.sends)
  }

  lemma ChallengesCounted(env: Discovery.Env, s: Discovery.State, i: Discovery.Input)
    requires i.request.Register? || i.request.Login?
    ensures Counted(s, i, Discovery.Handle(env, s, i))
  {
  }

  lemma ResponsesCounted(env: Discovery.Env, s: Discovery.State, i: Discovery.Input)
    requires i.request.RegistrationResponse? || i.request.LoginResponse?
    ensures Counted(s, i, Discovery.Handle(env, s, i))
  {
  }

  lemma LegacyCounted(env: Discovery.Env, s: Discovery.State, i: Discovery.Input)
    requires i.request.LegacySend?
    ensures Counted(s, i, Discovery.Handle(env, s, i))
  {
  }

  lemma RelaysCounted(env: Discovery.Env, s: Discovery.State, i: Discovery.Input)
    requires i.request.Send? || i.request.SealedSend? || i.request.Forward?
    ensures Counted(s, i, Discovery.RelayStep(env, s, i))
  {
    var t := if i.request.Forward? then s else Discovery.CountSend(s, i.request.tag, i.instant);
    if Discovery.Accepted(env, s, i).Some? {
      RelayKeepsLimits(t, Discovery.EnvelopeOf(i.request), Discovery.Accepted(env, s, i).value, i.surbs, i.unix);
    }
  }

  lemma RelayKeepsLimits(s: Discovery.State, envelope: Discovery.Envelope, m: Discovery.Message,
                         surbs: bool, unix: int)
    ensures Discovery.Relay(s, envelope, m, surbs, unix).auth == s.auth
    ensures Discovery.Relay(s, envelope, m, surbs, unix).sends == s.sends
  {
  }

  lemma PingsCounted(env: Discovery.Env, s: Discovery.State, i: Discovery.Input)
    requires i.request.Ping?
    ensures Counted(s, i, Discovery.Handle(env, s, i))
  {
  }

  lemma AcksCounted(env: Discovery.Env, s: Discovery.State, i: Discovery.Input)
    requires i.request.Ack?
    ensures Counted(s, i, Discovery.Handle(env, s, i))
  {
  }

  lemma EachCounted(env: Discovery.Env, s: Discovery.State, i: Discovery.Input)
    requires !i.request.Restart?
    ensures Counted(s, i, Discovery.Handle(env, s, i))
  {
    match i.request
    case Register(_, _, _) => ChallengesCounted(env, s, i);
    case Login(_, _) => ChallengesCounted(env, s, i);
    case RegistrationResponse(_, _) => ResponsesCounted(env, s, i);
    case LoginResponse(_, _) => ResponsesCounted(env, s, i);
    case LegacySend(_, _, _) => LegacyCounted(env, s, i);
    case Send(_, _, _, _, _, _) => RelaysCounted(env, s, i);
    case SealedSend(_, _, _) => RelaysCounted(env, s, i);
    case Forward(_, _, _, _) => RelaysCounted(env, s, i);
    case Ping(_, _, _, _) => PingsCounted(env, s, i);
    case Ack(_, _, _, _, _) => AcksCounted(env, s, i);
    case _ =>
  }

  /** In every run the two tables are those of two limiters fed only the checked tags. */
  lemma {:induction false} TablesAreLimiters(env: Discovery.Env, run: Discovery.Run)
    ensures Discovery.After(env, run).auth
         == After(Discovery.AUTH_MAX, LIMIT_WINDOW_MS, AuthRun(run))
    ensures Discovery.After(env, run).sends
         == After(Discovery.SEND_MAX, LIMIT_WINDOW_MS, SendRun(run))
  {
    if run != [] && !run[|run| - 1].request.Restart? {
      var prefix, r, now := run[..|run| - 1], run[|run| - 1].request, run[|run| - 1].instant;
      TablesAreLimiters(env, prefix);
      EachCounted(env, Discovery.Seen(env, run), run[|run| - 1]);
      AfterOps(Discovery.AUTH_MAX, LIMIT_WINDOW_MS, AuthRun(prefix), AuthChecks(r), TagOf(r), now);
      AfterOps(Discovery.SEND_MAX, LIMIT_WINDOW_MS, SendRun(prefix), SendChecks(r), TagOf(r), now);
    }
  }

  /** The monotonic clock never goes back while the process lives. */
  ghost predicate Rising(run: Discovery.Run) {
    forall k :: 0 < k < |run| && !run[k].request.Restart? ==> run[k - 1].instant <= run[k].instant
  }

  lemma {:induction false} RunsInOrder(run: Discovery.Run, now: int)
    requires Rising(run) && (run != [] ==> run[|run| - 1].instant <= now)
    ensures InOrder(AuthRun(run), now) && InOrder(SendRun(run), now)
  {
    if run != [] && !run[|run| - 1].request.Restart? {
      var prefix, r, i := run[..|run| - 1], run[|run| - 1].request, run[|run| - 1];
      RunsInOrder(prefix, i.instant);
      OrderKept(AuthRun(prefix), i.instant, AuthChecks(r), TagOf(r), i.instant);
      OrderKept(SendRun(prefix), i.instant, SendChecks(r), TagOf(r), i.instant);
    }
  }

  lemma SweepDecides(max: nat, window: nat, run: seq<Op>, key: string, now: int)
    requires InOrder(run, now)
    ensures Allows(max, window, Swept(After(max, window, run)), key, now)
       <==> |Recent(window, now, Accepted(max, window, run, key))| < max
  {
    AfterSnoc(max, window, run, Cleanup);
    assert (run + [Cleanup])[..|run|] == run;
    DecidesAsFullHistory(max, window, run + [Cleanup], key, now);
  }

  lemma HistoryDecides(max: nat, run: seq<Op>, key: string, now: int)
    requires InOrder(run, now)
    ensures Allows(max, LIMIT_WINDOW_MS, Swept(After(max, LIMIT_WINDOW_MS, run)), key, now)
       <==> InLastMinute(Accepted(max, LIMIT_WINDOW_MS, run, key), now) < max
    ensures Room(After(max, LIMIT_WINDOW_MS, run), key, now, max)
       <==> InLastMinute(Accepted(max, LIMIT_WINDOW_MS, run, key), now) < max
  {
    SweepDecides(max, LIMIT_WINDOW_MS, run, key, now);
    RecentInNumbers(Accepted(max, LIMIT_WINDOW_MS, run, key), now);
    AllowsInNumbers(max, After(max, LIMIT_WINDOW_MS, run), key, now);
  }

  /**
   A registration, login or ping passes its limiter if and only if fewer than ten of the calls
   accepted from that tag, ever since the server started, lie within the last minute; a send, sixty.
   */
  lemma LimitsDecide(env: Discovery.Env, run: Discovery.Run)
    requires run != [] && Rising(run) && !run[|run| - 1].request.Restart?
    ensures var s, i, prefix := Discovery.Seen(env, run), run[|run| - 1], run[..|run| - 1];
            var tag := TagOf(i.request);
            var auth, sends := Discovery.After(env, prefix).auth, Discovery.After(env, prefix).sends;
            var admitted := Accepted(10, 60_000, AuthRun(prefix), tag);
            var sent := Accepted(60, 60_000, SendRun(prefix), tag);
            && (Discovery.AuthAllows(s, tag, i.instant) <==> InLastMinute(admitted, i.instant) < 10)
            && (Discovery.SendAllows(s, tag, i.instant) <==> InLastMinute(sent, i.instant) < 60)
            && (Room(auth, tag, i.instant, 10) <==> InLastMinute(admitted, i.instant) < 10)
            && (Room(sends, tag, i.instant, 60) <==> InLastMinute(sent, i.instant) < 60)
  {
    var i, prefix := run[|run| - 1], run[..|run| - 1];
    TablesAreLimiters(env, prefix);
    RunsInOrder(prefix, i.instant);
    HistoryDecides(10, AuthRun(prefix), TagOf(i.request), i.instant);
    HistoryDecides(60, SendRun(prefix), TagOf(i.request), i.instant);
  }

  // ----- Group server -----

  predicate GeneralChecks(r: Group.Request) {
    !r.Other? && !r.Restart? && !r.Register?
  }

  function KeyOf(r: Group.Request): string {
    if r.Other? || r.Restart? then "" else r.tag
  }

  /** The calls since the last start. */
  function GeneralRun(run: Group.Run): seq<Op> {
    if run == [] || run[|run| - 1].request.Restart? then []
    else
      var i := run[|run| - 1];
      GeneralRun(run[..|run| - 1]) + Ops(GeneralChecks(i.request), KeyOf(i.request), i.instant)
  }

  lemma GeneralStep(env: Group.Env, s: Group.State, i: Group.Input)
    requires !i.request.Restart?
    ensures Group.Step(env, s, i).limits.general
         == Next(Group.GENERAL_MAX, LIMIT_WINDOW_MS, s.limits.general, GeneralChecks(i.request),
                 KeyOf(i.request), i.instant)
  {
  }

  /** The general limiter's table is that of a limiter fed every tag but those of registrations. */
  lemma {:induction false} GeneralIsLimiter(env: Group.Env, run: Group.Run)
    ensures Group.After(env, run).limits.general
         == After(Group.GENERAL_MAX, LIMIT_WINDOW_MS, GeneralRun(run))
  {
    if run != [] && !run[|run| - 1].request.Restart? {
      var prefix, i := run[..|run| - 1], run[|run| - 1];
      GeneralIsLimiter(env, prefix);
      GeneralStep(env, Group.After(env, prefix), i);
      AfterOps(Group.GENERAL_MAX, LIMIT_WINDOW_MS, GeneralRun(prefix), GeneralChecks(i.request),
               KeyOf(i.request), i.instant);
    }
  }

  /** A registration counts against its tag and, once admitted, against its name. */
  function RegistrationOps(table: Attempts, i: Group.Input): seq<Op> {
    if !i.request.Register? then []
    else
      [Check(i.request.tag, i.instant)]
      + if Allows(Group.REGISTER_MAX, LIMIT_WINDOW_MS, table, i.request.tag, i.instant)
        then [Check("user:" + i.request.username, i.instant)] else []
  }

  function RegistrationRun(run: Group.Run): seq<Op> {
    if run == [] || run[|run| - 1].request.Restart? then []
    else
      var before := RegistrationRun(run[..|run| - 1]) + [Cleanup];
      before + RegistrationOps(After(Group.REGISTER_MAX, LIMIT_WINDOW_MS, before), run[|run| - 1])
  }

  lemma AfterRegistration(run: seq<Op>, i: Group.Input, limits: Group.Limits)
    requires i.request.Register?
    requires limits.registration == After(Group.REGISTER_MAX, LIMIT_WINDOW_MS, run)
    ensures After(Group.REGISTER_MAX, LIMIT_WINDOW_MS, run + RegistrationOps(limits.registration, i))
         == Group.RegistrationLimits(limits, i).registration
  {
    var byTag, byName := Check(i.request.tag, i.instant), Check("user:" + i.request.username, i.instant);
    AfterSnoc(Group.REGISTER_MAX, LIMIT_WINDOW_MS, run, byTag);
    AfterSnoc(Group.REGISTER_MAX, LIMIT_WINDOW_MS, run + [byTag], byName);
    assert run + ([byTag] + [byName]) == run + [byTag] + [byName];
    assert [byTag] + [] == [byTag];
  }

  /** The registration limiter's table is that of a limiter fed those keys. */
  lemma {:induction false} RegistrationIsLimiter(env: Group.Env, run: Group.Run)
    ensures Group.After(env, run).limits.registration
         == After(Group.REGISTER_MAX, LIMIT_WINDOW_MS, RegistrationRun(run))
  {
    if run != [] && !run[|run| - 1].request.Restart? {
      var prefix, i := run[..|run| - 1], run[|run| - 1];
      RegistrationIsLimiter(env, prefix);
      AfterSnoc(Group.REGISTER_MAX, LIMIT_WINDOW_MS, RegistrationRun(prefix), Cleanup);
      if i.request.Register? {
        AfterRegistration(RegistrationRun(prefix) + [Cleanup], i, Group.Seen(env, run).limits);
      } else {
        assert RegistrationRun(prefix) + [Cleanup] + [] == RegistrationRun(prefix) + [Cleanup];
      }
    }
  }

  ghost predicate GroupRising(run: Group.Run) {
    forall k :: 0 < k < |run| && !run[k].request.Restart? ==> run[k - 1].instant <= run[k].instant
  }

  lemma OpsInOrder(run: seq<Op>, more: seq<Op>, earlier: int, now: int)
    requires InOrder(run, earlier) && earlier <= now
    requires forall k :: 0 <= k < |more| && more[k].Check? ==> more[k].now == now
    ensures InOrder(run + more, now)
  {
    forall i | 0 <= i < |run + more| && (run + more)[i].Check? ensures (run + more)[i].now <= now {
      assert (run + more)[i] == if i < |run| then run[i] else more[i - |run|];
    }
  }

  lemma OrderWeaker(run: Group.Run, earlier: int, now: int)
    requires earlier <= now && InOrder(GeneralRun(run), earlier) && InOrder(RegistrationRun(run), earlier)
    ensures InOrder(GeneralRun(run), now) && InOrder(RegistrationRun(run), now)
  {
  }

  lemma RegistrationOrderKept(run: seq<Op>, i: Group.Input, earlier: int)
    requires InOrder(run, earlier) && earlier <= i.instant
    ensures var before := run + [Cleanup];
            InOrder(before + RegistrationOps(After(Group.REGISTER_MAX, LIMIT_WINDOW_MS, before), i), i.instant)
  {
    var before := run + [Cleanup];
    OpsInOrder(run, [Cleanup], earlier, i.instant);
    OpsInOrder(before, RegistrationOps(After(Group.REGISTER_MAX, LIMIT_WINDOW_MS, before), i), i.instant, i.instant);
  }

  lemma {:induction false} GroupRunsInOrder(run: Group.Run, now: int)
    requires GroupRising(run) && (run != [] ==> run[|run| - 1].instant <= now)
    ensures InOrder(GeneralRun(run), now) && InOrder(RegistrationRun(run), now)
  {
    if run != [] && !run[|run| - 1].request.Restart? {
      var prefix, i := run[..|run| - 1], run[|run| - 1];
      GroupRunsInOrder(prefix, i.instant);
      OrderKept(GeneralRun(prefix), i.instant, GeneralChecks(i.request), KeyOf(i.request), i.instant);
      RegistrationOrderKept(RegistrationRun(prefix), i, i.instant);
      OrderWeaker(run, i.instant, now);
    }
  }

  /**
   The group server's tables have room for a key if and only if fewer than sixty, or for
   registrations fewer than ten, of the calls accepted with it since the last start lie within
   the last minute.
   */
  lemma GroupLimitsDecide(env: Group.Env, run: Group.Run, key: string, now: int)
    requires GroupRising(run) && (run != [] ==> run[|run| - 1].instant <= now)
    ensures var l := Group.After(env, run).limits;
            && (Room(l.general, key, now, 60)
                <==> InLastMinute(Accepted(60, 60_000, GeneralRun(run), key), now) < 60)
            && (Room(l.registration, key, now, 10)
                <==> InLastMinute(Accepted(10, 60_000, RegistrationRun(run), key), now) < 10)
  {
    GroupRunsInOrder(run, now);
    GeneralIsLimiter(env, run);
    RegistrationIsLimiter(env, run);
    HistoryDecides(60, GeneralRun(run), key, now);
    HistoryDecides(10, RegistrationRun(run), key, now);
  }
}
