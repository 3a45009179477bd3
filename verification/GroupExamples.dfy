/** Concrete runs of the group server, for the statements that turn on one input. */
module GroupExamples {
  import opened Sequences
  import opened Validation
  import opened GroupSpec
  import Limiter = RateLimiter

  /** A server whose admin key is "K", where every signature verifies and the hash is the text itself. */
  function Trusting(): Env {
    Env((key: string, content: Content, signature: string) => true,
        (text: string) => text, (text: string) => text, Some("K"), "g")
  }

  function Received(r: Request): Input {
    Input(0, 0, r)
  }

  function Registers(tag: Tag, name: string, key: string): Input {
    Received(Register(tag, name, key, "", 0, "s", None))
  }

  lemma NewKeyAllowed(max: nat, attempts: Limiter.Attempts, key: string)
    requires max > 0 && key !in attempts
    ensures Limiter.Allows(max, Limiter.LIMIT_WINDOW_MS, attempts, key, 0)
    ensures Limiter.Recorded(max, Limiter.LIMIT_WINDOW_MS, attempts, key, 0) == attempts[key := [0]]
  {
    var none: seq<int> := [];
    assert Limiter.Recent(Limiter.LIMIT_WINDOW_MS, 0, none) == none && none + [0] == [0];
  }

  lemma AfterSnoc(env: Env, run: Run, i: Input)
    ensures After(env, run + [i]) == Step(env, After(env, run), i)
  {
    assert (run + [i])[..|run|] == run;
  }

  // ----- Approved before the group row exists -----

  /** Bob registers and is approved; only then does the admin register, which creates the group row. */
  function BobApprovedEarly(): Run {
    [Registers("a", "bob", "B"), Received(Approve("b", "bob", "g", 0, "s")), Registers("c", "admin", "K")]
  }

  /** No key has been counted more than n times, so for small n the limiters let everything pass. */
  ghost predicate Calm(l: Limits, n: nat) {
    && (forall key :: key in l.registration ==> |l.registration[key]| <= n)
    && (forall key :: key in l.general ==> |l.general[key]| <= n)
  }

  lemma RecordedCalm(max: nat, table: Limiter.Attempts, key: string, now: int, n: nat)
    requires forall k :: k in table ==> |table[k]| <= n
    ensures var next := Limiter.Recorded(max, Limiter.LIMIT_WINDOW_MS, table, key, now);
            forall k :: k in next ==> |next[k]| <= n + 1
  {
  }

  lemma StepCalm(env: Env, s: State, i: Input, n: nat)
    requires Calm(s.limits, n)
    ensures Calm(Step(env, s, i).limits, n + 2)
  {
    var l := Clean(s, i).limits;
    if i.request.Register? {
      RecordedCalm(REGISTER_MAX, l.registration, i.request.tag, i.instant, n);
      RecordedCalm(REGISTER_MAX, CountRegistration(l, i.request.tag, i.instant).registration,
                   "user:" + i.request.username, i.instant, n + 1);
    } else if !i.request.Other? && !i.request.Restart? {
      RecordedCalm(GENERAL_MAX, l.general, i.request.tag, i.instant, n);
    }
  }

  lemma CalmPasses(s: State, i: Input, n: nat)
    requires Calm(s.limits, n) && n < 9
    ensures i.request.Register? ==> RegistrationCounted(Clean(s, i).limits, i)
    ensures i.request.Approve? ==> GeneralAllows(Clean(s, i).limits, i.request.tag, i.instant)
  {
  }

  lemma BobPending(s: State)
    requires s.accounts == INIT.accounts && Calm(s.limits, 0)
    ensures Step(Trusting(), s, Registers("a", "bob", "B")).accounts
         == Accounts(map[], map["bob" := "B"], {}, false)
  {
    CalmPasses(s, Registers("a", "bob", "B"), 0);
    assert ValidUsername("bob") && "B"[0] != "K"[0];
  }

  lemma BobApproved(s: State)
    requires s.accounts == Accounts(map[], map["bob" := "B"], {}, false) && Calm(s.limits, 2)
    ensures Step(Trusting(), s, Received(Approve("b", "bob", "g", 0, "s"))).accounts
         == Accounts(map["bob" := "B"], map[], {}, false)
  {
    CalmPasses(s, Received(Approve("b", "bob", "g", 0, "s")), 2);
    assert map["bob" := "B"] - {"bob"} == map[];
  }

  lemma AdminRegisters(s: State)
    requires s.accounts == Accounts(map["bob" := "B"], map[], {}, false) && Calm(s.limits, 4)
    ensures Step(Trusting(), s, Registers("c", "admin", "K")).accounts
         == Accounts(map["bob" := "B", "admin" := "K"], map[], {"admin"}, true)
  {
    CalmPasses(s, Registers("c", "admin", "K"), 4);
    assert ValidUsername("admin");
  }

  /**
   The input that shows a restart matters: Bob is a user, the group row exists, and he is no
   member; the next start makes him one.
   */
  lemma BobJoinsOnlyByRestart()
    ensures var before := After(Trusting(), BobApprovedEarly()).accounts;
            "bob" in before.users && before.groupExists && "bob" !in before.members
    ensures "bob" in After(Trusting(), BobApprovedEarly() + [Received(Restart)]).accounts.members
  {
    ThreeSteps(Trusting(), BobApprovedEarly());
    BobOutside(BobApprovedEarly());
    BackfillsBob(After(Trusting(), BobApprovedEarly()));
    AfterSnoc(Trusting(), BobApprovedEarly(), Received(Restart));
  }

  /** The accounts once Bob is in and the admin has registered. */
  function BothIn(): Accounts {
    Accounts(map["bob" := "B", "admin" := "K"], map[], {"admin"}, true)
  }

  lemma BobThen(s: State, run: Run)
    requires run == BobApprovedEarly()
    requires s.accounts == Accounts(map[], map["bob" := "B"], {}, false) && Calm(s.limits, 2)
    ensures Step(Trusting(), Step(Trusting(), s, run[1]), run[2]).accounts == BothIn()
  {
    BobApproved(s);
    StepCalm(Trusting(), s, run[1], 2);
    AdminRegisters(Step(Trusting(), s, run[1]));
  }

  lemma BobOutside(run: Run)
    requires run == BobApprovedEarly()
    ensures Step(Trusting(), Step(Trusting(), Step(Trusting(), INIT, run[0]), run[1]), run[2]).accounts == BothIn()
  {
    BobPending(INIT);
    StepCalm(Trusting(), INIT, run[0], 0);
    BobThen(Step(Trusting(), INIT, run[0]), run);
  }

  lemma BackfillsBob(s: State)
    requires s.accounts.groupExists && "bob" in s.accounts.users
    ensures "bob" in Step(Trusting(), s, Received(Restart)).accounts.members
  {
  }

  lemma ThreeSteps(env: Env, run: Run)
    requires |run| == 3
    ensures After(env, run) == Step(env, Step(env, Step(env, INIT, run[0]), run[1]), run[2])
  {
    AfterSnoc(env, [], run[0]);
    AfterSnoc(env, [run[0]], run[1]);
    AfterSnoc(env, [run[0], run[1]], run[2]);
    assert run == [run[0], run[1]] + [run[2]] && [run[0], run[1]] == [run[0]] + [run[1]] && [run[0]] == [] + [run[0]];
  }

  // ----- A log of any length -----

  function Stars(n: nat): (text: string)
    ensures |text| == n
  {
    if n == 0 then "" else Stars(n - 1) + "*"
  }

  function StarSend(n: nat): Input {
    Received(SendGroup(Stars(n), "admin", Stars(n), "s"))
  }

  /** The admin registers and sends n different messages. */
  function Sends(n: nat): Run {
    if n == 0 then [Registers("", "admin", "K")] else Sends(n - 1) + [StarSend(n)]
  }

  ghost predicate HasSent(s: State, n: nat) {
    && "admin" in s.accounts.users && "admin" in s.accounts.members
    && |s.log.messages| == n
    && (forall key :: key in s.limits.general ==> |key| <= n)
    && (forall h :: h in s.log.hashes ==> |h| <= n + 6)
  }

  lemma AdminStarts()
    ensures HasSent(Step(Trusting(), INIT, Registers("", "admin", "K")), 0)
  {
    NewKeyAllowed(REGISTER_MAX, map[], "");
    NewKeyAllowed(REGISTER_MAX, map["" := [0]], "user:admin");
    assert ValidUsername("admin");
  }

  lemma SendsOneMore(s: State, n: nat)
    requires HasSent(s, n)
    ensures HasSent(Step(Trusting(), s, StarSend(n + 1)), n + 1)
  {
    var c := Clean(s, StarSend(n + 1));
    NewKeyAllowed(GENERAL_MAX, c.limits.general, Stars(n + 1));
    assert ValidUsername("admin");
    assert |DedupText("admin", Stars(n + 1))| == n + 7;
  }

  /** So the log reaches every length. */
  lemma {:induction false} LogOfAnyLength(n: nat)
    ensures HasSent(After(Trusting(), Sends(n)), n)
  {
    if n == 0 {
      AdminStarts();
      AfterSnoc(Trusting(), [], Registers("", "admin", "K"));
      assert Sends(0) == [] + [Registers("", "admin", "K")];
    } else {
      LogOfAnyLength(n - 1);
      SendsOneMore(After(Trusting(), Sends(n - 1)), n - 1);
      AfterSnoc(Trusting(), Sends(n - 1), StarSend(n));
    }
  }
}
