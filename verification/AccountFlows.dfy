/** Registration and login from end to end: a client that answers its challenge in time gets what it asked for. */
module AccountFlows {
  import opened Sequences
  import opened DiscoverySpec
  import opened DiscoveryLaws
  import opened Accounts

  // ----- A challenge waits for its answer -----

  /** The message neither replaces nor uses up the registration challenge of the tag. */
  predicate SparesRegistration(i: Input, tag: Tag) {
    && !i.request.Restart?
    && !(i.request.Register? && i.request.tag == tag)
    && !(i.request.RegistrationResponse? && i.request.tag == tag && i.request.signature.Some?)
  }

  predicate SparesLogin(i: Input, tag: Tag) {
    && !i.request.Restart?
    && !(i.request.Login? && i.request.tag == tag)
    && !(i.request.LoginResponse? && i.request.tag == tag && i.request.signature.Some?)
  }

  lemma StepKeepsRegistration(env: Env, s: State, i: Input, tag: Tag)
    requires SparesRegistration(i, tag) && tag in s.pendingUsers
    requires i.instant - s.pendingUsers[tag].createdAt < 300_000
    ensures tag in Step(env, s, i).pendingUsers && Step(env, s, i).pendingUsers[tag] == s.pendingUsers[tag]
  {
    match i.request
    case Register(_, _, _) => RegisterIff(env, s, i);
    case RegistrationResponse(_, _) => RegistrationResponseIff(env, s, i);
    case Login(_, _) => LoginIff(env, s, i);
    case LoginResponse(_, _) => LoginResponseIff(env, s, i);
    case _ => OthersOnlyAge(env, s, i);
  }

  lemma StepKeepsLogin(env: Env, s: State, i: Input, tag: Tag)
    requires SparesLogin(i, tag) && tag in s.logins
    requires i.instant - s.logins[tag].createdAt < 300_000
    ensures tag in Step(env, s, i).logins && Step(env, s, i).logins[tag] == s.logins[tag]
  {
    match i.request
    case Register(_, _, _) => RegisterIff(env, s, i);
    case RegistrationResponse(_, _) => RegistrationResponseIff(env, s, i);
    case Login(_, _) => LoginIff(env, s, i);
    case LoginResponse(_, _) => LoginResponseIff(env, s, i);
    case _ => OthersOnlyAge(env, s, i);
  }

  lemma PrefixStep(env: Env, run: Run, k: nat)
    requires k < |run|
    ensures After(env, run[..k + 1]) == Step(env, After(env, run[..k]), run[k])
  {
    assert run[..k + 1][..k] == run[..k];
  }

  ghost predicate WaitsAt(env: Env, run: Run, k: nat, tag: Tag, c: Challenge)
    requires k <= |run|
  {
    tag in After(env, run[..k]).pendingUsers && After(env, run[..k]).pendingUsers[tag] == c
  }

  ghost predicate LoginWaitsAt(env: Env, run: Run, k: nat, tag: Tag, c: Challenge)
    requires k <= |run|
  {
    tag in After(env, run[..k]).logins && After(env, run[..k]).logins[tag] == c
  }

  lemma WaitsOn(env: Env, run: Run, k: nat, tag: Tag, c: Challenge)
    requires k < |run| && WaitsAt(env, run, k, tag, c)
    requires SparesRegistration(run[k], tag) && run[k].instant - c.createdAt < 300_000
    ensures WaitsAt(env, run, k + 1, tag, c)
  {
    StepKeepsRegistration(env, After(env, run[..k]), run[k], tag);
    PrefixStep(env, run, k);
  }

  lemma LoginWaitsOn(env: Env, run: Run, k: nat, tag: Tag, c: Challenge)
    requires k < |run| && LoginWaitsAt(env, run, k, tag, c)
    requires SparesLogin(run[k], tag) && run[k].instant - c.createdAt < 300_000
    ensures LoginWaitsAt(env, run, k + 1, tag, c)
  {
    StepKeepsLogin(env, After(env, run[..k]), run[k], tag);
    PrefixStep(env, run, k);
  }

  lemma {:induction false} RegistrationWaits(env: Env, run: Run, j: nat, k: nat, tag: Tag, c: Challenge)
    requires j < k <= |run|
    requires WaitsAt(env, run, j + 1, tag, c)
    requires forall m :: j < m < k ==> SparesRegistration(run[m], tag) && run[m].instant - c.createdAt < 300_000
    ensures WaitsAt(env, run, k, tag, c)
  {
    if k > j + 1 {
      RegistrationWaits(env, run, j, k - 1, tag, c);
      WaitsOn(env, run, k - 1, tag, c);
    }
  }

  lemma {:induction false} LoginWaits(env: Env, run: Run, j: nat, k: nat, tag: Tag, c: Challenge)
    requires j < k <= |run|
    requires LoginWaitsAt(env, run, j + 1, tag, c)
    requires forall m :: j < m < k ==> SparesLogin(run[m], tag) && run[m].instant - c.createdAt < 300_000
    ensures LoginWaitsAt(env, run, k, tag, c)
  {
    if k > j + 1 {
      LoginWaits(env, run, j, k - 1, tag, c);
      LoginWaitsOn(env, run, k - 1, tag, c);
    }
  }

  // ----- Registration -----

  /** Message j asks, from the tag, for the name under the key, and is answered with a nonce. */
  ghost predicate AsksAt(env: Env, run: Run, j: nat, tag: Tag, name: string, key: string) {
    && j < |run|
    && run[j].request == Register(tag, Some(name), Some(key))
    && Registrable(After(env, run[..j]), run[j])
  }

  /** Message k is the tag's answer: the nonce of message j, signed under the key, within 300 s. */
  ghost predicate AnswersAt(env: Env, run: Run, j: nat, k: nat, tag: Tag, key: string) {
    && j < k < |run|
    && run[k].request.RegistrationResponse? && run[k].request.tag == tag && run[k].request.signature.Some?
    && env.verify(key, Nonce(After(env, run[..j]).nextNonce), run[k].request.signature.value)
    && forall m :: j < m <= k ==> run[m].instant - run[j].instant < 300_000
  }

  /**
   A registration that was answered with a nonce and is completed in time, with no other registration
   message from that tag in between, creates the account if the name is still free then.
   */
  lemma RegistrationSucceeds(env: Env, run: Run, j: nat, k: nat, tag: Tag, name: string, key: string)
    requires AsksAt(env, run, j, tag, name, key) && AnswersAt(env, run, j, k, tag, key)
    requires forall m :: j < m < k ==> SparesRegistration(run[m], tag)
    requires name !in After(env, run[..k]).users
    ensures name in After(env, run[..k + 1]).users
    ensures After(env, run[..k + 1]).users[name] == User(key, tag)
  {
    var c := Challenge(name, key, After(env, run[..j]).nextNonce, run[j].instant);
    RegisterIff(env, After(env, run[..j]), run[j]);
    PrefixStep(env, run, j);
    RegistrationWaits(env, run, j, k, tag, c);
    RegistrationResponseIff(env, After(env, run[..k]), run[k]);
    PrefixStep(env, run, k);
  }

  /** Nobody but the asker of message j asks for the name among the first k messages. */
  ghost predicate NoRival(run: Run, j: nat, k: nat, name: string)
    requires k <= |run|
  {
    forall m :: 0 <= m < k && m != j && run[m].request.Register? ==> run[m].request.name != Some(name)
  }

  lemma NotYetRegistered(env: Env, run: Run, j: nat, k: nat, tag: Tag, name: string, key: string, a: nat, b: nat)
    requires j < k <= |run| && run[j].request.Register? && run[j].request.tag == tag
    requires forall m :: j < m < k ==> SparesRegistration(run[m], tag)
    requires NoRival(run, j, k, name)
    ensures !RegisteredBy(env, run[..k], a, b, name, key)
  {
    if a < k && b < k {
      assert run[..k][a] == run[a];
      assert run[..k][b] == run[b];
    }
  }

  lemma StillFree(env: Env, run: Run, j: nat, k: nat, tag: Tag, name: string)
    requires j < k <= |run| && run[j].request.Register? && run[j].request.tag == tag
    requires forall m :: j < m < k ==> SparesRegistration(run[m], tag)
    requires NoRival(run, j, k, name)
    ensures name !in After(env, run[..k]).users
  {
    var users := After(env, run[..k]).users;
    var key := if name in users then users[name].publicKey else "";
    forall a: nat, b: nat ensures !RegisteredBy(env, run[..k], a, b, name, key) {
      NotYetRegistered(env, run, j, k, tag, name, key, a, b);
    }
    if name in users {
      RegistrationProvenance(env, run[..k], name);
    }
  }

  /**
   Without any rival the name needs no check: whoever alone asks for a name, from a tag that sends
   nothing else about registration, and answers in time, ends up owning it.
   */
  lemma OnlyAskerGetsTheName(env: Env, run: Run, j: nat, k: nat, tag: Tag, name: string, key: string)
    requires AsksAt(env, run, j, tag, name, key) && AnswersAt(env, run, j, k, tag, key)
    requires forall m :: j < m < k ==> SparesRegistration(run[m], tag)
    requires NoRival(run, j, k, name)
    ensures var users := After(env, run[..k + 1]).users; name in users && users[name] == User(key, tag)
    ensures name in After(env, run).users && After(env, run).users[name].publicKey == key
  {
    StillFree(env, run, j, k, tag, name);
    RegistrationSucceeds(env, run, j, k, tag, name, key);
    KeyNeverChanges(env, run, k + 1);
  }

  // ----- Login -----

  /** A login of an existing user, answered in time under the user's key, moves the user to the new tag. */
  lemma LoginSucceeds(env: Env, run: Run, j: nat, k: nat, tag: Tag, name: string)
    requires j < k < |run|
    requires run[j].request == Login(tag, Some(name)) && MayLogIn(After(env, run[..j]), run[j])
    requires run[k].request.LoginResponse? && run[k].request.tag == tag && run[k].request.signature.Some?
    requires env.verify(After(env, run[..j]).users[name].publicKey, Nonce(After(env, run[..j]).nextNonce),
                        run[k].request.signature.value)
    requires forall m :: j < m < k ==> SparesLogin(run[m], tag)
    requires forall m :: j < m <= k ==> run[m].instant - run[j].instant < 300_000
    ensures name in After(env, run[..k + 1]).users
    ensures After(env, run[..k + 1]).users[name] == User(After(env, run[..j]).users[name].publicKey, tag)
  {
    var key := After(env, run[..j]).users[name].publicKey;
    var c := Challenge(name, key, After(env, run[..j]).nextNonce, run[j].instant);
    LoginIff(env, After(env, run[..j]), run[j]);
    PrefixStep(env, run, j);
    LoginWaits(env, run, j, k, tag, c);
    assert run[..k][..j] == run[..j];
    KeyNeverChanges(env, run[..k], j);
    LoginResponseIff(env, After(env, run[..k]), run[k]);
    PrefixStep(env, run, k);
  }
}
