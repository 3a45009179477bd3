/** How users and members of a group server come to be, over whole runs. */
module GroupMembership {
  import opened Base64
  import opened Sequences
  import opened Validation
  import opened GroupSpec

  // ----- What is never taken back -----

  ghost predicate KeepsUsers(a: Accounts, b: Accounts) {
    && (forall name :: name in a.users ==> name in b.users && b.users[name] == a.users[name])
    && a.members <= b.members
    && (a.groupExists ==> b.groupExists)
  }

  lemma StepKeepsUsers(env: Env, s: State, i: Input)
    ensures KeepsUsers(s.accounts, NextAccounts(env, s, i))
  {
  }

  /** A user's key is the first one admitted, for ever; members and the group row stay. */
  lemma {:induction false} UsersStay(env: Env, run: Run, k: nat)
    requires k <= |run|
    ensures KeepsUsers(After(env, run[..k]).accounts, After(env, run).accounts)
  {
    if k == |run| {
      assert run[..k] == run;
    } else {
      assert run[..|run| - 1][..k] == run[..k];
      UsersStay(env, run[..|run| - 1], k);
      StepKeepsUsers(env, Seen(env, run), run[|run| - 1]);
    }
  }

  /** A pending key is never overwritten: it stays until an approval removes it. */
  lemma PendingFirstWriter(env: Env, s: State, i: Input, name: string)
    requires name in s.accounts.pending
    ensures var next := NextAccounts(env, s, i);
            if name in next.pending then next.pending[name] == s.accounts.pending[name]
            else && ApproveOk(env, s, i) && i.request.username == name
                 && name !in s.accounts.users && name in next.users
                 && next.users[name] == s.accounts.pending[name]
  {
  }

  // ----- Members -----

  ghost predicate MembersAreUsers(a: Accounts) {
    && (forall name :: name in a.members ==> name in a.users)
    && (a.members != {} ==> a.groupExists)
  }

  lemma StepMembers(env: Env, s: State, i: Input)
    requires MembersAreUsers(s.accounts)
    ensures MembersAreUsers(NextAccounts(env, s, i))
  {
  }

  lemma {:induction false} MembersAreUsersAlways(env: Env, run: Run)
    ensures MembersAreUsers(After(env, run).accounts)
  {
    if run != [] {
      MembersAreUsersAlways(env, run[..|run| - 1]);
      StepMembers(env, Seen(env, run), run[|run| - 1]);
    }
  }

  /**
   A newly added user becomes a member in the same step if and only if the group row exists
   when the step ends; the admin's registration is what creates the row.
   */
  lemma NewUserIsMemberIff(env: Env, s: State, i: Input, name: string)
    requires MembersAreUsers(s.accounts)
    requires name !in s.accounts.users && name in NextAccounts(env, s, i).users
    ensures name in NextAccounts(env, s, i).members <==> NextAccounts(env, s, i).groupExists
    ensures s.accounts.groupExists ==> name in NextAccounts(env, s, i).members
  {
  }

  /** The message at position j makes the name a user. */
  ghost predicate JoinsAt(env: Env, run: Run, j: nat, name: string) {
    && j < |run|
    && name !in After(env, run[..j]).accounts.users
    && name in After(env, run[..j + 1]).accounts.users
  }

  /** The server starts again at position k, with the group row in place. */
  ghost predicate BackfillsAt(env: Env, run: Run, k: nat) {
    k < |run| && run[k].request.Restart? && After(env, run[..k]).accounts.groupExists
  }

  /** Only a restart with the group row in place makes an old user a member, and then it does. */
  lemma OldUserJoinsIff(env: Env, s: State, i: Input, name: string)
    requires name in s.accounts.users && name !in s.accounts.members
    ensures name in NextAccounts(env, s, i).members <==> i.request.Restart? && s.accounts.groupExists
  {
  }

  ghost predicate BackfilledFrom(env: Env, run: Run, j: nat) {
    exists k :: j < k && BackfillsAt(env, run, k)
  }

  lemma BackfillStep(env: Env, run: Run, j: nat)
    requires j + 1 < |run|
    ensures BackfilledFrom(env, run, j)
       <==> BackfilledFrom(env, run[..|run| - 1], j) || BackfillsAt(env, run, |run| - 1)
  {
    var prefix := run[..|run| - 1];
    forall k: nat | k < |prefix| ensures BackfillsAt(env, run, k) <==> BackfillsAt(env, prefix, k) {
      assert prefix[..k] == run[..k];
    }
  }

  /**
   A user is a member if and only if the group row existed right after it joined, or the server
   was started again later with the row in place.
   */
  lemma {:induction false} MemberIff(env: Env, run: Run, j: nat, name: string)
    requires JoinsAt(env, run, j, name)
    ensures name in After(env, run).accounts.members
       <==> After(env, run[..j + 1]).accounts.groupExists || BackfilledFrom(env, run, j)
  {
    var prefix := run[..|run| - 1];
    if j + 1 == |run| {
      assert run[..j + 1] == run && run[..j] == prefix;
      JustJoined(env, run, name);
    } else {
      assert prefix[..j] == run[..j] && prefix[..j + 1] == run[..j + 1];
      MemberIff(env, prefix, j, name);
      BackfillStep(env, run, j);
      UsersStay(env, prefix, j + 1);
      LaterMember(env, run, name);
    }
  }

  lemma JustJoined(env: Env, run: Run, name: string)
    requires run != [] && name !in After(env, run[..|run| - 1]).accounts.users
    requires name in After(env, run).accounts.users
    ensures name in After(env, run).accounts.members <==> After(env, run).accounts.groupExists
    ensures !BackfilledFrom(env, run, |run| - 1)
  {
    MembersAreUsersAlways(env, run[..|run| - 1]);
    NewUserIsMemberIff(env, Seen(env, run), run[|run| - 1], name);
  }

  lemma LaterMember(env: Env, run: Run, name: string)
    requires run != [] && name in After(env, run[..|run| - 1]).accounts.users
    ensures name in After(env, run).accounts.members
       <==> name in After(env, run[..|run| - 1]).accounts.members || BackfillsAt(env, run, |run| - 1)
  {
    var s, i := Seen(env, run), run[|run| - 1];
    StepKeepsUsers(env, s, i);
    if name !in s.accounts.members {
      OldUserJoinsIff(env, s, i, name);
    }
  }

  /** As long as a name is not a user, its pending key is the first one written. */
  lemma {:induction false} PendingKeyStays(env: Env, run: Run, k: nat, name: string)
    requires k <= |run| && name in After(env, run[..k]).accounts.pending
    requires name !in After(env, run).accounts.users
    ensures name in After(env, run).accounts.pending
    ensures After(env, run).accounts.pending[name] == After(env, run[..k]).accounts.pending[name]
  {
    if k == |run| {
      assert run[..k] == run;
    } else {
      var prefix := run[..|run| - 1];
      assert prefix[..k] == run[..k];
      StepKeepsUsers(env, Seen(env, run), run[|run| - 1]);
      PendingKeyStays(env, prefix, k, name);
      PendingFirstWriter(env, Seen(env, run), run[|run| - 1], name);
    }
  }

  // ----- Provenance -----

  /** Message i is a timely registration of the name under the key, signed with that key. */
  ghost predicate AppliedBy(env: Env, i: Input, name: string, key: string) {
    && i.request.Register? && i.request.username == name && i.request.publicKey == key
    && ValidUsername(name) && Timely(i.unix, i.request.timestamp)
    && env.verify(key, RegisterText(name, i.request.address, i.request.timestamp), i.request.signature)
  }

  /** Message j is the admin's timely approval of the name for this server's group. */
  ghost predicate ApprovedBy(env: Env, j: Input, name: string) {
    && j.request.Approve? && j.request.username == name && j.request.group == env.groupId
    && Timely(j.unix, j.request.timestamp)
    && env.adminKey.Some?
    && env.verify(env.adminKey.value, ApproveText(name, env.groupId, j.request.timestamp), j.request.signature)
  }

  ghost predicate PendingSince(env: Env, run: Run, i: nat, name: string, key: string) {
    && i < |run| && AppliedBy(env, run[i], name, key)
    && name !in After(env, run[..i]).accounts.pending
    && name in After(env, run[..i + 1]).accounts.pending
  }

  lemma PendingExtends(env: Env, run: Run, i: nat, name: string, key: string)
    requires run != [] && PendingSince(env, run[..|run| - 1], i, name, key)
    ensures PendingSince(env, run, i, name, key)
  {
    var prefix := run[..|run| - 1];
    assert prefix[..i] == run[..i] && prefix[..i + 1] == run[..i + 1];
  }

  lemma StepPending(env: Env, s: State, i: Input, name: string)
    requires name in NextAccounts(env, s, i).pending
    ensures var key := NextAccounts(env, s, i).pending[name];
            || (name in s.accounts.pending && s.accounts.pending[name] == key)
            || (name !in s.accounts.pending && AppliedBy(env, i, name, key))
  {
  }

  lemma {:induction false} PendingProvenance(env: Env, run: Run, name: string)
    requires name in After(env, run).accounts.pending
    ensures exists i :: PendingSince(env, run, i, name, After(env, run).accounts.pending[name])
  {
    var prefix, last := run[..|run| - 1], run[|run| - 1];
    var key := After(env, run).accounts.pending[name];
    StepPending(env, Seen(env, run), last, name);
    if name in Seen(env, run).accounts.pending {
      PendingProvenance(env, prefix, name);
      var i :| PendingSince(env, prefix, i, name, key);
      PendingExtends(env, run, i, name, key);
    } else {
      assert run[..|run|] == run;
      assert PendingSince(env, run, |run| - 1, name, key);
    }
  }

  lemma JoinsExtends(env: Env, run: Run, j: nat, name: string)
    requires run != [] && JoinsAt(env, run[..|run| - 1], j, name)
    ensures JoinsAt(env, run, j, name)
  {
    var prefix := run[..|run| - 1];
    assert prefix[..j] == run[..j] && prefix[..j + 1] == run[..j + 1];
  }

  /** The user joined at message j: as the admin, or by an approval of a pending registration i. */
  ghost predicate AdmittedBy(env: Env, run: Run, i: nat, j: nat, name: string, key: string) {
    && i <= j
    && JoinsAt(env, run, j, name)
    && AppliedBy(env, run[i], name, key)
    && if i == j then IsAdminKey(env, key)
       else PendingSince(env, run, i, name, key) && ApprovedBy(env, run[j], name)
  }

  lemma AdmittedExtends(env: Env, run: Run, i: nat, j: nat, name: string, key: string)
    requires run != [] && AdmittedBy(env, run[..|run| - 1], i, j, name, key)
    ensures AdmittedBy(env, run, i, j, name, key)
  {
    JoinsExtends(env, run, j, name);
    if i < j {
      PendingExtends(env, run, i, name, key);
    }
  }

  lemma StepUsers(env: Env, s: State, i: Input, name: string)
    requires name in NextAccounts(env, s, i).users
    ensures var key := NextAccounts(env, s, i).users[name];
            || (name in s.accounts.users && s.accounts.users[name] == key)
            || (name !in s.accounts.users && AppliedBy(env, i, name, key) && IsAdminKey(env, key))
            || (&& name !in s.accounts.users && ApprovedBy(env, i, name)
                && name in s.accounts.pending && s.accounts.pending[name] == key)
  {
  }

  /**
   Every user of every run either registered under the admin key, or was put in pending by its
   own signed registration and later approved by the admin, in time, for this very group.
   */
  lemma {:induction false} MembershipProvenance(env: Env, run: Run, name: string)
    requires name in After(env, run).accounts.users
    ensures exists i, j :: AdmittedBy(env, run, i, j, name, After(env, run).accounts.users[name])
  {
    var prefix, last, s := run[..|run| - 1], run[|run| - 1], Seen(env, run);
    var key := After(env, run).accounts.users[name];
    StepUsers(env, s, last, name);
    assert run[..|run|] == run;
    if name in s.accounts.users {
      MembershipProvenance(env, prefix, name);
      var i, j :| AdmittedBy(env, prefix, i, j, name, key);
      AdmittedExtends(env, run, i, j, name, key);
    } else if ApprovedBy(env, last, name) {
      PendingProvenance(env, prefix, name);
      var i :| PendingSince(env, prefix, i, name, key);
      PendingExtends(env, run, i, name, key);
      assert AdmittedBy(env, run, i, |run| - 1, name, key);
    } else {
      assert AdmittedBy(env, run, |run| - 1, |run| - 1, name, key);
    }
  }

  // ----- Key packages -----

  ghost predicate PackagesOwned(s: State) {
    forall name :: name in s.packages ==> name in s.accounts.pending || name in s.accounts.users
  }

  lemma StepPackagesOwned(env: Env, s: State, i: Input)
    requires PackagesOwned(s)
    ensures PackagesOwned(Handle(env, s, i))
  {
  }

  lemma {:induction false} PackagesOwnedAlways(env: Env, run: Run)
    ensures PackagesOwned(After(env, run))
  {
    if run != [] {
      PackagesOwnedAlways(env, run[..|run| - 1]);
      StepPackagesOwned(env, Seen(env, run), run[|run| - 1]);
    }
  }

  ghost predicate Waits(s: State, name: string) {
    name in s.accounts.pending && name !in s.accounts.users
  }

  /** A name that waits on keeps its key package. */
  lemma WaitingKeepsPackage(env: Env, s: State, i: Input, name: string)
    requires Waits(Handle(env, s, i), name) && name in s.accounts.pending
    ensures Waits(s, name) && PackageOf(NextPackages(env, s, i), name) == PackageOf(s.packages, name)
  {
    StepKeepsUsers(env, s, i);
  }

  /** A name that begins to wait has the key package of its registration. */
  lemma NewlyWaiting(env: Env, s: State, i: Input, name: string)
    requires PackagesOwned(s)
    requires Waits(Handle(env, s, i), name) && name !in s.accounts.pending
    ensures PackageOf(NextPackages(env, s, i), name) == PackageIn(i.request.keyPackage)
  {
    StepKeepsUsers(env, s, i);
  }

  /** The registration that put the name in pending brought this key package, or none. */
  ghost predicate PackageSince(env: Env, run: Run, i: nat, name: string, key: string, package: Option<Bytes>) {
    && PendingSince(env, run, i, name, key)
    && PackageIn(run[i].request.keyPackage) == package
  }

  lemma PackageExtends(env: Env, run: Run, i: nat, name: string, key: string, package: Option<Bytes>)
    requires run != [] && PackageSince(env, run[..|run| - 1], i, name, key, package)
    ensures PackageSince(env, run, i, name, key, package)
  {
    PendingExtends(env, run, i, name, key);
  }

  /** What the name waits with. */
  ghost predicate WaitsWith(s: State, name: string, key: string, package: Option<Bytes>) {
    Waits(s, name) && s.accounts.pending[name] == key && PackageOf(s.packages, name) == package
  }

  lemma StepWaits(env: Env, s: State, i: Input, name: string, key: string, package: Option<Bytes>)
    requires PackagesOwned(s) && WaitsWith(Handle(env, s, i), name, key, package)
    ensures || WaitsWith(s, name, key, package)
            || (name !in s.accounts.pending && AppliedBy(env, i, name, key)
                && PackageIn(i.request.keyPackage) == package)
  {
    StepPending(env, s, i, name);
    if name in s.accounts.pending {
      WaitingKeepsPackage(env, s, i, name);
    } else {
      NewlyWaiting(env, s, i, name);
    }
  }

  lemma {:induction false} PackageProvenance(env: Env, run: Run, name: string, key: string, package: Option<Bytes>)
    requires WaitsWith(After(env, run), name, key, package)
    ensures exists i :: PackageSince(env, run, i, name, key, package)
  {
    var prefix := run[..|run| - 1];
    PackagesOwnedAlways(env, prefix);
    StepWaits(env, Seen(env, run), run[|run| - 1], name, key, package);
    if WaitsWith(After(env, prefix), name, key, package) {
      PackageProvenance(env, prefix, name, key, package);
      var i :| PackageSince(env, prefix, i, name, key, package);
      PackageExtends(env, run, i, name, key, package);
    } else {
      assert run[..|run|] == run;
      assert PackageSince(env, run, |run| - 1, name, key, package);
    }
  }

  function Readable(text: Option<string>): Option<string> {
    if PackageIn(text).Some? then text else None
  }

  lemma TextOfPackage(packages: Packages, name: string, text: Option<string>)
    requires PackageOf(packages, name) == PackageIn(text)
    ensures PackageText(packages, name) == Readable(text)
  {
    if PackageIn(text).Some? {
      EncodeOfDecode(text.value);
    }
  }

  /** What an approval that goes through does to its name. */
  lemma AdmittedMoves(env: Env, s: State, i: Input)
    requires Approval(env, s, i).Admitted?
    ensures var name, next := i.request.username, NextAccounts(env, s, i);
            && name in s.accounts.pending && name !in s.accounts.users
            && name in next.users && next.users[name] == s.accounts.pending[name]
            && Approval(env, s, i).keyPackage == PackageText(s.packages, name)
  {
  }

  /**
   An approval hands the admin exactly the key package text of the very registration whose key it
   admits, or none if that registration carried none that decodes.
   */
  lemma ApprovalReturnsPackage(env: Env, run: Run)
    requires run != [] && Approval(env, Seen(env, run), run[|run| - 1]).Admitted?
    ensures var name := run[|run| - 1].request.username;
            var reply, a := Approval(env, Seen(env, run), run[|run| - 1]), After(env, run).accounts;
            && name in a.users
            && exists i: nat :: && i < |run| - 1
                                && PendingSince(env, run, i, name, a.users[name])
                                && reply.keyPackage == Readable(run[i].request.keyPackage)
  {
    var prefix, name := run[..|run| - 1], run[|run| - 1].request.username;
    var s := After(env, prefix);
    AdmittedMoves(env, Seen(env, run), run[|run| - 1]);
    var key, package := s.accounts.pending[name], PackageOf(s.packages, name);
    PackageProvenance(env, prefix, name, key, package);
    var i: nat :| PackageSince(env, prefix, i, name, key, package);
    PendingExtends(env, run, i, name, key);
    TextOfPackage(s.packages, name, run[i].request.keyPackage);
  }

  /** A server without an admin key never admits anyone. */
  lemma NoAdminNoUsers(env: Env, run: Run)
    requires env.adminKey.None?
    ensures After(env, run).accounts.users == map[] && After(env, run).accounts.members == {}
  {
    forall name | name in After(env, run).accounts.users ensures false {
      MembershipProvenance(env, run, name);
    }
    MembersAreUsersAlways(env, run);
  }
}
