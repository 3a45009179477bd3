/** The client's commit catch-up: replay whatever the server still holds and ignore what does not apply. */
module CommitReplay {
  import opened Base64
  import opened GroupDelivery
  import opened GroupIds
  import opened GroupSpec
  import opened Sequences
  import CommitBuffer

  /**
   An MLS group state machine, known only through this interface: processing a commit may fail,
   and states and commits carry epochs.
   */
  datatype Mls<!G> = Mls(process: (G, Bytes) -> Option<G>, epochOf: G -> nat, commitEpoch: Bytes -> nat)

  /** Section 12.4.2 of RFC 9420: a commit applies only at its own epoch and moves to the next. */
  ghost predicate EpochChecked<G(!new)>(mls: Mls<G>) {
    forall g: G, c: Bytes :: mls.process(g, c).Some? ==>
      && mls.commitEpoch(c) == mls.epochOf(g)
      && mls.epochOf(mls.process(g, c).value) == mls.epochOf(g) + 1
  }

  /** A commit as received; None stands for an entry without data or with undecodable data. */
  type Wire = Option<Bytes>

  function Apply<G>(mls: Mls<G>, g: G, entry: Wire): G {
    if entry.None? then g
    else
      match mls.process(g, entry.value)
      case Some(next) => next
      case None => g
  }

  function Replay<G>(mls: Mls<G>, g: G, entries: seq<Wire>): G {
    if entries == [] then g
    else Apply(mls, Replay(mls, g, entries[..|entries| - 1]), entries[|entries| - 1])
  }

  /** The loop over a syncEpoch response: failures are logged and skipped. */
  method ProcessCommits<G>(mls: Mls<G>, start: G, entries: seq<Wire>) returns (g: G)
    ensures g == Replay(mls, start, entries)
  {
    g := start;
    for k := 0 to |entries|
      invariant g == Replay(mls, start, entries[..k])
    {
      assert entries[..k + 1][..k] == entries[..k];
      if entries[k].Some? {
        match mls.process(g, entries[k].value) {
          case Some(next) => g := next;
          case None =>
        }
      }
    }
    assert entries[..|entries|] == entries;
  }

  function Sent(): Bytes -> Wire { (c: Bytes) => Some(c) }

  lemma ReplaySnoc<G>(mls: Mls<G>, g: G, entries: seq<Wire>, entry: Wire)
    ensures Replay(mls, g, entries + [entry]) == Apply(mls, Replay(mls, g, entries), entry)
  {
    assert (entries + [entry])[..|entries|] == entries;
  }

  // ----- The accepted history -----

  /**
   The state of a member that was there from the founding and saw the first k commits of the log
   in order. The log may hold anything: commits that fail are passed over.
   */
  function HistoryAt<G>(mls: Mls<G>, founding: G, log: seq<Bytes>, k: nat): G
    requires k <= |log|
  {
    if k == 0 then founding else Apply(mls, HistoryAt(mls, founding, log, k - 1), Some(log[k - 1]))
  }

  ghost predicate NotEarly<G>(mls: Mls<G>, founding: G, log: seq<Bytes>, i: nat)
    requires i < |log|
  {
    mls.commitEpoch(log[i]) <= mls.epochOf(HistoryAt(mls, founding, log, i))
  }

  /** No commit entered the log before the group had reached its epoch. */
  ghost predicate NoneEarly<G>(mls: Mls<G>, founding: G, log: seq<Bytes>) {
    forall i :: 0 <= i < |log| ==> NotEarly(mls, founding, log, i)
  }

  lemma {:induction false} EpochsRise<G(!new)>(mls: Mls<G>, founding: G, log: seq<Bytes>, i: nat, j: nat)
    requires EpochChecked(mls) && i <= j <= |log|
    ensures var a, b := HistoryAt(mls, founding, log, i), HistoryAt(mls, founding, log, j);
            mls.epochOf(a) <= mls.epochOf(b) && (mls.epochOf(a) == mls.epochOf(b) ==> a == b)
  {
    if i < j {
      EpochsRise(mls, founding, log, i, j - 1);
      assert mls.process(HistoryAt(mls, founding, log, j - 1), log[j - 1]).Some? ==>
          mls.commitEpoch(log[j - 1]) == mls.epochOf(HistoryAt(mls, founding, log, j - 1));
    }
  }

  lemma TriedCommitFails<G(!new)>(mls: Mls<G>, before: G, c: Bytes, next: G, now: G)
    requires EpochChecked(mls) && next == Apply(mls, before, Some(c)) && mls.commitEpoch(c) <= mls.epochOf(before)
    requires mls.epochOf(next) <= mls.epochOf(now) && (mls.epochOf(next) == mls.epochOf(now) ==> next == now)
    ensures mls.process(now, c).None?
  {
    assert mls.process(now, c).Some? ==> mls.commitEpoch(c) == mls.epochOf(now);
    assert mls.process(before, c).Some? ==> mls.epochOf(next) == mls.epochOf(before) + 1;
  }

  /** A commit the history has passed, taken or not, never applies again. */
  lemma PassedCommitFails<G(!new)>(mls: Mls<G>, founding: G, log: seq<Bytes>, i: nat, k: nat)
    requires EpochChecked(mls) && NoneEarly(mls, founding, log) && i < k <= |log|
    ensures mls.process(HistoryAt(mls, founding, log, k), log[i]).None?
  {
    assert NotEarly(mls, founding, log, i);
    EpochsRise(mls, founding, log, i + 1, k);
    TriedCommitFails(mls, HistoryAt(mls, founding, log, i), log[i], HistoryAt(mls, founding, log, i + 1),
                     HistoryAt(mls, founding, log, k));
  }

  lemma SentSnoc(log: seq<Bytes>, m: nat, n: nat)
    requires m <= n < |log|
    ensures Map(Sent(), log[m..n + 1]) == Map(Sent(), log[m..n]) + [Some(log[n])]
  {
    assert log[m..n + 1] == log[m..n] + [log[n]];
    MapSnoc(Sent(), log[m..n], log[n]);
  }

  lemma ReplayLonger<G>(mls: Mls<G>, g: G, shorter: seq<Wire>, entry: Wire, longer: seq<Wire>, before: G, after: G)
    requires longer == shorter + [entry] && Replay(mls, g, shorter) == before && Apply(mls, before, entry) == after
    ensures Replay(mls, g, longer) == after
  {
    ReplaySnoc(mls, g, shorter, entry);
  }

  /** The state of a member at commit k that has also been given the commits up to n. */
  function Ahead<G>(mls: Mls<G>, founding: G, log: seq<Bytes>, k: nat, n: nat): G
    requires k <= |log| && n <= |log|
  {
    HistoryAt(mls, founding, log, if k < n then n else k)
  }

  lemma RejoinsNext<G(!new)>(mls: Mls<G>, founding: G, log: seq<Bytes>, k: nat, n: nat)
    requires EpochChecked(mls) && NoneEarly(mls, founding, log) && k <= |log| && 0 < n <= |log|
    ensures Apply(mls, Ahead(mls, founding, log, k, n - 1), Some(log[n - 1])) == Ahead(mls, founding, log, k, n)
  {
    if n <= k {
      PassedCommitFails(mls, founding, log, n - 1, k);
    }
  }

  lemma RejoinsMore<G(!new)>(mls: Mls<G>, founding: G, log: seq<Bytes>, m: nat, k: nat, n: nat)
    requires EpochChecked(mls) && NoneEarly(mls, founding, log)
    requires m <= k <= |log| && m < n <= |log|
    requires Replay(mls, HistoryAt(mls, founding, log, k), Map(Sent(), log[m..n - 1]))
          == Ahead(mls, founding, log, k, n - 1)
    ensures Replay(mls, HistoryAt(mls, founding, log, k), Map(Sent(), log[m..n])) == Ahead(mls, founding, log, k, n)
  {
    SentSnoc(log, m, n - 1);
    RejoinsNext(mls, founding, log, k, n);
    ReplayLonger(mls, HistoryAt(mls, founding, log, k), Map(Sent(), log[m..n - 1]), Some(log[n - 1]),
                 Map(Sent(), log[m..n]), Ahead(mls, founding, log, k, n - 1), Ahead(mls, founding, log, k, n));
  }

  /** A member at commit k, given commits m to n of the log with m <= k, ends at commit max(k, n). */
  lemma {:induction false} RejoinsUpto<G(!new)>(mls: Mls<G>, founding: G, log: seq<Bytes>, m: nat, k: nat, n: nat)
    requires EpochChecked(mls) && NoneEarly(mls, founding, log)
    requires m <= k <= |log| && m <= n <= |log|
    ensures Replay(mls, HistoryAt(mls, founding, log, k), Map(Sent(), log[m..n])) == Ahead(mls, founding, log, k, n)
    decreases n
  {
    if n == m {
      assert log[m..m] == [];
    } else {
      RejoinsUpto(mls, founding, log, m, k, n - 1);
      RejoinsMore(mls, founding, log, m, k, n);
    }
  }

  /**
   Whatever the log holds beside the accepted commits, replaying all of it brings a member at any
   point of the history to the newest state, as long as no commit came early.
   */
  lemma ReplayConverges<G(!new)>(mls: Mls<G>, founding: G, log: seq<Bytes>, k: nat)
    requires EpochChecked(mls) && NoneEarly(mls, founding, log) && k <= |log|
    ensures Replay(mls, HistoryAt(mls, founding, log, k), Map(Sent(), log)) == HistoryAt(mls, founding, log, |log|)
  {
    assert log[0..|log|] == log;
    RejoinsUpto(mls, founding, log, 0, k, |log|);
  }

  /** A second replay, by a member already at the newest state, changes nothing. */
  lemma ReplayTwice<G(!new)>(mls: Mls<G>, founding: G, log: seq<Bytes>, k: nat)
    requires EpochChecked(mls) && NoneEarly(mls, founding, log) && k <= |log|
    ensures var once := Replay(mls, HistoryAt(mls, founding, log, k), Map(Sent(), log));
            Replay(mls, once, Map(Sent(), log)) == once
  {
    ReplayConverges(mls, founding, log, k);
    ReplayConverges(mls, founding, log, |log|);
  }

  /** A member whose epoch no entry carries is left where it was. */
  lemma {:induction false} ReplayOutside<G(!new)>(mls: Mls<G>, g: G, entries: seq<Bytes>)
    requires EpochChecked(mls)
    requires forall i :: 0 <= i < |entries| ==> mls.commitEpoch(entries[i]) != mls.epochOf(g)
    ensures Replay(mls, g, Map(Sent(), entries)) == g
  {
    if entries != [] {
      var t, c := entries[..|entries| - 1], entries[|entries| - 1];
      assert entries == t + [c];
      ReplayOutside(mls, g, t);
      MapSnoc(Sent(), t, c);
      ReplaySnoc(mls, g, Map(Sent(), t), Some(c));
    }
  }

  // ----- A suffix of the log -----

  /** From position m on, the log holds no commit of an epoch the group had already left. */
  ghost predicate NoneStale<G>(mls: Mls<G>, founding: G, log: seq<Bytes>, m: nat)
    requires m <= |log|
  {
    forall i :: m <= i < |log| ==> mls.commitEpoch(log[i]) >= mls.epochOf(HistoryAt(mls, founding, log, m))
  }

  /** A member that misses no accepted commit before the suffix reaches the newest state. */
  lemma SuffixConverges<G(!new)>(mls: Mls<G>, founding: G, log: seq<Bytes>, m: nat, k: nat)
    requires EpochChecked(mls) && NoneEarly(mls, founding, log) && k <= |log| && m <= |log|
    requires mls.epochOf(HistoryAt(mls, founding, log, k)) >= mls.epochOf(HistoryAt(mls, founding, log, m))
    ensures Replay(mls, HistoryAt(mls, founding, log, k), Map(Sent(), log[m..]))
         == HistoryAt(mls, founding, log, |log|)
  {
    assert log[m..|log|] == log[m..];
    if k < m {
      EpochsRise(mls, founding, log, k, m);
      RejoinsUpto(mls, founding, log, m, m, |log|);
    } else {
      RejoinsUpto(mls, founding, log, m, k, |log|);
    }
  }

  /** Any other member stays where it was, short of the newest state. */
  lemma SuffixTooLate<G(!new)>(mls: Mls<G>, founding: G, log: seq<Bytes>, m: nat, k: nat)
    requires EpochChecked(mls) && m <= |log| && k <= |log| && NoneStale(mls, founding, log, m)
    requires mls.epochOf(HistoryAt(mls, founding, log, k)) < mls.epochOf(HistoryAt(mls, founding, log, m))
    ensures Replay(mls, HistoryAt(mls, founding, log, k), Map(Sent(), log[m..]))
         == HistoryAt(mls, founding, log, k) != HistoryAt(mls, founding, log, |log|)
  {
    EpochsRise(mls, founding, log, m, |log|);
    ReplayOutside(mls, HistoryAt(mls, founding, log, k), log[m..]);
  }

  // ----- Server and client together -----

  function Data(): CommitBuffer.Commit -> Bytes { (c: CommitBuffer.Commit) => c.data }

  /** An entry as it reaches the client: encoded by the server, decoded again. */
  function OverTheWire(): CommitBuffer.Commit -> Wire { (c: CommitBuffer.Commit) => Decode(Encode(c.data)) }

  /** The member after the reply to its request; an error reply changes nothing. */
  function AfterReply<G>(mls: Mls<G>, g: G, reply: Option<seq<CommitBuffer.Commit>>): G {
    match reply
    case Some(commits) => Replay(mls, g, Map(OverTheWire(), commits))
    case None => g
  }

  /** What arrives is what was buffered. */
  lemma {:induction false} WireIsData(commits: seq<CommitBuffer.Commit>)
    ensures Map(OverTheWire(), commits) == Map(Sent(), Map(Data(), commits))
  {
    if commits != [] {
      var t, c := commits[..|commits| - 1], commits[|commits| - 1];
      assert commits == t + [c];
      WireIsData(t);
      DecodeOfEncode(c.data);
      MapSnoc(OverTheWire(), t, c);
      MapSnoc(Data(), t, c);
      MapSnoc(Sent(), Map(Data(), t), c.data);
    }
  }

  /** Every commit of the group the server has accepted into its buffer, in order. */
  function GroupCommits(env: Env, run: Run, group: string): seq<Bytes> {
    Map(Data(), CommitBuffer.GroupLog(EntriesIn(env, run), group))
  }

  lemma AllAfterZero(entries: seq<CommitBuffer.Entry>, group: string)
    ensures CommitBuffer.Later(entries, group, 0) == CommitBuffer.GroupLog(entries, group)
  {
    var log := CommitBuffer.GroupLog(entries, group);
    CommitBuffer.LogOrdered(entries);
    CommitBuffer.FilterBelow(CommitBuffer.InGroup(group), CommitBuffer.LogOf(entries), |entries| + 1);
    forall c | c in log ensures CommitBuffer.After(0)(c) {
      var i :| 0 <= i < |log| && log[i] == c;
    }
    FilterAll(CommitBuffer.After(0), log);
  }

  lemma MapLastN<T, U>(f: T -> U, n: nat, s: seq<T>)
    ensures Map(f, LastN(n, s)) == LastN(n, Map(f, s))
  {
    if n < |s| {
      var cut := |s| - n;
      assert s == s[..cut] + s[cut..];
      MapConcat(f, s[..cut], s[cut..]);
      assert (Map(f, s[..cut]) + Map(f, s[cut..]))[cut..] == Map(f, s[cut..]);
    }
  }

  /** How many commits at the front of the log the buffer has already dropped. */
  function Dropped(log: seq<Bytes>): nat {
    if |log| <= CommitBuffer.KEEP then 0 else |log| - CommitBuffer.KEEP
  }

  /** A request from id 0 that passes the server's checks is answered with the log's last hundred. */
  lemma ReplyIsSuffix(env: Env, run: Run, i: Input)
    requires SyncOk(env, Clean(After(env, run), i), i) && i.request.since == 0
    ensures var log := GroupCommits(env, run, i.request.groupName.value);
            var reply := Synced(env, Clean(After(env, run), i), i);
            reply.Some? && Map(OverTheWire(), reply.value) == Map(Sent(), log[Dropped(log)..])
  {
    var group, entries := i.request.groupName.value, EntriesIn(env, run);
    ServerSyncIsLatest(env, run, group, 0);
    AllAfterZero(entries, group);
    MapLastN(Data(), CommitBuffer.KEEP, CommitBuffer.GroupLog(entries, group));
    WireIsData(Synced(env, Clean(After(env, run), i), i).value);
  }

  /** The client's request for an MLS group: the id as base64 text, everything from the beginning. */
  predicate ClientSyncs(i: Input, id: Bytes) {
    i.request.SyncEpoch? && i.request.groupName == Some(Encode(id)) && i.request.since == 0
  }

  /** What the server makes of the client's request. */
  lemma SyncAcceptedIff(env: Env, s: State, i: Input, id: Bytes)
    requires ClientSyncs(i, id)
    ensures SyncOk(env, s, i)
       <==> && Sendable(id)
            && GeneralAllows(s.limits, i.request.tag, i.instant)
            && Authentic(env, s.accounts, i.request.username, GroupNumber(Encode(id), 0), i.request.signature)
            && i.request.username in s.accounts.members
  {
    ValidIff(id);
  }

  /**
   A group whose id is not sendable is cut off: in every run the server buffers none of its commits,
   and a sync leaves any member, in whatever state, as it was.
   */
  lemma UnsendableIsCutOff<G>(mls: Mls<G>, member: G, env: Env, run: Run, i: Input, id: Bytes)
    requires !Sendable(id) && ClientSyncs(i, id)
    ensures GroupCommits(env, run, Encode(id)) == []
    ensures AfterReply(mls, member, Synced(env, Clean(After(env, run), i), i)) == member
  {
    ValidIff(id);
    NothingBuffered(env, run, Encode(id));
    RefusedUnlessSendable(env, Clean(After(env, run), i), i, id);
  }

  /** An id of 32 bytes, for one, is padded, so it is cut off. */
  lemma ThirtyTwoBytesCutOff<G>(mls: Mls<G>, member: G, env: Env, run: Run, i: Input, id: Bytes)
    requires |id| == 32 && ClientSyncs(i, id)
    ensures '=' in Encode(id)
    ensures GroupCommits(env, run, Encode(id)) == []
    ensures AfterReply(mls, member, Synced(env, Clean(After(env, run), i), i)) == member
  {
    EncodedShape(id);
    UnsendableIsCutOff(mls, member, env, run, i, id);
  }

  /** The member lacks no accepted commit that the buffer has dropped. */
  predicate LacksNoDropped<G>(mls: Mls<G>, founding: G, log: seq<Bytes>, k: nat)
    requires k <= |log|
  {
    mls.epochOf(HistoryAt(mls, founding, log, k)) >= mls.epochOf(HistoryAt(mls, founding, log, Dropped(log)))
  }

  lemma AcceptedCatchUp<G(!new)>(mls: Mls<G>, founding: G, env: Env, run: Run, i: Input, k: nat)
    requires EpochChecked(mls) && SyncOk(env, Clean(After(env, run), i), i) && i.request.since == 0
    requires var log := GroupCommits(env, run, i.request.groupName.value);
             k <= |log| && NoneEarly(mls, founding, log)
    ensures var log := GroupCommits(env, run, i.request.groupName.value);
            var member, newest := HistoryAt(mls, founding, log, k), HistoryAt(mls, founding, log, |log|);
            var after := AfterReply(mls, member, Synced(env, Clean(After(env, run), i), i));
            && (LacksNoDropped(mls, founding, log, k) ==> after == newest)
            && (NoneStale(mls, founding, log, Dropped(log)) && !LacksNoDropped(mls, founding, log, k)
                ==> after == member != newest)
  {
    var log := GroupCommits(env, run, i.request.groupName.value);
    ReplyIsSuffix(env, run, i);
    if LacksNoDropped(mls, founding, log, k) {
      SuffixConverges(mls, founding, log, Dropped(log), k);
    } else if NoneStale(mls, founding, log, Dropped(log)) {
      SuffixTooLate(mls, founding, log, Dropped(log), k);
    }
  }

  /**
   One sync as the client sends it, over any run of the server. A refused one changes nothing. An
   accepted one brings a member to the newest state if the member lacks no accepted commit that the
   buffer has dropped, and, where the buffer holds no stale commit, leaves every other member
   unchanged. So, without stale commits, the member ends at the newest state if and only if it was
   there already or the request was accepted and nothing it lacks was dropped.
   */
  lemma CatchUpIff<G(!new)>(mls: Mls<G>, founding: G, env: Env, run: Run, i: Input, id: Bytes, k: nat)
    requires EpochChecked(mls) && ClientSyncs(i, id)
    requires var log := GroupCommits(env, run, Encode(id)); k <= |log| && NoneEarly(mls, founding, log)
    ensures var log := GroupCommits(env, run, Encode(id));
            var member, newest := HistoryAt(mls, founding, log, k), HistoryAt(mls, founding, log, |log|);
            var accepted := SyncOk(env, Clean(After(env, run), i), i);
            var after := AfterReply(mls, member, Synced(env, Clean(After(env, run), i), i));
            && (!accepted ==> after == member)
            && (accepted && LacksNoDropped(mls, founding, log, k) ==> after == newest)
            && (NoneStale(mls, founding, log, Dropped(log)) && !LacksNoDropped(mls, founding, log, k)
                ==> after == member)
            && (NoneStale(mls, founding, log, Dropped(log)) ==>
                (after == newest <==> member == newest || (accepted && LacksNoDropped(mls, founding, log, k))))
  {
    if SyncOk(env, Clean(After(env, run), i), i) {
      AcceptedCatchUp(mls, founding, env, run, i, k);
    }
  }

  /** Hence a member that missed at most a hundred entries catches up whenever its request is accepted. */
  lemma HundredMissedIsFine<G(!new)>(mls: Mls<G>, founding: G, env: Env, run: Run, i: Input, id: Bytes, k: nat)
    requires EpochChecked(mls) && ClientSyncs(i, id)
    requires var log := GroupCommits(env, run, Encode(id));
             k <= |log| <= k + 100 && NoneEarly(mls, founding, log)
    ensures var log := GroupCommits(env, run, Encode(id));
            AfterReply(mls, HistoryAt(mls, founding, log, k), Synced(env, Clean(After(env, run), i), i))
              == HistoryAt(mls, founding, log, if SyncOk(env, Clean(After(env, run), i), i) then |log| else k)
  {
    var log := GroupCommits(env, run, Encode(id));
    EpochsRise(mls, founding, log, Dropped(log), k);
    CatchUpIff(mls, founding, env, run, i, id, k);
  }
}
