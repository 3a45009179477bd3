/** The stock of pre-published key packages and the proof-of-work gate in front of it. */
module KeyPackages {
  import opened Sequences
  import opened ProofOfWork

  const PACKAGE_TTL_SECS := 2_592_000
  const CHALLENGE_WINDOW_SECS := 300
  const BASE_DIFFICULTY := 20

  datatype Bundle = Bundle(keyPackage: string, signature: string, fingerprint: string)

  datatype Package = Package(id: nat, owner: string, bundle: Bundle, createdAt: int)

  datatype Stock = Stock(rows: seq<Package>, nextId: nat)

  function CreatedAt(): Package -> int { (p: Package) => p.createdAt }

  function LiveOf(owner: string, now: int): Package -> bool {
    (p: Package) => p.owner == owner && p.createdAt + PACKAGE_TTL_SECS > now
  }

  function HasId(id: nat): Package -> bool { (p: Package) => p.id == id }

  /** Expiry deletes strictly older rows; a row expiring this second is neither live nor deleted. */
  function Stale(now: int): Package -> bool { (p: Package) => p.createdAt + PACKAGE_TTL_SECS < now }

  function Live(s: Stock, owner: string, now: int): seq<Package> {
    Filter(LiveOf(owner, now), s.rows)
  }

  function Count(s: Stock, owner: string, now: int): nat {
    |Live(s, owner, now)|
  }

  function Published(s: Stock, owner: string, bundle: Bundle, now: int): Stock {
    Stock(s.rows + [Package(s.nextId, owner, bundle, now)], s.nextId + 1)
  }

  /** The package a consumer gets: the oldest live one, unless it is the last. */
  function Offered(s: Stock, owner: string, now: int): Option<Package> {
    var ordered := OrderBy(CreatedAt(), Live(s, owner, now));
    if Count(s, owner, now) <= 1 || ordered == [] then None else Some(ordered[0])
  }

  function Consumed(s: Stock, owner: string, now: int): Stock {
    match Offered(s, owner, now)
    case Some(p) => s.(rows := Filter(Not(HasId(p.id)), s.rows))
    case None => s
  }

  function Expired(s: Stock, now: int): Stock {
    s.(rows := Filter(Not(Stale(now)), s.rows))
  }

  // ----- The gate -----

  function Difficulty(count: nat): nat {
    if count <= 3 then BASE_DIFFICULTY + (4 - count) * 2 else BASE_DIFFICULTY
  }

  datatype Env = Env(mac: string -> string, hash: Hash)

  function ChallengeFor(env: Env, username: string, window: nat): string {
    env.mac(username + Decimal(window))
  }

  datatype ChallengeReply =
    | MissingUsername
    | NoneLeft
    | LastOne
    | Issued(challenge: string, difficulty: nat)

  datatype FetchReply =
    | MissingField
    | InvalidChallenge
    | InvalidWork(difficulty: nat)
    | OutOfStock
    | Served(package: Package, publicKey: string)

  predicate ChallengeValid(env: Env, username: string, challenge: string, now: nat) {
    var window := now / CHALLENGE_WINDOW_SECS;
    || challenge == ChallengeFor(env, username, window)
    || challenge == ChallengeFor(env, username, if window == 0 then 0 else window - 1)
  }

  predicate WorkDone(env: Env, username: string, challenge: string, nonce: string, difficulty: nat) {
    LeadingZeros(env.hash(username + challenge + nonce), difficulty)
  }

  function Challenged(env: Env, s: Stock, username: Option<string>, now: nat): ChallengeReply {
    if username.None? then MissingUsername
    else
      var count := Count(s, username.value, now);
      if count == 0 then NoneLeft
      else if count == 1 then LastOne
      else Issued(ChallengeFor(env, username.value, now / CHALLENGE_WINDOW_SECS), Difficulty(count))
  }

  /** The public keys in the users table. */
  type PublicKeys = map<string, string>

  function PublicKeyOf(keys: PublicKeys, username: string): string {
    if username in keys then keys[username] else ""
  }

  function Fetched(env: Env, s: Stock, username: Option<string>, challenge: Option<string>,
                   nonce: Option<string>, keys: PublicKeys, now: nat): FetchReply {
    if username.None? || challenge.None? || nonce.None? then MissingField
    else if !ChallengeValid(env, username.value, challenge.value, now) then InvalidChallenge
    else
      var difficulty := Difficulty(Count(s, username.value, now));
      if !WorkDone(env, username.value, challenge.value, nonce.value, difficulty) then InvalidWork(difficulty)
      else
        match Offered(s, username.value, now)
        case Some(p) => Served(p, PublicKeyOf(keys, username.value))
        case None => OutOfStock
  }

  /** Where in the table the owner's unexpired packages stand. */
  ghost function LivePositions(rows: seq<Package>, owner: string, now: int): set<nat> {
    set k: nat | k < |rows| && rows[k].owner == owner && now < rows[k].createdAt + 2_592_000
  }

  lemma CountMeans(rows: seq<Package>, owner: string, now: int)
    ensures |Filter(LiveOf(owner, now), rows)| == |LivePositions(rows, owner, now)|
  {
    FilterSize(LiveOf(owner, now), rows);
    assert Places(LiveOf(owner, now), rows) == LivePositions(rows, owner, now);
  }

  class KeyPackageServer {
    const env: Env
    var rows: seq<Package>
    var nextId: nat
    /** Users owed a keyPackageNeeded notice; the relay queues one for each. */
    var notices: seq<string>

    constructor (env: Env)
      ensures this.env == env && rows == [] && nextId == 0 && notices == []
    {
      this.env := env;
      rows, nextId, notices := [], 0, [];
    }

    function View(): Stock
      reads this
    {
      Stock(rows, nextId)
    }

    method StoreKeyPackage(owner: string, bundle: Bundle, now: int)
      modifies this`rows, this`nextId
      ensures View() == Published(old(View()), owner, bundle, now)
    {
      rows := rows + [Package(nextId, owner, bundle, now)];
      nextId := nextId + 1;
    }

    function CountKeyPackages(owner: string, now: int): (count: nat)
      reads this
      ensures count == |LivePositions(rows, owner, now)|
    {
      CountMeans(rows, owner, now);
      |Filter(LiveOf(owner, now), rows)|
    }

    method ConsumeKeyPackage(owner: string, now: int) returns (taken: Option<Package>)
      modifies this`rows
      ensures taken == Offered(old(View()), owner, now)
      ensures View() == Consumed(old(View()), owner, now)
    {
      if CountKeyPackages(owner, now) <= 1 {
        return None;
      }
      var ordered := OrderBy(CreatedAt(), Filter(LiveOf(owner, now), rows));
      CountedRowExists(View(), owner, now);
      var oldest := ordered[0];
      rows := Filter(Not(HasId(oldest.id)), rows);
      return Some(oldest);
    }

    method CleanupExpiredKeyPackages(now: int) returns (deleted: nat)
      modifies this`rows
      ensures View() == Expired(old(View()), now)
      ensures deleted == |old(rows)| - |rows|
    {
      var kept := Filter(Not(Stale(now)), rows);
      deleted := |rows| - |kept|;
      rows := kept;
    }

    method HandleFetchKpChallenge(username: Option<string>, now: nat) returns (reply: ChallengeReply)
      modifies this`notices
      ensures reply == Challenged(env, old(View()), username, now)
      ensures notices == old(notices) + if reply == NoneLeft then [username.value] else []
    {
      if username.None? {
        return MissingUsername;
      }
      var count := CountKeyPackages(username.value, now);
      if count == 0 {
        notices := notices + [username.value];
        return NoneLeft;
      }
      if count == 1 {
        return LastOne;
      }
      var difficulty := if count <= 3 then 20 + (4 - count) * 2 else 20;
      return Issued(env.mac(username.value + Decimal(now / 300)), difficulty);
    }

    method HandleFetchKeyPackage(username: Option<string>, challenge: Option<string>, nonce: Option<string>,
                                 keys: PublicKeys, now: nat)
      returns (reply: FetchReply)
      modifies this`rows
      ensures reply == Fetched(env, old(View()), username, challenge, nonce, keys, now)
      ensures View() == if reply.Served? then Consumed(old(View()), username.value, now) else old(View())
    {
      if username.None? || challenge.None? || nonce.None? {
        return MissingField;
      }
      if !ChallengeValid(env, username.value, challenge.value, now) {
        return InvalidChallenge;
      }
      var count := CountKeyPackages(username.value, now);
      var difficulty := Difficulty(count);
      var worked := ServerHasLeadingZeroBits(env.hash(username.value + challenge.value + nonce.value), difficulty);
      if !worked {
        return InvalidWork(difficulty);
      }
      var taken := ConsumeKeyPackage(username.value, now);
      return match taken case Some(p) => Served(p, PublicKeyOf(keys, username.value)) case None => OutOfStock;
    }
  }

  // ----- One consumption -----

  ghost predicate IdsIdentify(s: Stock) {
    && (forall p :: p in s.rows ==> p.id < s.nextId)
    && (forall i, j :: 0 <= i < j < |s.rows| ==> s.rows[i].id != s.rows[j].id)
  }

  /** The row the count promises is there: the "no row" branch after a count above one is dead. */
  lemma CountedRowExists(s: Stock, owner: string, now: int)
    requires Count(s, owner, now) > 1
    ensures OrderBy(CreatedAt(), Live(s, owner, now)) != []
    ensures Offered(s, owner, now).Some?
  {
    OrderByMembers(CreatedAt(), Live(s, owner, now));
  }

  /** A package goes out only for its owner, unexpired, and no live one of its owner is older. */
  lemma OfferedOldest(s: Stock, owner: string, now: int, p: Package)
    requires Offered(s, owner, now) == Some(p)
    ensures p in s.rows && LiveOf(owner, now)(p)
    ensures forall q :: q in s.rows && LiveOf(owner, now)(q) ==> p.createdAt <= q.createdAt
  {
    var live := Live(s, owner, now);
    var ordered := OrderBy(CreatedAt(), live);
    OrderByMembers(CreatedAt(), live);
    OrderBySorted(CreatedAt(), live);
    FilterMembers(LiveOf(owner, now), s.rows);
    forall q | q in s.rows && LiveOf(owner, now)(q) ensures p.createdAt <= q.createdAt {
      assert q in ordered;
      var k :| 0 <= k < |ordered| && ordered[k] == q;
      assert CreatedAt()(ordered[0]) <= CreatedAt()(ordered[k]);
    }
  }

  /** Deleting by a row's id deletes that one row. */
  lemma {:induction false} WithoutOne(rows: seq<Package>, p: Package)
    requires p in rows
    requires forall i, j :: 0 <= i < j < |rows| ==> rows[i].id != rows[j].id
    ensures multiset(rows) == multiset(Filter(Not(HasId(p.id)), rows)) + multiset{p}
  {
    var k := |rows| - 1;
    assert rows == rows[..k] + [rows[k]];
    if rows[k] == p {
      FilterAll(Not(HasId(p.id)), rows[..k]);
    } else {
      WithoutOne(rows[..k], p);
      var i :| 0 <= i < |rows| && rows[i] == p;
      assert rows[k].id != p.id;
    }
  }

  lemma CountPermuted(s: seq<Package>, t: seq<Package>, p: Package, q: Package -> bool)
    requires multiset(s) == multiset(t) + multiset{p}
    ensures |Filter(q, s)| == |Filter(q, t)| + if q(p) then 1 else 0
  {
    assert multiset(s) == multiset(t + [p]);
    FilterPermuted(q, s, t + [p]);
    FilterSnoc(q, t, p);
    MultisetMembers(Filter(q, s), Filter(q, t + [p]));
  }

  /**
   A consumption succeeds if and only if more than one live package is left; it then takes
   exactly one from its owner's stock, never the last, and leaves every other stock alone.
   */
  lemma ConsumeTakesOne(s: Stock, owner: string, other: string, now: int, instant: int)
    requires IdsIdentify(s)
    ensures Offered(s, owner, now).Some? <==> Count(s, owner, now) >= 2
    ensures var after := Count(Consumed(s, owner, now), owner, now);
            if Count(s, owner, now) >= 2 then after == Count(s, owner, now) - 1 >= 1
            else after == Count(s, owner, now)
    ensures other != owner ==> Count(Consumed(s, owner, now), other, instant) == Count(s, other, instant)
  {
    if Count(s, owner, now) >= 2 {
      CountedRowExists(s, owner, now);
      var p := Offered(s, owner, now).value;
      OfferedOldest(s, owner, now, p);
      WithoutOne(s.rows, p);
      CountPermuted(s.rows, Consumed(s, owner, now).rows, p, LiveOf(owner, now));
      CountPermuted(s.rows, Consumed(s, owner, now).rows, p, LiveOf(other, instant));
    }
  }

  // ----- Whole runs -----

  datatype Op =
    | Publish(owner: string, bundle: Bundle, now: int)
    | Consume(owner: string, now: int)
    | Expire(now: int)

  function Step(s: Stock, op: Op): Stock {
    match op
    case Publish(owner, bundle, now) => Published(s, owner, bundle, now)
    case Consume(owner, now) => Consumed(s, owner, now)
    case Expire(now) => Expired(s, now)
  }

  function After(ops: seq<Op>): Stock {
    if ops == [] then Stock([], 0) else Step(After(ops[..|ops| - 1]), ops[|ops| - 1])
  }

  function Handed(s: Stock, op: Op): seq<Package> {
    if op.Consume? && Offered(s, op.owner, op.now).Some? then [Offered(s, op.owner, op.now).value] else []
  }

  function Discarded(s: Stock, op: Op): seq<Package> {
    if op.Expire? then Filter(Stale(op.now), s.rows) else []
  }

  function Added(s: Stock, op: Op): seq<Package> {
    if op.Publish? then [Package(s.nextId, op.owner, op.bundle, op.now)] else []
  }

  function PublishedIn(ops: seq<Op>): seq<Package> {
    if ops == [] then []
    else PublishedIn(ops[..|ops| - 1]) + Added(After(ops[..|ops| - 1]), ops[|ops| - 1])
  }

  /** Packages handed out during the run. */
  function HandedIn(ops: seq<Op>): seq<Package> {
    if ops == [] then []
    else HandedIn(ops[..|ops| - 1]) + Handed(After(ops[..|ops| - 1]), ops[|ops| - 1])
  }

  function DiscardedIn(ops: seq<Op>): seq<Package> {
    if ops == [] then []
    else DiscardedIn(ops[..|ops| - 1]) + Discarded(After(ops[..|ops| - 1]), ops[|ops| - 1])
  }

  lemma {:induction false} FilterKeepsIds(p: Package -> bool, rows: seq<Package>)
    requires forall i, j :: 0 <= i < j < |rows| ==> rows[i].id != rows[j].id
    ensures var kept := Filter(p, rows);
            forall i, j :: 0 <= i < j < |kept| ==> kept[i].id != kept[j].id
  {
    if rows != [] {
      var k := |rows| - 1;
      FilterKeepsIds(p, rows[..k]);
      forall i | 0 <= i < |Filter(p, rows[..k])| ensures Filter(p, rows[..k])[i].id != rows[k].id {
        FilterMember(p, rows[..k], Filter(p, rows[..k])[i]);
      }
    }
  }

  lemma SelectionKeepsIds(s: Stock, p: Package -> bool)
    requires IdsIdentify(s)
    ensures IdsIdentify(s.(rows := Filter(p, s.rows)))
  {
    FilterKeepsIds(p, s.rows);
    FilterMembers(p, s.rows);
  }

  lemma StepKeepsIds(s: Stock, op: Op)
    requires IdsIdentify(s)
    ensures IdsIdentify(Step(s, op))
  {
    match op
    case Publish(_, _, _) =>
    case Consume(owner, now) =>
      if Offered(s, owner, now).Some? {
        SelectionKeepsIds(s, Not(HasId(Offered(s, owner, now).value.id)));
      }
    case Expire(now) =>
      SelectionKeepsIds(s, Not(Stale(now)));
  }

  lemma {:induction false} IdsIdentifyAlways(ops: seq<Op>)
    ensures IdsIdentify(After(ops))
  {
    if ops != [] {
      IdsIdentifyAlways(ops[..|ops| - 1]);
      StepKeepsIds(After(ops[..|ops| - 1]), ops[|ops| - 1]);
    }
  }

  lemma StepConserves(s: Stock, op: Op)
    requires IdsIdentify(s)
    ensures multiset(s.rows) + multiset(Added(s, op))
         == multiset(Step(s, op).rows) + multiset(Handed(s, op)) + multiset(Discarded(s, op))
  {
    match op
    case Publish(_, _, _) =>
    case Consume(owner, now) =>
      if Offered(s, owner, now).Some? {
        OfferedOldest(s, owner, now, Offered(s, owner, now).value);
        WithoutOne(s.rows, Offered(s, owner, now).value);
      }
    case Expire(now) =>
      FilterSplits(Stale(now), s.rows);
  }

  /** Every package published is in stock, was handed out, or was discarded on expiry. */
  lemma {:induction false} PackagesConserved(ops: seq<Op>)
    ensures multiset(PublishedIn(ops))
         == multiset(After(ops).rows) + multiset(HandedIn(ops)) + multiset(DiscardedIn(ops))
  {
    if ops != [] {
      var prefix, op := ops[..|ops| - 1], ops[|ops| - 1];
      PackagesConserved(prefix);
      IdsIdentifyAlways(prefix);
      StepConserves(After(prefix), op);
      LedgerStep(PublishedIn(prefix), Added(After(prefix), op), After(prefix).rows, After(ops).rows,
                 HandedIn(prefix), Handed(After(prefix), op), DiscardedIn(prefix), Discarded(After(prefix), op));
    }
  }

  lemma {:induction false} PublishedNumbered(ops: seq<Op>)
    ensures |PublishedIn(ops)| == After(ops).nextId
    ensures forall k :: 0 <= k < |PublishedIn(ops)| ==> PublishedIn(ops)[k].id == k
  {
    if ops != [] {
      PublishedNumbered(ops[..|ops| - 1]);
    }
  }

  /** A published package ends up in one place only, so it is handed out at most once. */
  lemma PackageInOnePlace(ops: seq<Op>, p: Package)
    requires p in PublishedIn(ops)
    ensures multiset(After(ops).rows)[p] + multiset(HandedIn(ops))[p] + multiset(DiscardedIn(ops))[p] == 1
  {
    PackagesConserved(ops);
    PublishedNumbered(ops);
    DistinctCount(PublishedIn(ops), p);
  }

  /** No operation empties a stock: seen at the operation's own instant, one live package stays. */
  lemma OnlyTimeEmpties(ops: seq<Op>, op: Op, owner: string)
    requires Count(After(ops), owner, op.now) >= 1
    ensures Count(Step(After(ops), op), owner, op.now) >= 1
  {
    var s := After(ops);
    IdsIdentifyAlways(ops);
    match op
    case Publish(o, bundle, now) =>
      FilterSnoc(LiveOf(owner, now), s.rows, Package(s.nextId, o, bundle, now));
    case Consume(o, now) =>
      ConsumeTakesOne(s, o, owner, now, now);
    case Expire(now) =>
      FilterWithin(Not(Stale(now)), LiveOf(owner, now), s.rows);
  }

  // ----- The gate, end to end -----

  lemma DifficultyEases(few: nat, many: nat)
    requires few <= many
    ensures Difficulty(many) <= Difficulty(few)
  {
  }

  lemma ChallengesDiffer(env: Env, username: string, v: nat, w: nat)
    requires Injective(env.mac)
    requires ChallengeFor(env, username, v) == ChallengeFor(env, username, w)
    ensures v == w
  {
    var a, b := username + Decimal(v), username + Decimal(w);
    assert a == b;
    assert a[|username|..] == Decimal(v) && b[|username|..] == Decimal(w);
    DecimalInjective(v, w);
  }

  /** A challenge is honoured in the window of its issue and in the next one, and never again. */
  lemma ChallengeLifetime(env: Env, username: string, issued: nat, now: nat)
    requires Injective(env.mac) && issued <= now
    ensures ChallengeValid(env, username, ChallengeFor(env, username, issued / CHALLENGE_WINDOW_SECS), now)
       <==> now / CHALLENGE_WINDOW_SECS <= issued / CHALLENGE_WINDOW_SECS + 1
    ensures now <= issued + 300
        ==> ChallengeValid(env, username, ChallengeFor(env, username, issued / CHALLENGE_WINDOW_SECS), now)
    ensures now >= issued + 600
        ==> !ChallengeValid(env, username, ChallengeFor(env, username, issued / CHALLENGE_WINDOW_SECS), now)
  {
    var v, w := issued / CHALLENGE_WINDOW_SECS, now / CHALLENGE_WINDOW_SECS;
    if ChallengeFor(env, username, v) == ChallengeFor(env, username, w) {
      ChallengesDiffer(env, username, v, w);
    }
    var previous := if w == 0 then 0 else w - 1;
    if ChallengeFor(env, username, v) == ChallengeFor(env, username, previous) {
      ChallengesDiffer(env, username, v, previous);
    }
  }

  /** The zero bits asked for at a stock of this size, below two only of fetches, which then find nothing. */
  function BitsAt(stock: nat): nat {
    match stock
    case 0 => 28
    case 1 => 26
    case 2 => 24
    case 3 => 22
    case _ => 20
  }

  /** A challenge is issued from a stock of two on: it is the current window's, at 24, 22 or 20 bits. */
  lemma IssuedIff(env: Env, s: Stock, username: Option<string>, now: nat)
    ensures var reply := Challenged(env, s, username, now);
            var stock := if username.Some? then |LivePositions(s.rows, username.value, now)| else 0;
            && (reply.Issued? <==> username.Some? && stock >= 2)
            && (reply.Issued? ==> reply == Issued(env.mac(username.value + Decimal(now / 300)), BitsAt(stock)))
            && (username.Some? && stock == 1 ==> reply == LastOne)
            && (username.Some? && stock == 0 ==> reply == NoneLeft)
  {
    if username.Some? {
      CountMeans(s.rows, username.value, now);
    }
  }

  /** Whatever is served was worked for: at least 20 leading zero bits, and more from a small stock. */
  lemma ServedWorkedFor(env: Env, s: Stock, username: string, challenge: string, nonce: string, keys: PublicKeys,
                        now: nat)
    ensures var reply := Fetched(env, s, Some(username), Some(challenge), Some(nonce), keys, now);
            var stock := |LivePositions(s.rows, username, now)|;
            var worked := LeadingZeros(env.hash(username + challenge + nonce), BitsAt(stock));
            && (reply.Served? ==> worked && stock >= 2 && LeadingZeros(env.hash(username + challenge + nonce), 20))
            && (!worked && ChallengeValid(env, username, challenge, now) ==> reply == InvalidWork(BitsAt(stock)))
  {
    CountMeans(s.rows, username, now);
    if LeadingZeros(env.hash(username + challenge + nonce), BitsAt(Count(s, username, now))) {
      EasierToo(env.hash(username + challenge + nonce), BitsAt(Count(s, username, now)), 20);
    }
  }

  /** Expiry deletes a package if and only if it is more than thirty days old. */
  lemma ExpiredIff(s: Stock, now: int, p: Package)
    ensures multiset(Expired(s, now).rows)[p]
         == if p.createdAt + 2_592_000 < now then 0 else multiset(s.rows)[p]
  {
    FilterCount(Not(Stale(now)), s.rows, p);
  }

  /**
   A fetch is served if and only if the challenge, the work and the stock all allow it; the package
   is then the user's own, and so is the public key beside it.
   */
  lemma ServedIff(env: Env, s: Stock, username: string, challenge: string, nonce: string, keys: PublicKeys, now: nat)
    requires IdsIdentify(s)
    ensures var reply := Fetched(env, s, Some(username), Some(challenge), Some(nonce), keys, now);
            var stock := |LivePositions(s.rows, username, now)|;
            && (reply.Served? <==> && ChallengeValid(env, username, challenge, now)
                                   && LeadingZeros(env.hash(username + challenge + nonce), BitsAt(stock))
                                   && stock >= 2)
            && (reply.Served? ==> && reply.package in s.rows && reply.package.owner == username
                                  && (username in keys ==> reply.publicKey == keys[username]))
  {
    CountMeans(s.rows, username, now);
    ConsumeTakesOne(s, username, username, now, now);
    if Offered(s, username, now).Some? {
      OfferedOldest(s, username, now, Offered(s, username, now).value);
    }
  }

  /**
   A client that was issued a challenge, found the least solving nonce, and comes back within
   300 s to a stock no smaller than before is served, and the stock drops by one to at least one.
   */
  lemma KeyFetchSucceeds(env: Env, atIssue: Stock, atFetch: Stock, username: string, keys: PublicKeys,
                         issued: nat, now: nat, n: nat)
    requires IdsIdentify(atFetch)
    requires issued <= now <= issued + 300
    requires Challenged(env, atIssue, Some(username), issued).Issued?
    requires Count(atFetch, username, now) >= Count(atIssue, username, issued)
    requires var c := Challenged(env, atIssue, Some(username), issued);
             Least(env.hash, username + c.challenge, c.difficulty, n)
    ensures var c := Challenged(env, atIssue, Some(username), issued);
            && Fetched(env, atFetch, Some(username), Some(c.challenge), Some(Decimal(n)), keys, now).Served?
            && Count(Consumed(atFetch, username, now), username, now) == Count(atFetch, username, now) - 1 >= 1
  {
    var c := Challenged(env, atIssue, Some(username), issued);
    var v, w := issued / CHALLENGE_WINDOW_SECS, now / CHALLENGE_WINDOW_SECS;
    assert w == v || w == v + 1;
    DifficultyEases(Count(atIssue, username, issued), Count(atFetch, username, now));
    EasierToo(env.hash(username + c.challenge + Decimal(n)), c.difficulty, Difficulty(Count(atFetch, username, now)));
    CountMeans(atFetch.rows, username, now);
    ServedIff(env, atFetch, username, c.challenge, Decimal(n), keys, now);
    ConsumeTakesOne(atFetch, username, username, now, now);
  }
}
