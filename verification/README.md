# Nymstr: the servers' state machines and the client loops that talk to them

Nymstr is a store-and-forward messenger over a mixnet. A discovery server registers users and
relays messages, a group server keeps a message log, a commit buffer and a welcome mailbox for
one group, and a desktop client polls and retries. This project models both servers as
state machines that handle one message at a time, models the client's catch-up, drain, retry and
labelling loops, and proves what those machines keep over every run.

Each server appears twice. A specification module (`DiscoverySpec`, `GroupSpec`) gives the effect
of one message as a function `Step` on a value of type `State`; the tables are maps and
sequences of rows. A server module (`DiscoveryServer`, `GroupServer`) is a class whose fields are
those tables and whose handlers check in the original's order and change the fields in place; its
`ProcessMessage` is proved to take `View()` to `Step(View())`, and its `Serve` to bring a new
server through a whole run, restarts included, to `After(env, run)`. The theorems are about `Step`
and `After` and hold of every finite run from the empty server. Which requests take effect is said
twice: once as the handlers' guards in the specification, and once, in `DiscoveryLaws` and
`GroupLaws`, as if-and-only-if laws over `Step` in terms of signatures, names, clocks and plain
numbers, which name none of those guards.

| module | what it holds |
|---|---|
| `Sequences` | table queries: select, stable `ORDER BY`, take, count, and a ledger step |
| `RateLimiter`, `ServerLimits` | the sliding-window limiter, and the limiters inside the servers |
| `DiscoverySpec`, `DiscoveryServer` | the discovery server as a function and as an object |
| `RelayConservation`, `Accounts` | runs of the discovery server: messages, and accounts |
| `DiscoveryLaws`, `AccountFlows` | its handlers again, each as an exact law without the handler's own guards; registration and login from end to end |
| `ProofOfWork`, `KeyPackages` | the leading-zero test, the nonce search, the key-package stock and its gate |
| `GroupSpec`, `GroupServer` | the group server as a function and as an object |
| `GroupMembership`, `GroupDelivery` | runs of the group server: members; deduplication, welcomes, commits |
| `GroupLaws` | its handlers again, each as an exact law without the handler's own guards |
| `GroupExamples` | concrete runs of the group server, for the statements that turn on one input |
| `GroupIds` | the group names the client sends, and which of them the group server accepts |
| `CommitBuffer`, `CommitReplay` | the trimmed commit table, and the client's replay of it |
| `CommitExamples` | runs of the server whose buffer takes a catching-up member off the history |
| `GroupPaging` | pages of the growing log, and a reader that reads back the cursor it wrote |
| `GroupCursor` | the client's own cursor table, which is written under one key and read under another |
| `PendingDrain`, `RetryBuffer`, `MessageGrouping` | the client's offline queue, decryption retries, chat labels |
| `Base64`, `Validation` | the standard base64 code, and the names the servers accept |

## Conventions

- A table is a sequence in insertion order or a map by primary key; ids come from a counter and
  are never reused. `ORDER BY` is a stable sort. A group-server id starts at 1, as SQLite's
  autoincrement does. Random UUIDs (row ids, nonces) are fresh counters.
- Signature check, MAC, hash, trimming of key text and the readability of a stored payload are
  arbitrary functions. Injectivity of the hash or the MAC is a hypothesis only of the lemmas that
  name it. A signed text is a datatype of its fields.
- A message carries the clocks at its arrival: monotonic milliseconds for time limits and rate
  limits, Unix seconds for timestamps and expiry. One handler sees one instant. Whether the
  transport holds a reply block for a tag is a Boolean input.
- A restart is an event of a run. The tables persist; challenges and rate limits are in memory and
  are lost; the group server makes its users members again.
- Database calls succeed, except the client's write of its cursor, which may be refused. Foreign
  keys are enforced.
- Replies to the requester carry no state and are not modelled, except where they hand out rows:
  pages, welcomes, commits, key packages and challenges are results of the methods.

## What the proofs show about the code

- Where the code and PROTOCOL.md differ, the model follows the code. PROTOCOL.md line 163 adds 2
  to the difficulty per package below 3; the code does so below 4, so a stock of 3 costs 22.
  PROTOCOL.md lines 175 and 183 give a challenge 5 minutes; the code honours the window of issue
  and the next one, so at least 300 s and less than 600 s (`ChallengeLifetime`). PROTOCOL.md
  line 316 says sealed messages are persisted; the code persists them only when no reply block is
  at hand (`OneRoute`).
- A user approved before the group row exists is no member, because the membership insert is
  refused, and no later message repeats it; the first restart with the row in place makes the user
  a member (`MemberIff`, `OldUserJoinsIff`; the input is in `BobJoinsOnlyByRestart`).
- A group whose MLS id has an unlucky length or text is cut off from commit catch-up. The client
  names it by the id's standard base64 text (app/desktop/src/commands/groups.rs:411-430, 1365-1373),
  and the server's check of a group id refuses '=', '+' and '/'. It passes exactly the ids of 3, 6, …,
  96 bytes whose text has no '+' and no '/' (`ValidIff`); for any other id, every 32-byte one among
  them, no commit is buffered in any run and no sync changes any member (`UnsendableIsCutOff`,
  `ThirtyTwoBytesCutOff`).
- No welcome this client offers is ever stored. It offers them under the server's Nym address
  (app/desktop/src/commands/groups.rs:1341-1344), whose '.' and '@' the same check refuses
  (`BadNameNeverStored`, `NoWelcomeArrives`).
- No group message past the first hundred ever arrives. The client writes its cursor under the
  reply's sender, always "group-server" (app/desktop/src/tasks/message_loop.rs:843, 869-877), and
  reads it under the group's address (app/desktop/src/commands/groups.rs:378-386). Besides, the
  write leaves out `username`, which app/desktop/src/core/db/schema.rs:134-141 declares NOT NULL, so
  it is refused, and the refusal is only logged. Every page is the first one again
  (`FirstPageAgain`, `NothingPast`), with 101 messages the last never arrives (`MissesMessage101`),
  and everything arrives iff the log fits one page or the keys agree and the writes succeed
  (`AllArrivedIff`, `AllArrivedAfterPoll`). Of what arrives the client announces only the count
  (app/desktop/src/tasks/message_loop.rs:891-895).
- A sealed message that had to be queued is lost. The ping that drains it sends it in an envelope of
  type "message" and deletes it; the client tells sealed messages by the envelope's type alone and
  rejects the rest without an `mls_message` field (`SealedEnvelopeIff`, `QueuedSealedIsLost`).
- An approval answers with the key package that came with the very registration it admits, because
  only a registration that adds a row stores its package (`ApprovalReturnsPackage`).
- The limit of 131072 decoded bytes for a welcome can never be exceeded by a text that passed the
  limit on its encoded length (`DecodedCheckIsDead`).
- For a sendable id, a commit sync from id 0 that the server accepts catches a member up iff the
  member lacks no accepted commit that the buffer of a hundred has dropped; any other sync changes
  nothing (`SyncAcceptedIff`, `CatchUpIff`). This holds as long as no commit entered the log before
  its epoch was reached and none of the last hundred is for an epoch already left before them. The
  server checks neither: `EarlyCommitForks` and `StaleCommitForks` are runs of it after which an
  accepted sync takes a member to a state the group was never in.
- The quota of 20 welcomes is checked before replacement, so at 20 a user's welcome for a group
  that already has one cannot be renewed (`RenewalRefusedAtQuota`).
- The branch of `consume_key_package` for a missing row after a count above one is dead
  (`CountedRowExists`).

## Model

| member | source | states |
|---|---|---|
| RateLimiter.RateLimiter.CheckAndRecord | crates/nymstr-common/src/rate_limiter.rs:27-40 | prunes, decides and records in place; the new table is the specified one |
| RateLimiter.RateLimiter.Cleanup | crates/nymstr-common/src/rate_limiter.rs:43-45 | drops exactly the empty lists |
| RateLimiter.DecidesAsFullHistory | crates/nymstr-common/src/rate_limiter.rs:27-40 | with a clock that never goes back, a call is allowed iff fewer than max accepted calls of its key, over the whole history, lie in the window |
| RateLimiter.PrunedAgrees | crates/nymstr-common/src/rate_limiter.rs:27-45 | the pruned list and the full history hold the same instants for every later query |
| RateLimiter.AllowsInNumbers | crates/nymstr-common/src/rate_limiter.rs:27-40 | a call is allowed iff fewer than max of the listed instants are less than 60000 ms old, swept or not |
| RateLimiter.AcceptedSpacing | crates/nymstr-common/src/rate_limiter.rs:27-40 | the k-th and (k+max)-th accepted calls of a key are a window apart |
| RateLimiter.KeysIndependent | crates/nymstr-common/src/rate_limiter.rs:27-45 | which calls of a key are accepted depends on that key's calls alone |
| RateLimiter.TableBounded | crates/nymstr-common/src/rate_limiter.rs:27-45 | no list outgrows max, and with max at least 1 no reachable list is empty |
| RateLimiter.CleanupChangesNothing | crates/nymstr-common/src/rate_limiter.rs:43-45 | so in every reachable state cleanup changes nothing |
| ServerLimits.TablesAreLimiters | nymstr-server/src/message_utils.rs:79-112 | in every run the discovery server's two limiter tables are those of two limiters fed only the checked tags |
| ServerLimits.LimitsDecide | nymstr-server/src/message_utils.rs:354-362 | a registration, login or ping has room iff fewer than 10 accepted calls of its tag since the last start lie in the last minute; a send, 60; and the table alone tells |
| ServerLimits.GeneralIsLimiter | nymstr-group/src/message_utils.rs:542-563 | the group server's general table is that of a limiter fed every tag but registrations' |
| ServerLimits.RegistrationIsLimiter | nymstr-group/src/message_utils.rs:584-620 | its registration table is that of a limiter fed each tag and, once the tag passed, the name |
| ServerLimits.GroupLimitsDecide | nymstr-group/src/message_utils.rs:542-620 | the group server's tables have room iff fewer than 60, or for registrations 10, accepted calls of the key since the last start lie in the last minute |
| DiscoveryServer.MessageUtils.ProcessMessage | nymstr-server/src/message_utils.rs:121-278 | cleanup and dispatch in place refine `Step` for every message, and keep row ids unique, nonces unique and login challenges current |
| DiscoveryServer.MessageUtils.Serve | nymstr-server/src/message_utils.rs:121-278 | a whole run of the object, restarts included, ends in `After(env, run)` |
| DiscoveryServer.MessageUtils.Reopen | nymstr-server/src/message_utils.rs:54-76 | a restart keeps users and the queue and forgets challenges and rate limits |
| DiscoveryServer.MessageUtils.CleanupStaleEntries | nymstr-server/src/message_utils.rs:79-112 | keeps exactly the challenges younger than 300 s and the non-empty limiter lists |
| DiscoveryServer.MessageUtils.HandleRegister | nymstr-server/src/message_utils.rs:1188-1266 | issues a nonce to the tag iff rate, fields, name format and availability allow it |
| DiscoveryServer.MessageUtils.HandleRegistrationResponse | nymstr-server/src/message_utils.rs:1268-1350 | uses up the challenge whatever the signature; creates the row iff it verifies and the name is free |
| DiscoveryServer.MessageUtils.AddUser | nymstr-server/src/db_utils.rs:116-130 | inserts a new name with its key and tag, and never overwrites one |
| DiscoveryServer.MessageUtils.UpdateSenderTag | nymstr-server/src/db_utils.rs:146-163 | changes the tag of an existing row and nothing else |
| DiscoveryServer.MessageUtils.HandleLogin | nymstr-server/src/message_utils.rs:1352-1415 | issues a nonce for the stored key of an existing user |
| DiscoveryServer.MessageUtils.HandleLoginResponse | nymstr-server/src/message_utils.rs:1417-1479 | uses up the challenge; moves the tag iff the signature verifies |
| DiscoveryServer.MessageUtils.HandleLegacySend | nymstr-server/src/message_utils.rs:698-768 | a verified send moves the sender's tag and goes straight to the recipient's stored tag |
| DiscoveryServer.MessageUtils.HandleSend | nymstr-server/src/message_utils.rs:1481-1685 | relays a verified MLS message to a registered recipient, and nothing else |
| DiscoveryServer.MessageUtils.HandleSealedSend | nymstr-server/src/message_utils.rs:1689-1824 | relays an opaque blob without looking at the sender, in a sealed envelope where the reply block is used |
| DiscoveryServer.MessageUtils.HandleForward | nymstr-server/src/message_utils.rs:1977-2120 | key-package requests and responses and group-join responses are relayed as they are |
| DiscoveryServer.MessageUtils.RelayWithPersistence | nymstr-server/src/message_utils.rs:2515-2572 | reply block in a plain envelope if there is one, otherwise one new queue row |
| DiscoveryServer.MessageUtils.RelaySealedWithPersistence | nymstr-server/src/message_utils.rs:2574-2629 | the same two routes; only the reply block marks the envelope as sealed |
| DiscoveryServer.MessageUtils.QueuePendingMessage | nymstr-server/src/db_utils.rs:278-297 | appends one row with a fresh id |
| DiscoveryServer.MessageUtils.GetPendingMessages | nymstr-server/src/db_utils.rs:300-314 | the rows come sorted by creation time, and hold each live row of the recipient as often as the table does and no other row |
| DiscoveryServer.MessageUtils.DeletePendingMessages | nymstr-server/src/db_utils.rs:336-356 | deletes the named rows of that recipient only |
| DiscoveryServer.MessageUtils.HandleFetchPending | nymstr-server/src/message_utils.rs:1826-1975 | returns the pending rows iff the request is signed by their recipient, and changes nothing |
| DiscoveryServer.MessageUtils.HandlePing | nymstr-server/src/message_utils.rs:2127-2277 | a verified, timely ping moves the tag and drains the queue to it |
| DiscoveryServer.MessageUtils.DeliverAll | nymstr-server/src/message_utils.rs:2237-2268 | the loop hands over exactly the readable rows in order, each in a plain envelope, and collects exactly their ids |
| DiscoveryServer.MessageUtils.HandleAck | nymstr-server/src/message_utils.rs:2283-2402 | deletes the acknowledged rows iff the ack is timely and signed |
| RelayConservation.OneRoute | nymstr-server/src/message_utils.rs:2515-2629 | an accepted message takes exactly one route, the reply block or one queue row, once |
| RelayConservation.RowLeavesIff | nymstr-server/src/message_utils.rs:2237-2276 | a row leaves the queue iff a verified ping of its recipient finds it live and readable, or its recipient acks its id |
| RelayConservation.OnlyItsOwner | nymstr-server/src/message_utils.rs:2381-2401 | a row leaves only over its recipient's own timely signature, and by an ack only if the ack names it |
| RelayConservation.HandedExactly | nymstr-server/src/message_utils.rs:2203-2268 | a ping hands over exactly its own user's live, readable rows |
| RelayConservation.HandedInOrder | nymstr-server/src/db_utils.rs:300-314 | each drain is in createdAt order |
| RelayConservation.DrainDeletesHanded | nymstr-server/src/message_utils.rs:2269-2276 | deleting by the collected ids deletes exactly the rows handed over |
| RelayConservation.RowsConserved | nymstr-server/src/db_utils.rs:278-356 | over a run, rows queued = rows still queued + handed over + acked, as multisets |
| RelayConservation.QueuedNumbered | nymstr-server/src/db_utils.rs:278-297 | queued rows are numbered in order, so none occurs twice |
| RelayConservation.RowInOnePlace | nymstr-server/src/message_utils.rs:2237-2276 | each queued row is in exactly one of the three places, exactly once |
| RelayConservation.RoutesConserved | nymstr-server/src/message_utils.rs:2515-2629 | over a run, messages accepted = sent by reply block + queued, as multisets |
| RelayConservation.OutboxTellsAll | nymstr-server/src/message_utils.rs:2237-2268 | the transport log shows exactly the rows drained and the messages sent by reply block, in order |
| RelayConservation.SealedEnvelopeIff | nymstr-server/src/message_utils.rs:2574-2629 | in every run a sealed message is handed over in a sealed envelope iff it took the reply block |
| RelayConservation.QueuedSealedIsLost | app/desktop/src/tasks/message_loop.rs:352-402 | a queued sealed message is deleted by the ping that hands it over, in an envelope the client rejects |
| Accounts.KeyNeverChanges | nymstr-server/src/db_utils.rs:116-163 | a registered name keeps its public key for the rest of every run |
| Accounts.CreatedOnce | nymstr-server/src/message_utils.rs:1268-1350 | two registrations for one name never both succeed |
| Accounts.PendingWasIssued | nymstr-server/src/message_utils.rs:1188-1266 | a waiting challenge was issued to that tag by a registration for that name and key |
| Accounts.RegistrationProvenance | nymstr-server/src/message_utils.rs:1268-1350 | every account comes from a response whose tag was issued the nonce for that name and key less than 300 s before, signed under that key |
| Accounts.NonceConsumedOnce | nymstr-server/src/message_utils.rs:440-512 | no nonce is used by two messages, even when the first signature is wrong |
| Accounts.LoginsMatchAlways | nymstr-server/src/message_utils.rs:1352-1415 | a login challenge always holds its account's current key |
| Accounts.TagIsLastVerified | nymstr-server/src/message_utils.rs:2203-2220 | a user's stored tag is that of the last registration response, login response, ping or legacy send whose signature verifies under the user's key |
| AccountFlows.RegistrationSucceeds | nymstr-server/src/message_utils.rs:1188-1350 | a registration answered with a nonce and completed from the same tag within 300 s, signed under its key, creates the account if the name is still free |
| AccountFlows.OnlyAskerGetsTheName | nymstr-server/src/message_utils.rs:1188-1350 | without another registration for the name, no further check is needed: the account exists from then on, under that key |
| AccountFlows.LoginSucceeds | nymstr-server/src/message_utils.rs:1352-1479 | a login of an existing user, completed within 300 s under the user's key, moves the user to the new tag |
| DiscoveryLaws.RegisterIff | nymstr-server/src/message_utils.rs:1188-1266 | the next nonce is issued to the tag iff name and key are there, the name is well formed and free and there is room; otherwise challenges only age |
| DiscoveryLaws.RegistrationResponseIff | nymstr-server/src/message_utils.rs:1268-1350 | a signed response uses up the challenge if it is younger than 300 s; the account is created iff the signature verifies and the name is free |
| DiscoveryLaws.LoginIff | nymstr-server/src/message_utils.rs:1352-1415 | the next nonce is issued, for the stored key, iff the user exists and there is room |
| DiscoveryLaws.LoginResponseIff | nymstr-server/src/message_utils.rs:1417-1479 | a signed response uses up the challenge; the tag moves iff the signature verifies |
| DiscoveryLaws.OthersOnlyAge | nymstr-server/src/message_utils.rs:79-112 | no other message changes challenges, except that those of 300 s and more are dropped |
| DiscoveryLaws.RestartForgets | nymstr-server/src/message_utils.rs:50-76 | a restart empties challenges and limits and keeps accounts and the queue |
| DiscoveryLaws.SendIff | nymstr-server/src/message_utils.rs:1481-1685 | a send puts something in the queue or on the transport iff there is room, the sender is registered and signed the body, it is an MLS message and the recipient is registered; then exactly that sender's body, once |
| DiscoveryLaws.SealedSendIff | nymstr-server/src/message_utils.rs:1689-1824 | a sealed send does so iff there is room, a blob and a registered recipient; in a sealed envelope by reply block |
| DiscoveryLaws.ForwardIff | nymstr-server/src/message_utils.rs:1977-2120 | a forwarded action needs a recipient and nothing else, and never goes out as a send |
| DiscoveryLaws.LegacySendIff | nymstr-server/src/message_utils.rs:698-768 | accounts change iff the sender signed the text, and then only the sender's tag; that text goes out in that name to the recipient's stored tag |
| DiscoveryLaws.PingIff | nymstr-server/src/message_utils.rs:2127-2277 | a signed, timely ping within its limit moves the tag, hands over each due row as often as it was queued, oldest first, and removes exactly those; any other changes nothing |
| DiscoveryLaws.AckIff | nymstr-server/src/message_utils.rs:2283-2402 | a signed, timely acknowledgement removes exactly the user's own rows it names; any other changes nothing |
| DiscoveryLaws.FetchPendingIff | nymstr-server/src/message_utils.rs:1826-1975 | the user's own rows of the last seven days, oldest first, are returned iff the user signed |
| DiscoveryLaws.SendsAreSigned | nymstr-server/src/message_utils.rs:1481-1685 | in every run, a send that waits in the queue or went out has behind it a request of its named sender, who was registered then and signed that very body |
| ProofOfWork.ServerHasLeadingZeroBits | nymstr-server/src/message_utils.rs:3093-3109 | the byte and mask loop is true iff the big-endian value is below 2^(8n-d) |
| ProofOfWork.ClientHasLeadingZeroBits | app/desktop/src/commands/messaging.rs:20-38 | the client's test has the same meaning, and is false for a hash that is too short |
| ProofOfWork.BytesMean | nymstr-server/src/message_utils.rs:3093-3109 | zero bytes and a masked byte against a numeric bound, for every length and difficulty |
| ProofOfWork.EasierToo | nymstr-server/src/message_utils.rs:3011-3015 | meeting a difficulty means meeting every smaller one |
| ProofOfWork.GrindWithPrefix | app/desktop/src/commands/messaging.rs:202-226 | the background search returns the least nonce that solves the puzzle |
| ProofOfWork.GrindFormatted | app/desktop/src/commands/messaging.rs:427-441 | the foreground search returns the same least nonce |
| ProofOfWork.DecimalInjective | nymstr-server/src/message_utils.rs:2883-2896 | different window numbers have different decimal texts |
| KeyPackages.KeyPackageServer.StoreKeyPackage | nymstr-server/src/db_utils.rs:382-399 | appends one package |
| KeyPackages.KeyPackageServer.ConsumeKeyPackage | nymstr-server/src/db_utils.rs:404-443 | takes the offered package, or none when at most one is live |
| KeyPackages.KeyPackageServer.CountKeyPackages | nymstr-server/src/db_utils.rs:446-454 | the result is the number of places in the table that hold an unexpired package of the owner |
| KeyPackages.KeyPackageServer.CleanupExpiredKeyPackages | nymstr-server/src/db_utils.rs:457-462 | deletes exactly the packages past their expiry and says how many |
| KeyPackages.KeyPackageServer.HandleFetchKpChallenge | nymstr-server/src/message_utils.rs:2806-2916 | refuses at stock 0 (and owes a notice) and 1, otherwise issues the window's challenge and the difficulty |
| KeyPackages.KeyPackageServer.HandleFetchKeyPackage | nymstr-server/src/message_utils.rs:2918-3089 | checks fields, challenge and work in that order, then consumes, and answers with the package and the user's public key |
| KeyPackages.CountedRowExists | nymstr-server/src/db_utils.rs:404-443 | after a count above one the row is there |
| KeyPackages.OfferedOldest | nymstr-server/src/db_utils.rs:404-443 | a package goes out only for its owner, unexpired and oldest first |
| KeyPackages.ConsumeTakesOne | nymstr-server/src/db_utils.rs:404-443 | succeeds iff two or more are live, takes exactly one, never the last, and spares other owners |
| KeyPackages.PackagesConserved | nymstr-server/src/db_utils.rs:382-462 | over a run, published = in stock + handed out + expired, as multisets |
| KeyPackages.PackageInOnePlace | nymstr-server/src/db_utils.rs:382-462 | so each package is handed out at most once |
| KeyPackages.OnlyTimeEmpties | nymstr-server/src/db_utils.rs:404-462 | no operation takes a live stock to zero at its own instant |
| KeyPackages.ChallengeLifetime | nymstr-server/src/message_utils.rs:2966-2981 | with an injective MAC, a challenge is honoured in its window and the next, so up to 300 s always and from 600 s never |
| KeyPackages.IssuedIff | nymstr-server/src/message_utils.rs:2806-2916 | a challenge is issued iff two or more packages are live, at 24, 22 or 20 bits for 2, 3 or more of them |
| KeyPackages.ServedWorkedFor | nymstr-server/src/message_utils.rs:2966-3040 | what is served was worked for with those bits, never fewer than 20; a hash that misses them is refused |
| KeyPackages.ExpiredIff | nymstr-server/src/db_utils.rs:457-462 | expiry deletes exactly the packages more than thirty days old |
| KeyPackages.ServedIff | nymstr-server/src/message_utils.rs:2918-3089 | a fetch is served iff the challenge is valid, two or more packages are live and the hash has the 24, 22 or 20 leading zero bits of that stock, and then with a package and the key of that very user |
| KeyPackages.KeyFetchSucceeds | nymstr-server/src/message_utils.rs:2806-3089 | a challenge redeemed within 300 s, with the searched nonce and a stock no smaller, is served and leaves one package fewer, at least one |
| GroupServer.MessageUtils.ProcessMessage | nymstr-group/src/message_utils.rs:293-438 | ageing and dispatch in place refine `Step` for every message, and keep members users and the mailbox within its bounds |
| GroupServer.MessageUtils.Serve | nymstr-group/src/message_utils.rs:293-438 | a whole run of the object, restarts included, ends in `After(env, run)` |
| GroupServer.MessageUtils.Reopen | nymstr-group/src/main.rs:399-418 | a restart keeps every table, forgets the rate limits and backfills the members |
| GroupServer.MessageUtils.BackfillMembers | nymstr-group/src/main.rs:399-418 | the loop makes every user a member if the group row exists, and nobody if it does not |
| GroupServer.MessageUtils.CleanUp | nymstr-group/src/message_utils.rs:294-301 | sweeps both limiters and forgets hashes older than 600 s |
| GroupServer.MessageUtils.AuthenticateRequest | nymstr-group/src/message_utils.rs:442-504 | true iff the name is well formed, registered and its stored key verifies the signature |
| GroupServer.MessageUtils.CheckRegistrationLimits | nymstr-group/src/message_utils.rs:584-620 | counts the tag, and the name only if the tag passed |
| GroupServer.MessageUtils.HandleRegister | nymstr-group/src/message_utils.rs:584-791 | admits the admin key at once, puts any other verified registration in pending, and keeps the key package of whichever adds a row |
| GroupServer.MessageUtils.HandleApproveGroup | nymstr-group/src/message_utils.rs:812-958 | a timely admin signature for this group moves a pending name to users, with its pending key, and is answered with its key package |
| GroupServer.MessageUtils.AddUser | nymstr-group/src/db_utils.rs:144-154 | the first key of a user stays |
| GroupServer.MessageUtils.AddPendingUser | nymstr-group/src/db_utils.rs:296-305 | the first key of a pending name stays |
| GroupServer.MessageUtils.AddGroupMember | nymstr-group/src/db_utils.rs:190-202 | adds a member only if the group row and the user row exist |
| GroupServer.MessageUtils.HandleSendGroup | nymstr-group/src/message_utils.rs:979-1075 | stores a member's message unless its hash is still remembered |
| GroupServer.MessageUtils.CheckAndStoreMessageHash | nymstr-group/src/db_utils.rs:574-584 | tells a new hash from a remembered one and keeps the older time |
| GroupServer.MessageUtils.StoreUnlessDuplicate | nymstr-group/src/message_utils.rs:1025-1075 | a remembered hash stores nothing; a new one is remembered and its message stored |
| GroupServer.MessageUtils.StoreMessage | nymstr-group/src/db_utils.rs:338-351 | appends one message with the next id |
| GroupServer.MessageUtils.HandleFetchGroup | nymstr-group/src/message_utils.rs:1096-1161 | returns the page after the cursor to an authenticated member and changes no table |
| GroupServer.MessageUtils.HandleStoreWelcome | nymstr-group/src/message_utils.rs:1212-1421 | stores a welcome iff format, size, signature, admin key and quota allow it |
| GroupServer.MessageUtils.StoreWelcome | nymstr-group/src/db_utils.rs:419-441 | replaces the pair's row, with a fresh id |
| GroupServer.MessageUtils.HandleFetchWelcome | nymstr-group/src/message_utils.rs:1424-1556 | returns the caller's welcomes and removes exactly those |
| GroupServer.MessageUtils.TakeAllWelcomes | nymstr-group/src/message_utils.rs:1508-1534 | removing by group, one after the other, removes exactly what was read |
| GroupServer.MessageUtils.HandleSyncEpoch | nymstr-group/src/message_utils.rs:1563-1658 | returns the group's commits after the cursor to an authenticated member |
| GroupServer.MessageUtils.HandleBufferCommit | nymstr-group/src/message_utils.rs:1662-1794 | appends a member's commit and trims its group to the newest 100 |
| GroupServer.MessageUtils.CleanupOldCommits | nymstr-group/src/db_utils.rs:601-620 | deletes the group's rows outside its newest ids |
| GroupServer.OneAtMost | nymstr-group/src/db_utils.rs:454-463 | a user has at most one welcome per group, so fetching one row fetches all |
| GroupLaws.RegisterIff | nymstr-group/src/message_utils.rs:584-791 | accounts change iff a registration has room by tag and by name, is timely and is signed under its key; an admin key makes a new name user and member, any other key puts it in pending |
| GroupLaws.PackageIff | nymstr-group/src/message_utils.rs:690-770 | a key package is kept iff it decodes and its registration adds a row |
| GroupLaws.ApproveIff | nymstr-group/src/message_utils.rs:812-958 | a pending name becomes a user iff the admin signed a timely approval for this group and there is room, and a member iff the group row exists |
| GroupLaws.OthersKeepAccounts | nymstr-group/src/main.rs:399-418 | only a restart, which makes users members, changes accounts otherwise |
| GroupLaws.SendGroupIff | nymstr-group/src/message_utils.rs:979-1075 | a message joins the log iff there is room, it is not empty, a member signed it and its hash was not stored in the last 600 s |
| GroupLaws.StoredIffNew | nymstr-group/src/message_utils.rs:1025-1051 | over runs, with an injective hash, the last condition is that the same member did not have the same text stored in the last 600 s |
| GroupLaws.FetchGroupIff | nymstr-group/src/message_utils.rs:1096-1161 | a page is given out iff there is room and a registered member signed for the cursor |
| GroupLaws.PagesGoToMembers | nymstr-group/src/message_utils.rs:1115-1135 | in every run, whoever gets a page is a member who signed for the cursor, and gets the log from there on, at most 100 messages |
| GroupLaws.StoreWelcomeIff | nymstr-group/src/message_utils.rs:1212-1421 | a welcome is stored, in place of the pair's earlier one, iff room, names, text, signature, admin key and the quota of 20 allow it |
| GroupLaws.FetchWelcomeIff | nymstr-group/src/message_utils.rs:1424-1556 | a signed fetch returns and removes exactly the caller's own welcomes, of the named group if one is named |
| GroupLaws.BufferCommitIff | nymstr-group/src/message_utils.rs:1662-1794 | a commit is buffered, in its sender's name, iff there is room and a member signed for the group and epoch |
| GroupLaws.CommitsAreSigned | nymstr-group/src/message_utils.rs:1662-1794 | in every run each buffered commit has behind it a request that its sender, then a member, signed |
| GroupLaws.SyncIff | nymstr-group/src/message_utils.rs:1563-1658 | commits are given out iff there is room and a member signed for the group and cursor |
| GroupMembership.UsersStay | nymstr-group/src/db_utils.rs:144-154 | a user keeps the first key for the rest of every run |
| GroupMembership.PendingFirstWriter | nymstr-group/src/db_utils.rs:296-325 | no message changes a pending key; only an approval takes it away, into users |
| GroupMembership.MembersAreUsersAlways | nymstr-group/src/db_utils.rs:190-202 | members are users in every run |
| GroupMembership.NewUserIsMemberIff | nymstr-group/src/message_utils.rs:681-790 | a newly added user is a member iff the group row then exists |
| GroupMembership.OldUserJoinsIff | nymstr-group/src/main.rs:399-418 | a user that is not a member becomes one in a step iff that step is a restart with the group row in place |
| GroupMembership.MemberIff | nymstr-group/src/main.rs:399-418 | in every run a user is a member iff the group row existed right after it joined, or the server was restarted later with the row in place |
| GroupExamples.BobJoinsOnlyByRestart | nymstr-group/src/message_utils.rs:851-927 | a user approved before the admin registers is no member once the group row exists, and is one after the next restart |
| GroupMembership.PendingKeyStays | nymstr-group/src/db_utils.rs:296-325 | as long as a name is not a user, its pending key is the first one written |
| GroupMembership.PendingProvenance | nymstr-group/src/message_utils.rs:584-791 | a pending key was put there by a signed, timely registration for that name |
| GroupMembership.ApprovalReturnsPackage | nymstr-group/src/message_utils.rs:909-945 | in every run an approval hands out exactly the key package text of the registration whose key it admits, or none if that text does not decode |
| GroupMembership.MembershipProvenance | nymstr-group/src/message_utils.rs:681-927 | every user registered under the admin key, or was pending by its own registration and later approved, in time, for this group, by the admin |
| GroupMembership.NoAdminNoUsers | nymstr-group/src/message_utils.rs:812-850 | without an admin key nobody is ever admitted |
| GroupDelivery.HashesCoverAlways | nymstr-group/src/db_utils.rs:574-598 | the hash table holds exactly the hashes of messages stored in the last 600 s |
| GroupDelivery.RefusedIffRecent | nymstr-group/src/message_utils.rs:1025-1051 | with an injective hash, a send is refused as a duplicate iff the full log holds the same sender and text from at most 600 s ago |
| GroupDelivery.RepeatsSpaced | nymstr-group/src/message_utils.rs:1025-1051 | equal messages of one sender are always more than 600 s apart in the log |
| Validation.JoinInjective | crates/nymstr-common/src/validation.rs:4-10 | `sender:ciphertext` reads back in one way, because a valid name has no colon |
| Validation.UsernameExamples | crates/nymstr-common/src/validation.rs:26-41 | the repository's test names are accepted and refused as its tests say, 64 and 65 characters included |
| Validation.GroupIdExamples | crates/nymstr-common/src/validation.rs:44-56 | the same for group ids, 128 and 129 characters included |
| GroupDelivery.WelcomesConserved | nymstr-group/src/db_utils.rs:419-488 | over a run, stored = pending + returned + replaced, as multisets |
| GroupDelivery.WelcomeInOnePlace | nymstr-group/src/message_utils.rs:1356-1535 | each stored welcome is in exactly one of the three places, exactly once |
| GroupDelivery.ReturnedToOwner | nymstr-group/src/message_utils.rs:1456-1535 | a welcome is returned only to its own user, under a signature that verified |
| GroupDelivery.MailBoundedAlways | nymstr-group/src/message_utils.rs:1356-1395 | at most 20 pending welcomes per user and one per user and group, in every run |
| GroupDelivery.RenewalRefusedAtQuota | nymstr-group/src/message_utils.rs:1356-1395 | at 20 pending welcomes a store for a pair that already has one changes nothing |
| GroupDelivery.DecodedCheckIsDead | nymstr-group/src/message_utils.rs:1271-1309 | a text of at most 174763 characters decodes to at most 131070 bytes |
| GroupDelivery.TextComesBack | nymstr-group/src/message_utils.rs:1283-1296 | the text a fetch encodes is the very text some message stored for that user and group |
| GroupDelivery.CommitsAreBuffered | nymstr-group/src/message_utils.rs:1757-1772 | the server's commit table is the commit buffer of the run's accepted commits |
| GroupDelivery.ServerSyncIsLatest | nymstr-group/src/message_utils.rs:1607-1630 | in every run a sync is the last hundred of the group's commits after the cursor |
| GroupDelivery.WritersAreMembers | nymstr-group/src/message_utils.rs:508-539 | every stored message and buffered commit of every run was written by a member |
| GroupDelivery.StoredOverSignature | nymstr-group/src/message_utils.rs:979-1075 | a message enters the log only over its sender's signature on that ciphertext |
| GroupDelivery.WelcomeOverSignature | nymstr-group/src/message_utils.rs:1312-1355 | a welcome is stored only over a signature of a user who holds the admin key, where one is set |
| GroupIds.ValidIff | crates/nymstr-common/src/validation.rs:13-19 | the base64 text of an id passes as a group id iff the id has 1 to 96 bytes, a multiple of 3, and its text no '+' and no '/' |
| GroupIds.RefusedUnlessSendable | nymstr-group/src/message_utils.rs:1578-1590 | a sync or commit under the text of any other id is refused in every state |
| GroupIds.NothingBuffered | nymstr-group/src/message_utils.rs:1677-1689 | in every run nothing is buffered under a name that is no valid group id |
| GroupIds.BadNameNeverStored | nymstr-group/src/message_utils.rs:1212-1421 | in every run no welcome is stored, pending or returned under a name with a character outside the allowed ones |
| GroupIds.NoWelcomeArrives | app/desktop/src/commands/groups.rs:1339-1350 | if all welcomes are offered under the server's Nym address, none is ever stored or returned |
| Base64.DecodeIffEncode | nymstr-group/src/message_utils.rs:1283-1296 | decoding undoes encoding, and a text that decodes is the one encoding of its bytes |
| Base64.DecodedLength | nymstr-group/src/message_utils.rs:248-252 | three bytes per four characters, less at most two |
| Base64.EncodedShape | nymstr-group/src/message_utils.rs:1620-1631 | four characters per three bytes or fewer, digits but for the padding, and padding iff the bytes do not come in threes |
| CommitBuffer.BufferRefinesLog | nymstr-group/src/db_utils.rs:515-620 | after every commit each group holds exactly its last min(100, total) commits |
| CommitBuffer.TrimKeepsNewest | nymstr-group/src/db_utils.rs:601-620 | trimming leaves a group its n newest commits |
| CommitBuffer.TrimSparesOthers | nymstr-group/src/db_utils.rs:601-620 | trimming one group never touches another |
| CommitBuffer.SyncIsLatest | nymstr-group/src/db_utils.rs:545-566 | a sync is the last hundred of the group's later commits, in order; the page limit never cuts |
| CommitBuffer.SyncCompleteIff | nymstr-group/src/db_utils.rs:545-566 | nothing is missing iff at most a hundred came after the cursor |
| CommitReplay.ProcessCommits | app/desktop/src/tasks/message_loop.rs:1000-1041 | the loop with ignored failures computes the replay |
| CommitReplay.ReplayConverges | app/desktop/src/tasks/message_loop.rs:1000-1041 | whatever else the log holds, replaying all of it brings a member at any point of the accepted history to the newest state, if no commit came before its epoch (section 12.4.2 of RFC 9420) |
| CommitReplay.ReplayTwice | app/desktop/src/tasks/message_loop.rs:1000-1041 | under the same condition a second replay changes nothing |
| CommitReplay.ReplayOutside | app/desktop/src/tasks/message_loop.rs:1000-1041 | a member whose epoch no entry carries stays where it was |
| CommitReplay.PassedCommitFails | app/desktop/src/tasks/message_loop.rs:1000-1041 | a commit the history has passed, taken or not, never applies again |
| CommitReplay.SuffixConverges | app/desktop/src/tasks/message_loop.rs:1000-1041 | a suffix of the log brings a member up to date if it lacks no accepted commit from before the suffix |
| CommitReplay.SuffixTooLate | app/desktop/src/tasks/message_loop.rs:1000-1041 | and leaves every other member unchanged, short of the newest state, if the suffix has no commit for an epoch already left |
| CommitReplay.ReplyIsSuffix | nymstr-group/src/message_utils.rs:1563-1658 | an accepted sync from id 0 delivers, through base64 both ways, exactly the last hundred of all commits ever buffered for the group |
| CommitReplay.SyncAcceptedIff | nymstr-group/src/message_utils.rs:1563-1612 | the client's sync is accepted iff the id is sendable, the rate allows it, the signature verifies and the user is a member |
| CommitReplay.UnsendableIsCutOff | app/desktop/src/commands/groups.rs:411-430 | for an id that is not sendable, in every run the server holds no commit and a sync leaves any member as it was |
| CommitReplay.ThirtyTwoBytesCutOff | app/desktop/src/commands/groups.rs:411-430 | every 32-byte id is such an id: its text is padded |
| CommitReplay.CatchUpIff | app/desktop/src/commands/groups.rs:411-430 | over any run, for the client's own request: refused, it changes nothing; without stale commits the member ends at the newest state iff it was there already or the request was accepted and the member lacks no accepted commit the buffer has dropped, and a member that lacks one stays unchanged |
| CommitReplay.HundredMissedIsFine | app/desktop/src/commands/groups.rs:411-430 | a member that missed at most a hundred entries reaches the newest state if its request is accepted, and stays where it is if not |
| CommitExamples.BuffersAnything | nymstr-group/src/message_utils.rs:1662-1794 | for every list of non-empty commits and valid name there is a run after which it is what the server has buffered |
| CommitExamples.EarlyCommitForks | nymstr-group/src/message_utils.rs:1662-1794 | a run that buffers a commit before its epoch, so `NoneEarly` fails and `NoneStale` holds: an accepted sync takes a member to a state outside the history |
| CommitExamples.StaleCommitForks | nymstr-group/src/message_utils.rs:1662-1794 | a run that buffers one commit and then a hundred for the epoch it left, so `NoneStale` fails and `NoneEarly` holds: the first is trimmed, and an accepted sync takes the member that missed it to a state outside the history |
| GroupPaging.CursorAfter | app/desktop/src/tasks/message_loop.rs:861-870 | the new cursor is the page's maximum id, or the old cursor |
| GroupPaging.MaxIdIsMax | app/desktop/src/tasks/message_loop.rs:861-866 | that function is the maximum of the page |
| GroupPaging.LogNumbered | nymstr-group/src/db_utils.rs:338-351 | in every run the log is numbered 1, 2, 3, … |
| GroupPaging.LogOnlyGrows | nymstr-group/src/db_utils.rs:338-351 | the log is append-only |
| GroupPaging.PageIsSlice | nymstr-group/src/db_utils.rs:354-371 | a page is the next slice of the log and its largest id is where the slice ends |
| GroupPaging.ReadingIsExact | nymstr-group/src/db_utils.rs:354-371 | with any sends between the polls, a reader that asks from the cursor it last computed holds exactly the log from start to cursor, in order |
| GroupPaging.PollsFinish | nymstr-group/src/db_utils.rs:354-371 | once sends stop, such a reader needs one poll per hundred outstanding messages |
| GroupCursor.GroupClient.LastSeenId | app/desktop/src/commands/groups.rs:378-386 | the cursor stored under the group's address, or 0 |
| GroupCursor.GroupClient.HandleFetchGroupResponse | app/desktop/src/tasks/message_loop.rs:861-895 | stores the page's maximum id under the envelope's sender, if the write is taken, and announces the count; a ghost record notes what arrived |
| GroupCursor.CursorBounded | app/desktop/src/tasks/message_loop.rs:861-889 | the next request's cursor is at most the log's length, and at most 100 per write that was taken under the key that is read |
| GroupCursor.NothingPast | app/desktop/src/tasks/message_loop.rs:861-889 | no message past 100 times one more than those writes ever arrives |
| GroupCursor.FirstPageAgain | app/desktop/src/tasks/message_loop.rs:843-877 | without such a write every poll brings the first min(100, length) messages of the log again |
| GroupCursor.ReadsOn | app/desktop/src/commands/groups.rs:378-386 | with agreeing keys and stored writes the client is the exact reader |
| GroupCursor.AllArrivedAfterPoll | app/desktop/src/tasks/message_loop.rs:861-889 | whatever the keys and whichever writes were taken, after a poll the whole log has arrived iff it ends at most a page past the cursor that poll carried |
| GroupCursor.AllArrivedIff | app/desktop/src/core/db/schema.rs:134-141 | after enough polls the whole log has arrived iff it fits one page or the keys agree and the writes are taken |
| GroupCursor.MissesMessage101 | app/desktop/src/tasks/message_loop.rs:843-877 | with the client as written, against a server with 101 messages, the last never arrives, however many polls |
| GroupCursor.TwoPollsSuffice | app/desktop/src/tasks/message_loop.rs:843-877 | on the same log two polls with agreeing keys and stored writes bring in everything |
| GroupExamples.LogOfAnyLength | nymstr-group/src/message_utils.rs:979-1075 | the log of a server reaches every length |
| PendingDrain.Client.DrainPendingMessages | app/desktop/src/tasks/message_loop.rs:1111-1152 | sends and marks in place up to the first failure |
| PendingDrain.PendingMeans | app/desktop/src/tasks/message_loop.rs:1111-1125 | what is pending is exactly the own, unsent messages of the conversation, by timestamp |
| PendingDrain.QueuedMeans | app/desktop/src/tasks/message_loop.rs:1111-1125 | queued are exactly the own messages of the conversation that were stored as pending |
| PendingDrain.DrainSendsPrefix | app/desktop/src/tasks/message_loop.rs:1111-1152 | a drain sends a prefix in timestamp order, marks exactly that prefix, and spares other conversations |
| PendingDrain.SentOrPending | app/desktop/src/tasks/message_loop.rs:1111-1152 | over any run, each queued message is sent or pending, exactly once |
| PendingDrain.SentThenPending | app/desktop/src/tasks/message_loop.rs:1136-1150 | queued in timestamp order, sent followed by pending is exactly what was queued, whatever fails |
| PendingDrain.DrainFinishes | app/desktop/src/tasks/message_loop.rs:1136-1150 | a drain without failures has sent everything, in order |
| RetryBuffer.BufferProcessor.ProcessConversationBuffer | app/desktop/src/tasks/buffer_processor.rs:133-227 | the loop visits each unsettled message read at the start, in order |
| RetryBuffer.BufferProcessor.ProcessMessage | app/desktop/src/tasks/buffer_processor.rs:147-223 | one visit: fail at ten retries, else count, try, and save or mark by the outcome |
| RetryBuffer.PassTriesEach | app/desktop/src/tasks/buffer_processor.rs:147-224 | a pass tries each unsettled row of its conversation once and touches no other |
| RetryBuffer.ReadInOrder | app/desktop/src/core/db/messages.rs:201-232 | a pass reads exactly the conversation's open rows, by time received |
| RetryBuffer.PassIff | app/desktop/src/tasks/buffer_processor.rs:147-223 | a pass leaves a row, fails it after ten retries, or tries it once and records the outcome, each exactly when |
| RetryBuffer.PassAttempts | app/desktop/src/tasks/buffer_processor.rs:146-165 | it tries the rows read with fewer than ten retries, in order |
| RetryBuffer.CleanUpIff | app/desktop/src/core/db/messages.rs:302-315 | a clean-up keeps exactly the open rows of the last 300 s |
| RetryBuffer.SavedProvenance | app/desktop/src/tasks/buffer_processor.rs:167-196 | in every run a saved message was received in that conversation at that time, and its text is what one of its first ten attempts yielded |
| RetryBuffer.TriedAndSaved | app/desktop/src/tasks/buffer_processor.rs:149-196 | in every run a message is tried at most ten times, and saved exactly once iff an attempt yields content |
| RetryBuffer.RowTellsHistory | app/desktop/src/tasks/buffer_processor.rs:162-222 | a row's counter and flags say exactly how its attempts went |
| RetryBuffer.SettledByEleventh | app/desktop/src/tasks/buffer_processor.rs:147-160 | after eleven passes over its conversation a message is settled or removed |
| RetryBuffer.SettledStays | app/desktop/src/core/db/messages.rs:200-232 | a settled message never changes again |
| MessageGrouping.CalculateMessagePositions | app/src/components/chat/Message.tsx:207-247 | one label per message, in order, around the unchanged message |
| MessageGrouping.LabelsRenderRuns | app/src/components/chat/Message.tsx:207-247 | the labels are the blocks (single, or first normal* last) of the runs |
| MessageGrouping.RunsAreMaximal | app/src/components/chat/Message.tsx:214-226 | a run starts exactly at the first message and where two neighbours differ in sender, lack a time or are 120000 ms or more apart |
| MessageGrouping.RunsCoverAll | app/src/components/chat/Message.tsx:207-247 | the runs together have all messages |
| MessageGrouping.LabelsDecode | app/src/components/chat/Message.tsx:228-238 | the run lengths can be read back from the labels |
| MessageGrouping.SenderAtStarts | app/src/components/chat/Message.tsx:240-245 | the sender shows exactly at the start of a run; message and direction are kept |

## Left out

- Group registration, address updates and the query actions of the discovery server.
- DiscoveryServer.MessageUtils.ProcessMessage: treats group registration, queries and address updates as requests without effect; the key-package actions are the methods of `KeyPackageServer`.
- DiscoveryServer.MessageUtils.CleanupStaleEntries: leaves out the sweep of pending group registrations, which this model does not have.
- The signature check when a key package is published.
- The random trigger of the stock cleanup: expiry is an event that may come at any time.
- PGP, HMAC, SHA-256 and the MLS library beyond the functions named under Conventions.
- The mixnet, reply-block storage, stdio transport and configuration; start-up work other than emptying the in-memory tables and the members' backfill.
- JSON parsing and the two request formats: a request is a datatype, and both formats of a request are one case of it.
- Reply texts, logging, React components and Tauri commands other than the loops listed above.
- GroupPaging.ReadingIsExact: is about a reader whose cursor is always stored and read back; the client's own, which is not, is in `GroupCursor`.
- GroupPaging.PollsFinish: is about that same reader; what the client itself reaches is in `GroupCursor.AllArrivedIff`.
- CommitReplay.CatchUpIff: where the buffer holds a commit for an epoch left before it, does not say where an accepted sync takes a member that lacks a dropped commit; `StaleCommitForks` shows that it need not stay where it was.
- update_group_cursor_for_user, which would write the cursor under the right key, has no caller.
- The text form of a Nym recipient, `identity.encryption@gateway`, is the mixnet library's and is taken from there.
- Several polls, syncs or sends in flight at once from one client.
- A reply tag is compared as its stored text; that parsing it back succeeds is assumed.
- Timestamps near the ends of the 64-bit range, where the original's subtraction can overflow.
- The difficulty text a client cannot parse, for which it falls back to 16 bits.
- A failing database call, for example between saving a retried message and marking it processed.
- epoch_buffer.rs, a second writer of the retry table, is not part of this model.
- cleanup_expired_messages and the stubbed handlers createGroup, sendGroup, inviteGroup and update.
- ProofOfWork.GrindWithPrefix: takes a solving nonce below 2^64 as given, because the original loop ends only if there is one.
- ProofOfWork.ServerHasLeadingZeroBits: requires the difficulty to fit the hash, where the original would index past its end; a 32-byte hash always fits.
