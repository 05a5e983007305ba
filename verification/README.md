# What the versioned store and the code on it promise, proved

A versioned key-value store, the optimistic-concurrency layer over it, and four smaller cores with
arithmetic or state of their own, modelled in Dafny and proved over every run.

`dafny verify dfyconfig.toml` checks the whole project.

## How the parts stand on each other

- **The ideal store** (`Store.dfy`) never deletes anything and only compares times. `Memory.dfy` is the
  store in memory as it changes its maps: it deletes what has ended on reads and writes and sweeps every
  256th operation. It answers any run as the ideal store does, so everything else is stated on the ideal one.
  `Windows.dfy` and `Listing.dfy` say what its counters and its scans are worth.
- **Texts** (`Text.dfy`, `Json.dfy`, `Contract.dfy`): byte order against code point order, the canonical
  JSON text and its parser, and the text an idempotency mark is bound to.
- **Runs** (`Marks.dfy`): what marks, deadlines and versions promise over any run of requests.
- **Clients** (`Wire.dfy`, `Records.dfy`, `Together.dfy`, `Mutate.dfy`) are methods over a `Line` to the store.
  At each wait of the client a script, of which nothing is known, lets others' requests arrive, time pass,
  and the client's own request be heard, arrive with its answer lost, or never arrive. A postcondition of
  such a method therefore holds in every interleaving. `Serial.dfy` says what a change comes to when it is made alone;
  `Effects.dfy` what can still come of a request, whatever the run goes on with; `Works.dfy` that this is the whole of
  the client's work or nothing, answered or not; `Order.dfy` joins all clients.
- **Keyed sets** (`Members.dfy`, `KeyedSets.dfy`, `KeyedSetsStore.dfy`): each operation is one rewrite of its key's
  record over a `Line`, and all operations on a key come to a run of the sets.
- **Replication** (`Locality.dfy`, `Replication.dfy`, `Failovers.dfy`, `Simulated.dfy`): primary, replica,
  pending and confirmed log; failovers, restarts, shortages of memory, lost replies and stalled replicas.
- **Lockout** (`Lockout.dfy`, `LockoutRuns.dfy`, `LockoutBudget.dfy`): what each call decides, and runs of calls in
  the order they land, as the store lets them land. `LockoutStore.dfy` makes each call by `mutate` over a `Line`, and
  proves that all calls on a key come to such a run; `LockoutHistory.dfy` and `LockoutExact.dfy` say under exactly
  which policies and delays the budget and the holds are kept.
- **Session stand-in** (`Session.dfy`),
  **proxy coverage** (`Bits.dfy`, `Addresses.dfy`, `Coverage.dfy`), **added claims** (`Units.dfy`, `Claims.dfy`).

## What is taken as given

- A mark a client draws is borne by no other client's request; handles and secrets are drawn afresh.
- The store's clock never goes back, and it counts from a positive time.
- A JSON number is its text, one text to a number; characters of that text cannot be mistaken for structure.
- A pause is a wait like any other; patience is counted in pauses, as the code counts it.
- How a lockout's state, or a keyed set's record, is written as JSON: some way that reads back.
- A subject's revocation boundary, once written, covers every time up to it and never moves back. A comparison of a
  later time may be answered either way.
- The two clocks a keyed set meets, and the time a decision takes to land, move apart by no more than the ten
  minutes the record is kept past its last end.

## What the code does where its words say more or less

- **A decision on an absent key lands late.** The lockout's write is a put where none was read, made with no
  deadline: it lands whenever the key is absent again, whatever was written and ended meanwhile. So a budget of one
  can let two into one window (`LateOutrunsTheBudget`), and an attempt can be counted before the hold of another has
  passed. `BudgetsExactly` and `SpacesExactly` say when neither can happen: where every write lands, after it read, in
  less than what is stored is kept (`max(budgetWindowMs, memoryMs)`), as a deadline on the write would see to; or,
  with no bound, under exactly the policies of `hardLimit` 1 for the budget, of `threshold` equal to `hardLimit` for
  the holds.
- **Budget by names.** An attempt is named by a time that may run ahead of the clock. By names the budget can fail
  however soon writes land: when the stored state has ended, attempts named ahead are forgotten while a window of
  names still holds them. `NamesOutrunTheBudget` is such a run, and there is one under every policy but those of
  `hardLimit` 1. Under any policy a run keeps within it by names while no attempt is named further ahead than the
  state is kept past the window (`NeverOverBudget`).
- **A revocation written late.** A boundary written with a time the clock had passed at the write lets in a session
  opened between the two; none is let in exactly where no boundary is written so (`NeverEnteredExactly`).
- **The second comparison of the coverage check** never changes its answer: IPv6 covered whole covers the
  mapped addresses, and with them IPv4 (`Ipv6HoldsIpv4`).
- **A scan of the simulated store** is answered without confirmation whatever its space declares, since
  the space is looked for under a key.

## Model

| member | source | states |
|---|---|---|
| Memory.HandleAlike | modules/foundation/store/src/memory.ts:80-175 | Stores that differ only by what has ended answer any request alike, and stay so: deleting what has ended, whenever, is unobservable. |
| Memory.MemoryStore.Sweep | modules/foundation/store/src/memory.ts:80-85 | The sweep of every 256th operation deletes only what has ended, of values, counters and marks. |
| Memory.MemoryStore.HandleRequest | modules/foundation/store/src/memory.ts:116-175 | A request through the mark and deadline guards answers and leaves what the ideal store does, up to what has ended, whether or not a sweep fell in it. |
| Memory.Serve | modules/foundation/store/src/memory.ts:66-299 | Any run of requests, reads and scans on a clock that never goes back is answered as the store that never deletes answers it. |
| Memory.ScanSpace | modules/foundation/store/src/memory.ts:281-295 | A scan pages exactly the keys of the space whose values live, sweeps and deletions notwithstanding. |
| Windows.WindowsHold | modules/foundation/store/src/memory.ts:262-279 | In any run each window counts at most the limit, windows of a key never overlap, and any stretch as long as a window holds at most twice the limit. |
| Listing.Scan | modules/foundation/store/src/memory.ts:281-295 | A page is the first hundred keys due, in order, with a cursor exactly while more are due. |
| Listing.WalkAnswersOnce | modules/foundation/store/src/memory.ts:281-295 | A key whose value lives through a whole walk is answered on exactly one page, at one place, whatever is written or removed between pages. |
| Listing.CursorsGrow | modules/foundation/store/src/memory.ts:286-294 | Along a walk the cursors strictly grow. |
| Listing.NeverAgain | modules/foundation/store/src/memory.ts:286-294 | No key comes on two pages, live throughout or not. |
| Text.ByteOrderIsCodePointOrder | modules/foundation/store/src/contract.ts:259-262 | Comparing two strings' UTF-8 bytes gives the order of their code points, for strings of any length. |
| Text.CodePointOrderTotal | modules/foundation/store/src/contract.ts:259-262 | That order is total: antisymmetric, transitive, and equal only for equal strings. |
| Text.OrdersDiffer | modules/foundation/store/src/contract.ts:240-262 | The order the canonical text sorts by, UTF-16 units, is another one: a concrete pair sorts both ways. |
| Json.CanonicalMeansSame | modules/foundation/store/src/contract.ts:239-248 | Two values have one canonical text exactly when they are equal as JSON, the order of members aside, at every depth. |
| Json.CanonicalReadsBack | modules/foundation/store/src/contract.ts:239-248 | Parsing a canonical text gives back the value it was written from, in normal form. |
| Json.NormalTwice | modules/foundation/store/src/memory.ts:168-175 | A value as stored, read back from its canonical text, has that same text again. |
| Contract.IdempotencyTextMeansSame | modules/foundation/store/src/contract.ts:250-257 | Two requests have one idempotency text exactly when they are one operation on the same keys in the same order with equal arguments, member order aside. |
| Marks.CopiesGetFirstAnswer | modules/foundation/store/src/memory.ts:116-167 | Once a marked request is carried out no later copy of it is; while the mark is kept a copy gets the first answer, and past that only late ones arrive. |
| Marks.AtMostOnce | modules/foundation/store/src/memory.ts:116-167 | A marked request with a deadline is carried out at most once in any run, however often it arrives. |
| Marks.AnswerComesFrom | modules/foundation/store/src/memory.ts:126-139 | An answer given to any copy of a request under its own mark is the answer of the one copy carried out, before it. |
| Marks.VersionMeansEntry | modules/foundation/store/src/memory.ts:60-63 | A version met again under a key, at any two points of a run, names the very same entry: a key never comes back to an old version. |
| Wire.Line.Send | modules/foundation/records/src/records.ts:58-71 | A marked send, heard or lost: a heard answer is that of the copy just arrived; unheard, it may still have arrived. |
| Records.UntilAnswered | modules/foundation/records/src/records.ts:58-71 | Resends are the same request under the same mark, within the patience, and an answer is the store's to the last copy. |
| Records.SendMarked | modules/foundation/records/src/records.ts:53-94 | Of all copies of a marked write, ever, one at most changes anything; an answer is that of one instant of the call; refused there, it never changes anything. |
| Records.ConfirmedAsRead | modules/foundation/records/src/records.ts:95-116 | Confirmed, the key stood as read at an instant of the call; and nothing the confirmation sends ever changes a record. |
| Records.Rewrite | modules/foundation/records/src/records.ts:117-146 | An answered before and after is that of one instant of the call, at which the key held what the decision was made from and right after which it holds what was decided, nothing else having changed; no other send of the call ever changes anything. Unavailable, what may still land is the whole decision on what it meets, once, or nothing. |
| Records.Create | modules/foundation/records/src/records.ts:183-210 | Created: placed at an instant of the call at which the key held none. Exists: the key held a record at an instant of the call, and nothing the call sent ever takes effect. Unavailable: it is placed whole where the key holds none, once, or not at all. |
| Records.Remove | modules/foundation/records/src/records.ts:215-229 | Removed at one instant of the call, or absent at one; nothing else it sends changes anything, ever; unavailable, it may still remove that record, once, and nothing else. |
| Effects.RefusedIsInert | modules/foundation/store/src/memory.ts:116-167 | A marked write answered conflict, exists or missing never takes effect, however the run goes on. |
| Effects.CarriedOnlyAt | modules/foundation/store/src/memory.ts:116-167 | A marked write carried out at a call changes nothing at any other, past or to come. |
| Serial.WritesApply | modules/foundation/records/src/records.ts:391-397 | The batch's writes, made one after another, leave each named record as decided and every other as it was. |
| Together.SetNexts | modules/foundation/records/src/records.ts:378-385 | Decisions set by place are those given by record, over every naming of it; a record decided twice is refused. |
| Together.TellChanges | modules/foundation/records/src/records.ts:411-420 | What is told of each naming is what its record held when read and what was decided for it. |
| Together.ChangeRecords | modules/foundation/records/src/records.ts:329-423 | Answered, there is one instant of the call at which everything read, targets and watched, was as decide was given it, right after which the named records are exactly the decided nexts and no other record changed; and of all it ever sent, only that write changes anything. Answered or not, what changes is the whole change at one instant. |
| Together.ChangeIsWhole | modules/foundation/records/src/records.ts:391-410 | The write a change sends makes, whenever a copy of it arrives in any run that goes on, the whole change decided on what stands there, or nothing. |
| Records.WriteIsWhole | modules/foundation/records/src/records.ts:117-146 | So does the write of a decision on one key. |
| Records.TakeIsWhole | modules/foundation/records/src/records.ts:215-229 | So does the taking of a record. |
| Order.Serializable | modules/foundation/records/src/records.ts:166-423 | Changes, rewrites, creations and removals by any number of clients, in any interleaving, come of work done one piece at a time from nothing: each client told anything has one turn and was told what came of it, one told before another began comes first, and one never told has one turn with its work whole, or none. |
| Order.ServedLater | modules/foundation/records/src/records.ts:58-146 | What an operation promised its client at its end holds of every longer run. |
| Mutate.Mutate | modules/foundation/store/src/contract.ts:192-234 | Settled, it is the decision on what was last read, which the key held at one instant of the call, written, removed or left there; late or contended, nothing it sent changed anything; of all it sent one at most did, and a send given up writes or removes, whenever it lands, what was decided on the entry it meets, one that names an entry once at most. |
| Members.OverCapFacts | modules/foundation/records/src/records.ts:638-651 | Over the cap, what was added stays, and exactly as many as are over go: those of the others that end first. |
| KeyedSets.DecideAdd | modules/foundation/records/src/records.ts:692-703 | The maps an add fills come to its decision. |
| KeyedSets.AddedHolds | modules/foundation/records/src/records.ts:689-703 | An add holds its own member, ending no earlier than asked or than before, no more than the cap, and of the other live members all but the first to end. |
| KeyedSets.AddedWaits | modules/foundation/records/src/records.ts:700-703 | Exactly those pushed out, and what awaited and lives, await after the same write, each to its own end. |
| KeyedSets.NeverOverCap | modules/foundation/records/src/records.ts:660-744 | After any interleaving of add, remove and settled, at most the cap are held, and nobody is held or awaits twice. |
| KeyedSets.FoundWhileLive | modules/foundation/records/src/records.ts:675-681 | While any member in it lives, held or awaiting, the stored record is found. |
| KeyedSets.StaysHeld | modules/foundation/records/src/records.ts:660-744 | Over any run a live member leaves the held only by its removal or by being pushed out. |
| KeyedSets.PushedOutAwaits | modules/foundation/records/src/records.ts:692-703 | What an add pushes out is in awaiting right after, to its own end, and held no more. |
| KeyedSets.AwaitsOn | modules/foundation/records/src/records.ts:728-743 | A live member awaits on exactly until it is settled; pushed out again, it awaits to that end. |
| KeyedSets.AddLands | modules/foundation/records/src/records.ts:684-703 | Whatever came before, an add leaves its own member held to the end asked for or later. |
| KeyedSetsStore.Operate | modules/foundation/records/src/records.ts:683-744 | An operation over the store, answered, is done at one instant of its call, on what the record held there and by a reading of the sets' clock, telling those it pushed out there; unanswered, what may still land is the whole of it, once. |
| KeyedSetsStore.CallsAreAWalk | modules/foundation/records/src/records.ts:660-744 | All operations on a key, whatever else reaches the store, come to a run of the sets in the order of their instants. |
| Locality.HandleAgain | modules/foundation/store/src/simulated.ts:110-142 | A request taken again at its time, by the versions it named, is answered and leaves the same, naming those and no other. |
| Locality.HandleIn | modules/foundation/store/src/simulated.ts:148-159 | Asked of some spaces only, a request of theirs is answered the same and leaves the same in them. |
| Replication.AlwaysReplays | modules/foundation/store/src/simulated.ts:106-222 | In every reachable state the primary is a replay of confirmed then pending writes and the replica of confirmed ones, every replay naming what was named first. |
| Replication.KeptOnlyKeeps | modules/foundation/store/src/simulated.ts:148-159 | A restart or a shortage of memory keeps exactly what primary and replica held of the spaces declaring the guarantee. |
| Failovers.AnsweredSurvives | modules/foundation/store/src/simulated.ts:160-222 | An answered write stays confirmed through any faults its kind is spared by, with everything of that kind logged before it, in order. |
| Failovers.AnsweredOutlivesFailovers | modules/foundation/store/src/simulated.ts:160-222 | Through any number of failovers, whichever store is primary is the one that took the answered write, with everything before it, and later writes after. |
| Failovers.ReadOutlivesFailovers | modules/foundation/store/src/simulated.ts:166-171 | What a confirmed read answered is held by whichever store is primary later, before writes made since. |
| Failovers.AnsweredOutlivesFaults | modules/foundation/store/src/simulated.ts:148-222 | Through restarts and shortages of memory as well, an answered write of durable spaces kept from eviction stays, with all of theirs before it. |
| Failovers.NamedOnce | modules/foundation/store/src/simulated.ts:113-119 | A write names its entries, and logs names, after every version any store held or log named before, through any faults: none is ever named twice. |
| Simulated.SimulatedStore.Replay | modules/foundation/store/src/simulated.ts:132-142 | Replaying a log takes its writes again, each at its own time and by its own versions, and counts none. |
| Simulated.SimulatedStore.Apply | modules/foundation/store/src/simulated.ts:160-196 | A write's turn in place, its whole new state and answer, failing writes and lost replies included. |
| Simulated.SimulatedStore.ConfirmWrite | modules/foundation/store/src/simulated.ts:197-202 | A confirmation's turn in place: caught up, already confirmed, or unavailable where a failover lost the write. |
| Simulated.SimulatedStore.FailOver | modules/foundation/store/src/simulated.ts:253-260 | A failover in place: the replica is primary, what was pending is gone. |
| Simulated.SimulatedStore.KeepOnly | modules/foundation/store/src/simulated.ts:148-159 | A rebuild in place from the log of the spaces that declare the guarantee. |
| LockoutRuns.AttemptTimesGrow | modules/foundation/rate-limit/src/lockout.ts:180-203 | While a key's state is kept, each attempt's time is later than all handed out before it. |
| LockoutRuns.GenerationCounts | modules/foundation/rate-limit/src/lockout.ts:53-108 | A key's generation is the number of releases ever answered released, and once there is one the key is kept with no end. |
| LockoutRuns.AppliedOnce | modules/foundation/rate-limit/src/lockout.ts:79-100 | A release id asked again within its keepMs answers already, whatever failures, hand-backs and other releases come between, or read before another's write landed. |
| LockoutRuns.FixedOn | modules/foundation/rate-limit/src/lockout.ts:67-108 | A fixed hold goes in a call exactly when that is a whole release, a checked one naming it and not yet applied, or the hand-back of the attempt that fixed it while counted. |
| LockoutRuns.FixedStays | modules/foundation/rate-limit/src/lockout.ts:45-108 | Through any other calls and any passing of time it stays, fixed by the same attempt. |
| LockoutRuns.HoldsGrow | modules/foundation/rate-limit/src/lockout.ts:187-190 | Under a usable policy holds double from backoffMs up to the longest, and none outlasts the memory. |
| LockoutRuns.NextComesAfterHold | modules/foundation/rate-limit/src/lockout.ts:110-119 | Where every write lands in less than what is stored is kept, the next attempt admitted comes at least the hold after the attempt that earned it. |
| LockoutRuns.HoldsAddUp | modules/foundation/rate-limit/src/lockout.ts:184-208 | There, so many attempts of one remembered run take at least the sum of the holds they earned, each one longer in the run. |
| LockoutRuns.ForgottenAfterHold | modules/foundation/rate-limit/src/contract.ts:124-137 | Under a policy that passes, whenever a run is forgotten its last hold has ended. |
| LockoutBudget.NeverOverBudget | modules/foundation/rate-limit/src/lockout.ts:174-238 | In any run of reservations, successes, abandonments and releases whose writes land in less than what is stored is kept, every window holds at most budget attempts admitted and not handed back or forgiven, where the clock stood at their admission; by names too while none runs further ahead than the state is kept past the window. |
| LockoutExact.BudgetsExactly | modules/foundation/rate-limit/src/lockout.ts:141-238 | Every run under a usable policy keeps within the budget if and only if hardLimit is 1, so that the first attempt fixes the hold; or, by the clock, if also every write lands in less than what is stored is kept. |
| LockoutExact.SpacesExactly | modules/foundation/rate-limit/src/lockout.ts:110-208 | In every run an attempt that earns a hold is followed by none before the hold has passed, if and only if threshold equals hardLimit or every write lands in less than what is stored is kept. |
| LockoutExact.LateOutrunsTheBudget | modules/foundation/rate-limit/src/lockout.ts:141-238 | A run in which a put on an absence read lets two into one window of a budget of one, by clock and by name. |
| LockoutExact.NamesOutrunTheBudget | modules/foundation/rate-limit/src/lockout.ts:150-155 | A run of prompt writes in which a budget of one lets two into one window of names. |
| LockoutExact.SameName | modules/foundation/rate-limit/src/lockout.ts:150-201 | Unless the first attempt fixes the hold, each time what is stored ends one more attempt of the very same name can be admitted, so as many as one likes. |
| Lockout.SwiftIsCurrent | modules/foundation/rate-limit/src/lockout.ts:135-146 | Where every write lands in less than what is stored is kept, each call decides on what stands when it lands, an absence read included. |
| LockoutStore.Changing | modules/foundation/rate-limit/src/lockout.ts:156-172 | A call decides inside `mutate`, again on each lost race; it answers what the decision written, or kept, decided on what was read, at one instant of the call; unanswered, whatever it changes, whenever it lands, is such a decision. |
| LockoutStore.CallsAreAWalk | modules/foundation/rate-limit/src/lockout.ts:135-172 | All calls on a key over the store, however they come together and whatever else reaches it, come to a run of the lockout: what each was made on still stood when its write landed, or the key was absent again. |
| Session.NeverEnteredOnceRevoked | modules/identity/session/src/testing.ts:786-867 | In any interleaving of a login, entries and a revocation written with a time not yet passed, a session whose proof began by that time is entered by no cookie whose last comparison comes after. |
| Session.NeverEnteredExactly | modules/identity/session/src/testing.ts:834-861 | Runs whose revocations are written with times at most so far behind the clock never enter one, if and only if that is not behind at all; a run shows it. |
| Session.NeverRaisedOnceRevoked | modules/identity/session/src/testing.ts:874-893 | Nor is its cookie raised to another. |
| Session.NoCookieOnceSeen | modules/identity/session/src/testing.ts:853-861 | A login whose comparison saw the revocation leaves no cookie to its session, then or ever. |
| Session.SessionStandIn.Rotate | modules/identity/session/src/testing.ts:879-887 | A raise in place: the old secret opens nothing; the new one opens the same session until its same end; its methods are those of both lists, each once; every other cookie and session is as it was. |
| Session.Composition.Take | modules/identity/session/src/testing.ts:786-893 | The stand-in and its requests, each going on to its next await in place, come to the steps those runs are of. |
| Session.WithEach | modules/identity/session/src/testing.ts:700-703 | A raised session's methods are those of both lists, each once. |
| Addresses.Ipv4Holds | modules/foundation/request-source/src/settings.ts:57-59 | An IPv4 address's number has each octet at its place and fits thirty-two bits. |
| Addresses.Ipv6Holds | modules/foundation/request-source/src/settings.ts:61-75 | An IPv6 address's number has its eight groups each at its place, what `::` leaves out being zeros and a dotted tail its last two. |
| Addresses.TailJoins | modules/foundation/request-source/src/settings.ts:63-66 | A dotted tail's two groups joined are its number. |
| Coverage.CoverAll | modules/foundation/request-source/src/settings.ts:80-88 | True exactly when every number up to the last lies in some interval, in whatever order they are given. |
| Coverage.IntervalShares | modules/foundation/request-source/src/settings.ts:103-107 | A block's interval is exactly the addresses that share its leading bits. |
| Coverage.BothEndsIsAll | modules/foundation/request-source/src/settings.ts:42-55 | One block holds both ends of a family exactly when it holds all of it. |
| Coverage.CoverAFamilyTogether | modules/foundation/request-source/src/settings.ts:90-117 | True exactly when the blocks that cover no family alone leave out no IPv4 address, IPv6 blocks' mapped share counted, or no IPv6 address. |
| Coverage.Ipv6HoldsIpv4 | modules/foundation/request-source/src/settings.ts:109-116 | With every IPv6 address held every IPv4 one is. |
| Units.WithinCodePoints | modules/foundation/added-claims/src/claims.ts:86-93 | Looking at the length first and stopping early tells exactly whether a text is within so many code points. |
| Units.DecodedHolds | modules/foundation/added-claims/src/claims.ts:113-125 | Well-formed units are those of the text decoded, a code point to a character. |
| Units.EveryTextDecodes | modules/foundation/added-claims/src/claims.ts:113-125 | Every text's units are well-formed and decode to it. |
| Claims.CountIsLength | modules/foundation/added-claims/src/claims.ts:94-111 | The bytes the walk counts are exactly the UTF-8 length of the JSON text. |
| Claims.Walk.NameOf | modules/foundation/added-claims/src/claims.ts:113-125 | A name is taken exactly when it meets the name rules. |
| Claims.Walk.Copy | modules/foundation/added-claims/src/claims.ts:145-179 | From any counts, a value is copied just when the whole of it meets the rules within what is left of the counts; then it is copied whole and counted to the value and the byte. |
| Claims.CopyClaims | modules/foundation/added-claims/src/claims.ts:240-257 | A set is taken exactly when the finished tree meets the name, size, member, value, depth and byte rules, and then it is the tree given, mirrored to every unit of every string. |
| Claims.CopyMirrors | modules/foundation/added-claims/src/claims.ts:145-221 | What is copied mirrors what was given, to every unit of every string. |

## Left out

- Memory.Serve: requests that name a window of zero milliseconds or an expiry already past follow the code, but the checks `checkedStore` makes of its inputs first (whole numbers, bounds, declared spaces, prototypes, accessors) are not modelled.
- Mutate.Mutate: an unavailable answer leaves open whether the last write landed, as the code leaves it; that an unmarked put, sent once, arrives once is taken.
- Together.ChangeRecords: targets are read one after another, where the code reads them at once; the claims of a place to one kind of record, and the check that all spaces share guarantees, are not modelled.
- Order.Serializable: records changed by `mutate` or by plain writes beside these operations are outside it; such writes are among the others' requests every single operation is proved against.
- Failovers.AnsweredOutlivesFaults: of confirmed reads only failovers are stated; a restart keeps what `KeptOnlyKeeps` says.
- LockoutBudget.NeverOverBudget: `failed` is not in such runs, since it cuts what is stored to the last budget entries and hand-backs can then undercount.
- Session.NeverEnteredOnceRevoked: an entry whose last comparison came before the revocation was written may still be answered after it.
- Coverage.CoverAll: the sort is a sort by start; which of two equal starts comes first is left to it, and does not matter.
- KeyedSets.StaysHeld: members are pairs rather than the JSON they are stored as.
- `pairedRecordsAcross`, `changeTogether`, `pairedRecordsIn`, `secretRecordsIn` and `deferredIn`: slicing of lists around `changeRecords` and `rewrite`, easy members beside them.
- The session listing's cap, which follows the same rule as `overCap`; cookies as text; entry requirements, which are taken as any answer.
- `failNext`, `unreachable` and the hooks of the simulated store: further reasons for unavailable, and other clients' steps, which may come between any two turns here; `holds`, a test's view of what was ever written; its scan.
- Reading an address from its text, and `BlockList` beyond its specification for one block.
- Proxies, accessors, symbols, holes, cycles and prototypes in what is given to the added-claims walk: it is given a plain tree. The messages of refusals.
- JavaScript's number printing; clocks set back; the Redis adapter.
