# Verified model of the exam platform's backend logic

Dafny models of the parts of the platform whose correctness rests on an argument rather than on one line of code, with proofs of what those parts promise. Check everything with `dafny verify dfyconfig.toml`.

| module | models |
|---|---|
| `Maintenance`, `Gate` | the cached maintenance and read-only switches as a concurrent protocol with a clock and database sessions, and the request gate that decides by them |
| `Ledger`, `Sittings`, `Entitlements` | the purchase replay that rebuilds module entitlements, the sittings count that must agree with it, and the live service they both stand in for |
| `Catalogue` | the plan catalogue split and the cloning of plans that institutes hold |
| `RateLimit`, `Otp` | the sliding-window attempt limiter and the cap on one-time codes that is built on it |
| `Polygon` | the even-odd point-in-polygon test |
| `PayU` | the hosted-checkout signature layouts |
| `Attempts` | the retake backfill in both SQL dialects and the emulation of a partial unique index |
| `Speaking`, `Reading3` | chains of in-place rewrites of part constraints and their inverses |
| `Seats`, `SeatLock` | seat accounting under plan limits over adds, reactivations, releases and deletions, and guarded adds that overlap under a row lock |
| `TtlCache` | the in-process cache |
| `Common`, `Numerals` | helpers |

Code that changes state is modelled as classes and loops proved against a specification function (the new state is a function of the old one); the theorems are lemmas about those functions over every input, run or interleaving. Time is a `real` (a whole number of microseconds in the ledger), a table is a map from primary key to record, a lock-protected region is one atomic step, and clock readings, addresses, digests and the answers of services outside the model are parameters.

## Where the code and its own words differ

The model follows the code.

- `backend/app/core/maintenance.py:12-14` promises that a toggle takes effect at once on the process that made it, and `:46-49` that no read is more than ten seconds old. The first holds exactly when no reader is on its way to store the old value and no session opened before the write may yet ask (`Maintenance.VisibleAtOnceIff`); the second exactly when no call is made in a session that has queried before (`Maintenance.TtlHoldsIff`). On MySQL a session reads from the snapshot its first query opened, `backend/app/database.py` sets no other isolation level, and `backend/app/services/developer_ops_service.py:36-65` asks for both flags after four queries of its own. What does hold in every run is ten seconds and the age of the oldest such snapshot (`Maintenance.EveryAnswerIsFresh`, `Maintenance.SettledAfterTtl`).
- `backend/app/main.py:133-139` says the owner is let through as well; the code lets only the developer role through (`Gate.ClosedSiteIsClosed`).
- `backend/app/core/rate_limit.py:1` calls the window fixed; it slides with each attempt. Its Retry-After is cut down to whole seconds, so a client that waits exactly that long can be refused again (`RateLimit.RetryAfterHonestIff`, `RateLimit.RetryAfterMisleads`). The clock is read before the lock is taken; with a limit above one, a reading that lags by any amount can let through one attempt too many (`RateLimit.DecidesExactlyIff`, `RateLimit.KeepsWindowIff`).
- The attempt cap of a login code (`backend/app/routers/auth.py:441-455`) holds over every run exactly when no request waits longer between decoding the token and counting the try than the fraction of a second the whole-second expiry cuts off (`Otp.CapHoldsIff`).
- 0084 says it replays oldest first. It replays a key chronologically exactly when its purchases sort in the order of the instants they count from (`Ledger.ChronologicalIff`). A start it cannot read counts as bought now but is replayed where its text sorts; where all dates sort as their instants, that is the only way to miss the order (`Ledger.QueryOrderIsChronologicalIff`). Dates that SQLite keeps in different forms need not: the code reads both `T` and a space between day and hour, and they sort differently. Either way the expiry can come out later than it need (`Ledger.MisplacedStartCosts`).
- 0084 skips a plan without days and the live service does not; the rows they leave differ exactly when such a plan is the last bought (`Entitlements.RebuiltIsLiveIff`, `Entitlements.LastWithoutDaysParts`). The plan forms ask for at least one day, so this takes a plan row written some other way.
- `backend/app/services/institute_admin_service.py:359-369` says that locking the institute row makes a second request count again and be refused. That needs a count no older than the lock; `create_member` queries before it locks (`:397`), and on MySQL the count is then taken from that snapshot (`SeatLock.CapHoldsIff`, `SeatLock.TwoAddsOverfill`).
- `backend/app/models/attempt.py:165-173` declares the original-attempt index unique; `backend/alembic/versions/0085_sittings_and_drop_test_limit.py:107-113` recreates it on MySQL without uniqueness (`Attempts.NonUniqueAgreesIff`, `Attempts.TwoOriginalsOfOneSitting`).
- `backend/app/core/payu_gateway.py:56-63` gives the reply's layout with an optional first field. Its string pins every signed field of a pipe-free reply except where the additional charge equals the salt (`PayU.PinnedIff`).

## Model

| member | source | states |
|---|---|---|
| Maintenance.Switch.Consult | backend/app/core/maintenance.py:51-54 | A reader's first locked section answers the cached value only while it is younger than the TTL. |
| Maintenance.Switch.StoreBack | backend/app/core/maintenance.py:56-58 | A reader's second locked section stamps the value with the clock read before the database. |
| Maintenance.Switch.Invalidate | backend/app/core/maintenance.py:97-101 | The cache is emptied. |
| Maintenance.Switch.IsEnabled | backend/app/core/maintenance.py:43-59 | A whole read, on the module's fields and in a session that may have queried before, is the begin-check-fetch-store run of the protocol. |
| Maintenance.Switch.SetEnabled | backend/app/core/maintenance.py:89-94 | A whole toggle is the write-then-invalidate run of the protocol, and leaves the flag as asked. |
| Maintenance.StepKeepsInv | backend/app/core/maintenance.py:43-101 | Each step of any reader, writer or session keeps: what is cached or carried was the flag's value no earlier than its stamp less the age of the snapshot it came from, also when an old value is stored after an invalidation. |
| Maintenance.RunKeepsInv | backend/app/core/maintenance.py:43-101 | The same over every interleaving of any number of threads. |
| Maintenance.EveryAnswerIsFresh | backend/app/core/maintenance.py:46-49 | Every value returned was the stored flag's at some instant later than call start minus TTL minus the age a call's session may have, and no later than the return. |
| Maintenance.TtlHoldsIff | backend/app/core/maintenance.py:46-49 | No answer of any run is staler than the TTL itself iff no call begins on a session that queried before it. |
| Maintenance.WindowAfterWrite | backend/app/core/maintenance.py:46-49 | A span of time between one write and the next can only have seen the first one's value. |
| Maintenance.SettledAfterTtl | backend/app/core/maintenance.py:10-14 | A call that starts at least TTL and that age after a write and returns before the next answers that write, whatever the racing readers stored. |
| Maintenance.VisibleAtOnceIff | backend/app/core/maintenance.py:89-101 | Right after the cache is dropped, every later call answers the new flag iff no reader started less than TTL ago is on its way to store the old value and no session opened before the write may yet ask. |
| Maintenance.StepKeepsClean | backend/app/core/maintenance.py:43-74 | With nothing stale cached or carried, no step but a write can bring a stale answer back. |
| Maintenance.StaleStoreSeen | backend/app/core/maintenance.py:55-59 | One such reader is enough for a call that begins after the toggle to answer the old value. |
| Maintenance.StaleSessionSeen | backend/app/services/developer_ops_service.py:36-64 | So is one such session, with nobody in flight: it has queried, and asks for the flag later. |
| Maintenance.QuietToggleIsImmediate | backend/app/core/maintenance.py:12-14 | With no reader in flight and no session that still sees the old flag, the first call after the toggle answers the new value. |
| Maintenance.RaceIsReachable | backend/app/core/maintenance.py:50-59 | The protocol reaches the state in which a reader in flight defeats immediate visibility. |
| Maintenance.OldSessionIsReachable | backend/app/services/developer_ops_service.py:36-64 | And the state in which nobody is in flight and an older session does. |
| Maintenance.OldSessionBreaksTtl | backend/app/services/developer_ops_service.py:36-64 | Any age above zero lets some run answer staler than the TTL. |
| Gate.StepKeepsInv | backend/app/main.py:144-192 | Each step of the requests and of both switches keeps every open request consistent with what the stored flags have been. |
| Gate.StepKeepsShared | backend/app/main.py:160-178 | One session shows both flags as of one instant: where the first read opens it, the second flag is read as of then. |
| Gate.HeldSurvives | backend/app/core/maintenance.py:43-59 | What a flag was in the past is not changed by later steps. |
| Gate.TicketSurvives | backend/app/main.py:144-192 | A request's standing is not disturbed by steps of the switches beside it. |
| Gate.EveryVerdictIsExplained | backend/app/main.py:147-192 | In every run each verdict (handled, 403, 503, 423) is accounted for by the request and by what the stored flags were within TTL, and the age a session may have, before the arrival or during the check. |
| Gate.WritesNeedBothSwitchesOff | backend/app/main.py:155-187 | Of a non-developer, any method other than GET, HEAD and OPTIONS outside the seven exempt prefixes is handled only if it is not impersonated and both stored flags were off at some instant of that span. |
| Gate.TestsMean | backend/app/main.py:120-155 | The two tests of the gate say: OPTIONS, HEAD or one of the seven prefixes; and none of GET, HEAD and OPTIONS. |
| Gate.ReadsMeetOnlyTheClosedSite | backend/app/main.py:155-180 | In every run a refusal is a 403, a 503 or a 423; a GET gets only the 503, a developer never does. |
| Gate.ExemptRequestsAreHandled | backend/app/main.py:117-148 | OPTIONS, HEAD and every path under the seven prefixes are handled in every state of the switches. |
| Gate.ImpersonationWritesNothing | backend/app/main.py:150-159 | Any other method than GET, HEAD and OPTIONS in an impersonated session outside them gets a 403, the developer's too. |
| Gate.DevelopersAreNeverRefused | backend/app/main.py:165-180 | A developer's request that is not impersonated is never refused, in any state of either switch. |
| Gate.SettledSwitchIsSeen | backend/app/main.py:166-180 | A switch unchanged for TTL and that age before a request arrives and until it is answered cannot be taken for its opposite. |
| Gate.ClosedSiteIsClosed | backend/app/main.py:166-175 | So while the site has been closed that long every non-developer, the owner included, outside the exempt paths gets a 503, or the 403 of an impersonated write. |
| Gate.ReadOnlySiteTakesNoWrites | backend/app/main.py:178-187 | While it has been read-only that long no non-developer gets any method but GET, HEAD and OPTIONS through outside them. |
| Gate.OpenSiteIsOpen | backend/app/main.py:147-192 | While both have been off that long every request is handled but an impersonated session's write. |
| Gate.AloneIsAnsweredByTheFlags | backend/app/main.py:147-192 | From any two stored flags, a request that nothing overlaps is answered, and exactly as the middleware decides by the flags themselves. |
| Ledger.AddRows | backend/alembic/versions/0084_module_entitlements.py:92-96 | The mapping after the loop holds exactly what it held and the rows of the query. |
| Ledger.JoinRows | backend/alembic/versions/0084_module_entitlements.py:101-107 | The join of plan courses and course modules yields a pair iff some course links them. |
| Ledger.BuildPlanModules | backend/alembic/versions/0084_module_entitlements.py:92-107 | A plan grants a module iff it lists it or one of its courses does. |
| Ledger.GrantModule | backend/alembic/versions/0084_module_entitlements.py:141-153 | One entry starts from the later of purchase and remaining validity; the other entries stay. |
| Ledger.MidwayStep | backend/alembic/versions/0084_module_entitlements.py:140-153 | Stacking one more module of a purchase moves that student's module on by one grant and no other key. |
| Ledger.StackOnto | backend/alembic/versions/0084_module_entitlements.py:140-153 | One purchase adds one grant to each module of its plan, for that student only. |
| Ledger.ReplayOne | backend/alembic/versions/0084_module_entitlements.py:132-153 | The outer body extends every key's fold by the one row, skipping plans without modules or days. |
| Ledger.Replay | backend/alembic/versions/0084_module_entitlements.py:128-153 | One pass over one dictionary computes, for every student and module at once, the fold over just that student's purchases of that module. |
| Ledger.Upgrade | backend/alembic/versions/0084_module_entitlements.py:91-156 | The whole backfill, early exits included, told by the rows alone: an entry for exactly the student's modules that a purchase with positive days contains, `grantedDays` the sum of those plans' days, the expiry the greatest over such purchases of its start (or now) plus all days from it on, the last such purchase remembered. |
| Ledger.FoldFromRows | backend/alembic/versions/0084_module_entitlements.py:128-153 | The fold over a key's grants is that entry, row by row, on any order of the rows. |
| Ledger.LedgerFromRows | backend/alembic/versions/0084_module_entitlements.py:128-156 | So a ledger that holds the folds is what the purchase rows make of every key. |
| Ledger.ClosedForm | backend/alembic/versions/0084_module_entitlements.py:146-153 | The expiry is the maximum over k of purchase k's instant plus all days bought from k on; the days are the sum; the last purchase is remembered. |
| Ledger.Conservation | backend/alembic/versions/0084_module_entitlements.py:143-153 | The intervals added are disjoint and in order, begin no earlier than their purchases, end at the expiry, and total the days granted. |
| Ledger.ChronologicalBounds | backend/alembic/versions/0084_module_entitlements.py:146-153 | In order of purchase the expiry lies between first purchase plus all days and last purchase plus all days. |
| Ledger.Exchange | backend/alembic/versions/0084_module_entitlements.py:146-153 | Swapping two neighbouring purchases out of order never gives an earlier expiry. |
| Ledger.SameInstantCommutes | backend/alembic/versions/0084_module_entitlements.py:118-122 | Purchases at the same instant commute for expiry and days. |
| Ledger.MoveToEnd | backend/alembic/versions/0084_module_entitlements.py:146-153 | Moving the latest purchase past earlier ones to the end never gives a later expiry. |
| Ledger.ChronologicalIsEarliest | backend/alembic/versions/0084_module_entitlements.py:117-122 | Chronological replay gives the earliest expiry among all orders of the same purchases, and the same days. |
| Ledger.NeverEarlierThanAnyPurchase | backend/alembic/versions/0084_module_entitlements.py:143-147 | The expiry is never before any purchase's own end, and equals the last one's when no purchase overlaps the validity before it. |
| Ledger.ChronologicalIff | backend/alembic/versions/0084_module_entitlements.py:132-153 | A key's grants are chronological iff its purchases stand in the order of the instants they count from. |
| Ledger.QueryOrderIsChronologicalIff | backend/alembic/versions/0084_module_entitlements.py:118-139 | Where cells that hold dates sort as the dates, the query replays a key chronologically iff no start that cannot be read, which counts as now, stands before a past one or after a future one. |
| Ledger.GrantsOfReordering | backend/alembic/versions/0084_module_entitlements.py:132-140 | Reading the rows in another order gives each key the same grants. |
| Ledger.BackfillOrderIsEarliest | backend/alembic/versions/0084_module_entitlements.py:117-153 | With such starts in place, or none, the backfill gives every student the earliest expiry any replay order could. |
| Ledger.PairOrderIff | backend/alembic/versions/0084_module_entitlements.py:143-153 | Of two purchases alone, one order ends no later than the other iff it is the chronological one. |
| Ledger.MisplacedStartCosts | backend/alembic/versions/0084_module_entitlements.py:118-139 | Where a start sorts before another but counts from a later instant, the query replays the two out of order and ends later than it need. |
| Sittings.CountOne | backend/alembic/versions/0085_sittings_and_drop_test_limit.py:73-74 | One purchase adds one to each module of its plan and to nothing else. |
| Sittings.Tally | backend/alembic/versions/0085_sittings_and_drop_test_limit.py:66-74 | The counts are, for every key, the number of that student's purchases whose plan contains the module. |
| Sittings.BoughtIsCount | backend/alembic/versions/0085_sittings_and_drop_test_limit.py:66-74 | That count is the number of the student's rows whose plan contains the module. |
| Sittings.Upgrade | backend/alembic/versions/0085_sittings_and_drop_test_limit.py:44-84 | The default of one and the updates above one give each entitlement the greater of one and its count. |
| Sittings.BoughtOfReordering | backend/alembic/versions/0085_sittings_and_drop_test_limit.py:67-74 | The count does not depend on the order of the unordered query. |
| Sittings.GrantsAtMostBought | backend/alembic/versions/0085_sittings_and_drop_test_limit.py:49-51 | The ledger folds in at most as many grants as sittings, and as many iff every such plan has days. |
| Sittings.SittingsAreThePurchases | backend/alembic/versions/0085_sittings_and_drop_test_limit.py:49-84 | On every row 0084 left, sittings are exactly the purchases containing the module: the default of one is never wrong. |
| Sittings.SamePlanModules | backend/alembic/versions/0085_sittings_and_drop_test_limit.py:49-63 | The two migrations cannot disagree about what a plan contains. |
| Sittings.BothMigrations | backend/alembic/versions/0085_sittings_and_drop_test_limit.py:38-84 | The two migrations in a row over the same tables leave on the same keys what the rows make of the ledger, and as many sittings as rows whose plan contains the module. |
| Entitlements.Service.GrantPlan | backend/app/services/entitlement_service.py:77-132 | Every module of the plan gains the days from its own expiry and one sitting; the rest are not disturbed. |
| Entitlements.Service.GrantEach | backend/app/services/entitlement_service.py:216-228 | Granting each purchase in turn as of its start leaves, per key, the live row of just that student's purchases of the module. |
| Entitlements.LiveSittings | backend/app/services/entitlement_service.py:102-119 | A live row exists iff something was bought, and its sittings are the purchases. |
| Entitlements.RebuiltIsLiveIff | backend/app/services/entitlement_service.py:201-236 | For purchases in order of time, both backfills together rebuild exactly the row the service leaves granting each as of its start iff nothing includes the module or the last purchase that does has days. |
| Entitlements.LastWithoutDaysParts | backend/app/services/entitlement_service.py:77-132 | Where the last one has none, the two rows differ. |
| Entitlements.TimedPlansAgreeInAnyOrder | backend/app/services/entitlement_service.py:210-215 | In whatever order they stand, plans that all have days leave no difference. |
| Entitlements.SameBase | backend/app/services/entitlement_service.py:95-116 | Up to the last purchase the live expiry and the rebuilt one are the same base for what comes later, plans without days included. |
| Catalogue.UniqueName | backend/alembic/versions/0040_clone_institute_held_plans.py:94-103 | The search ends on every finite table and returns the first free of the name, the name and 2, the name and 3, and so on. |
| Catalogue.CandidatesDiffer | backend/alembic/versions/0040_clone_institute_held_plans.py:96-102 | The names tried are pairwise different. |
| Catalogue.NextIsNew | backend/alembic/versions/0040_clone_institute_held_plans.py:98-102 | So each taken candidate uses up one used name not met before. |
| Catalogue.Database.SplitAudiences | backend/alembic/versions/0039_split_plan_catalogues.py:27-35 | A plan whose audience is both goes to institutes iff some subscription with an institute names it, otherwise to direct students; no other plan and no other column changes. |
| Catalogue.Database.CloneOne | backend/alembic/versions/0040_clone_institute_held_plans.py:55-91 | One pass of the loop adds one plan under a free name, copies both link tables and repoints only institute subscriptions. |
| Catalogue.Database.CloneAll | backend/alembic/versions/0040_clone_institute_held_plans.py:55-91 | The loop over any plans of the table clones each once and moves what the clones made so far say. |
| Catalogue.Database.CloneStranded | backend/alembic/versions/0040_clone_institute_held_plans.py:41-91 | The whole migration moves every stranded plan: originals and their links kept, one clone each with the same terms, modules and courses, names still unique. |
| Catalogue.CloneKeepsPlans | backend/alembic/versions/0040_clone_institute_held_plans.py:56-81 | No original row or link changes. |
| Catalogue.CloneAddsOne | backend/alembic/versions/0040_clone_institute_held_plans.py:56-81 | One more clone, which carries everything its original sells, and no other new plan. |
| Catalogue.CloneMovesSubscriptions | backend/alembic/versions/0040_clone_institute_held_plans.py:83-91 | Subscriptions point where the clones made so far say, and keep every other column. |
| Catalogue.MovedOneMore | backend/alembic/versions/0040_clone_institute_held_plans.py:55-91 | The loop invariant is kept by one clone. |
| Catalogue.WhichAreCloned | backend/alembic/versions/0040_clone_institute_held_plans.py:41-53 | A plan is copied iff its audience is direct students, it is not internal and some subscription with an institute names it. |
| Catalogue.RowByRow | backend/alembic/versions/0040_clone_institute_held_plans.py:55-103 | What becomes of every row: each copy has its original's columns but the name (with the suffix, and a number where taken), the audience and the two flags, and its modules and courses; each original and its links stay; institute subscriptions move from original to copy; nothing else is added. |
| Catalogue.EveryHoldingIsKept | backend/alembic/versions/0040_clone_institute_held_plans.py:31-40 | Every subscriber holds the same terms, modules and courses as before, and a direct student's subscription is untouched. |
| Catalogue.NoInstituteIsStranded | backend/alembic/versions/0040_clone_institute_held_plans.py:33-36 | Afterwards no institute subscription is on a direct-student plan, internal plans apart. |
| Catalogue.OneClonePerStranded | backend/alembic/versions/0040_clone_institute_held_plans.py:42-53 | The plan table grows by exactly the number of stranded plans. |
| Catalogue.NothingMoved | backend/alembic/versions/0040_clone_institute_held_plans.py:55-91 | With nothing stranded the migration is the identity. |
| Catalogue.RunTwice | backend/alembic/versions/0040_clone_institute_held_plans.py:30-91 | A second run changes nothing. |
| Catalogue.Release | backend/alembic/versions/0039_split_plan_catalogues.py:18-35 | After both migrations no plan is shared, no institute is on a direct plan and every subscriber holds what they held. |
| RateLimit.RateLimiter.Enforce | backend/app/core/rate_limit.py:28-50 | One attempt prunes the key's deque, refuses at the limit and otherwise appends; other keys stay and no key is left with an empty deque by it. |
| RateLimit.RateLimiter.Clear | backend/app/core/rate_limit.py:53-57 | The key's window is dropped. |
| RateLimit.RateLimiter.Reset | backend/app/core/rate_limit.py:60-62 | Every window is dropped. |
| RateLimit.PruneIsSuffix | backend/app/core/rate_limit.py:35-36 | Pruning takes only instants at or before the cutoff, from the left. |
| RateLimit.PruneCounts | backend/app/core/rate_limit.py:35-36 | Of a sorted deque it keeps exactly those after the cutoff. |
| RateLimit.AttemptFits | backend/app/core/rate_limit.py:31-50 | One attempt on a deque that fits the full history decides as that history and fits it again. |
| RateLimit.StepFits | backend/app/core/rate_limit.py:20-62 | Every operation keeps every key's deque fitting its full history. |
| RateLimit.RunFits | backend/app/core/rate_limit.py:20-62 | The same over every run of attempts, clears and resets. |
| RateLimit.DecidesAsFullHistory | backend/app/core/rate_limit.py:31-50 | An attempt is accepted iff fewer than `limit` accepted instants since the last clear lie after now minus the window. |
| RateLimit.AcceptedIsHistory | backend/app/core/rate_limit.py:31-50 | With the readings in lock order, or a limit of one, the code accepts the very attempts the unpruned history allows. |
| RateLimit.WindowHoldsAtMostLimit | backend/app/core/rate_limit.py:26-27 | Then any window of that length, wherever it is laid, holds at most `limit` of the attempts the code accepted. |
| RateLimit.DequesStaySmall | backend/app/core/rate_limit.py:37-50 | Over every run deques are at most `limit` long and no key is mapped to an empty one; in lock order they are sorted. |
| RateLimit.RetryAfterHonestIff | backend/app/core/rate_limit.py:43-49 | Waiting the announced time is enough iff what is left is at most one second or a whole number of seconds. |
| RateLimit.RetryAfterMisleads | backend/app/core/rate_limit.py:43-49 | For every limit and every window of two whole seconds or more there is a run after which a client who waits as told is refused again. |
| RateLimit.RetryAfterIsWhatIsLeft | backend/app/core/rate_limit.py:43-49 | The announced wait is at least one second, less than one second short of what is left of the oldest instant's window, and never longer than that unless it is the one second. |
| RateLimit.NoLimitNoRecord | backend/app/core/rate_limit.py:28-50 | With a limit of zero or less every attempt of every run is let through and none is recorded. |
| RateLimit.LimitOneDecides | backend/app/core/rate_limit.py:31-50 | A limit of one decides as the full history whatever the order of the readings. |
| RateLimit.DecidesExactlyIff | backend/app/core/rate_limit.py:31-33 | With readings that may lag earlier ones, the deque decides as the full history over all runs iff they do not lag or the limit is one. |
| RateLimit.KeepsWindowIff | backend/app/core/rate_limit.py:31-33 | Exactly then does every window hold at most `limit` accepted attempts over all runs. |
| Otp.VerifyOtp | backend/app/routers/auth.py:426-481 | The handler's answer with its exact cause, and the windows it counts the try in and releases. |
| Otp.EveryAnswerHasItsCause | backend/app/routers/auth.py:426-481 | A session is issued iff the token is decoded before its expiry, the address and the challenge are both below their limits, the code is right and the account exists and is active; each other answer iff just its own condition is the first to fail. |
| Otp.EveryTryIsCountedWhere | backend/app/routers/auth.py:441-478 | A try is counted under its address once its token is alive and under its challenge once the address is let through; a session drops the challenge's window; no other window changes. |
| Otp.TryKeepsTight | backend/app/routers/auth.py:441-455 | While the token lives its deque holds one instant per comparison and nothing is pruned from it. |
| Otp.RunTight | backend/app/routers/auth.py:441-455 | The same over every run of tries, other keys and releases. |
| Otp.AtMostLimitComparisons | backend/app/routers/auth.py:450-455 | At most `otp_attempt_limit` codes are compared for one challenge before its counter is released, when no try is counted later than the slack of the expiry: the window is as long as the token lives. |
| Otp.BurstFills | backend/app/routers/auth.py:443-457 | The limit can be used up in full. |
| Otp.LateTryIsCompared | backend/app/core/security.py:62-69 | One try more is compared when it is decoded in time but counted after the window has moved on. |
| Otp.LateTryIsOneTooMany | backend/app/core/security.py:117-140 | So a longer delay than the slack of the expiry defeats the cap. |
| Otp.CapHoldsIff | backend/app/routers/auth.py:441-455 | The cap holds over all runs iff no try is counted later after its decoding than the fraction of a second cut off the expiry. |
| Polygon.Inside | frontend/scripts/gen_world_dots.py:46-56 | The toggling loop answers whether the rightward ray meets an odd number of edges of the closed polygon. |
| Polygon.CrossingBetween | frontend/scripts/gen_world_dots.py:52-53 | The crossing point lies between the ends of its edge. |
| Polygon.CrossingReversed | frontend/scripts/gen_world_dots.py:53 | Read from either end an edge is crossed at the same point. |
| Polygon.CrossingOnLine | frontend/scripts/gen_world_dots.py:53 | And it is the point of the edge's own line at that height. |
| Polygon.CrossesBySide | frontend/scripts/gen_world_dots.py:52-53 | So an edge is met iff it straddles the height and the point is on its left, told by the sign of a cross product. |
| Polygon.ChainsMeet | frontend/scripts/gen_world_dots.py:49-55 | Crossings add up where two chains meet. |
| Polygon.ReversedChain | frontend/scripts/gen_world_dots.py:49-55 | A chain walked backwards is crossed as often. |
| Polygon.ChainParity | frontend/scripts/gen_world_dots.py:52 | An open chain straddles a height oddly often iff its ends are on different sides of it. |
| Polygon.EvenStraddles | frontend/scripts/gen_world_dots.py:49-52 | A closed polygon straddles every height an even number of times. |
| Polygon.OutsideTheBox | frontend/scripts/gen_world_dots.py:46-56 | A point beyond the vertices' box on any side is outside. |
| Polygon.RotationInvariant | frontend/scripts/gen_world_dots.py:49-51 | Where the vertex list begins does not matter. |
| Polygon.ReversalInvariant | frontend/scripts/gen_world_dots.py:49-53 | Nor does which way round it runs. |
| Polygon.ChordCounts | frontend/scripts/gen_world_dots.py:49-55 | The two parts of a cut polygon are crossed as often as the whole and twice the chord. |
| Polygon.ChordCut | frontend/scripts/gen_world_dots.py:46-56 | Cut along a chord, a point is inside the whole iff it is inside exactly one part. |
| Polygon.TriangleAnswers | frontend/scripts/gen_world_dots.py:46-56 | A point strictly within a triangle, by three cross products of one sign, is inside; one strictly beyond an edge is not. |
| PayU.SplitJoin | backend/app/core/payu_gateway.py:52 | Splitting on the pipe undoes joining for pipe-free fields. |
| PayU.RequestLayout | backend/app/core/payu_gateway.py:40-52 | The string that is concatenated is the join of seventeen fields, five of them empty, the salt last. |
| PayU.RequestPositions | backend/app/core/payu_gateway.py:40-52 | Split on the pipe, the string has key, transaction, amount, product, name and email at 0 to 5, the five user-defined fields in order at 6 to 10, empty text at 11 to 15 and the salt at 16. |
| PayU.ResponseIsReversedRequest | backend/app/core/payu_gateway.py:55-75 | The reply's fields are the request's backwards with the status put in after the salt. |
| PayU.ResponseSplits | backend/app/core/payu_gateway.py:64-78 | The reply's string splits back into its fields, the additional charge first when there is one. |
| PayU.ReplyPositions | backend/app/core/payu_gateway.py:55-78 | The reply's has the salt, the status, five empty fields, the user-defined fields backwards and email to key, all one place later behind an additional charge. |
| PayU.PipesOfJoin | backend/app/core/payu_gateway.py:76-78 | Joining adds one pipe between every two fields to those the fields bring. |
| PayU.ResponseStringIffSigned | backend/app/core/payu_gateway.py:55-78 | A pipe-free reply and any other, pipes or not, have equal strings iff salt, status, every other signed field and the additional charge's presence and value are equal, the charge not being the salt. |
| PayU.PinnedIff | backend/app/core/payu_gateway.py:130-141 | Among all replies whatever, a pipe-free one is pinned by its string iff its additional charge is not the salt. |
| PayU.GenuineReplyVerifies | backend/app/core/payu_gateway.py:130-141 | Every reply signed with that layout is accepted. |
| PayU.UnsignedReplyIsRefused | backend/app/core/payu_gateway.py:130-141 | No reply is accepted without a salt or without a hash; with a lower-case hexadecimal hash it is accepted iff that is the digest of its own string. |
| PayU.SameHashSameReply | backend/app/core/payu_gateway.py:130-141 | Any reply accepted under a genuine pipe-free one's hash agrees with it on every signed field unless the digest itself collides, the charge not being the salt. |
| PayU.AmountReadsBack | backend/app/core/payu_gateway.py:30-37 | The posted amount always has two places and reads back, sign included, to the nearest hundredth. |
| PayU.AmountsPostedAlike | backend/app/core/payu_gateway.py:30-37 | Two amounts are posted alike iff they round to the same hundredth and have the same sign. |
| PayU.TiesGoToEven | backend/app/core/payu_gateway.py:30-37 | An amount halfway between two hundredths goes to the even one. |
| PayU.Stripped | backend/app/core/payu_gateway.py:77 | What `strip` takes off are blanks at either end, and what is left begins and ends with none. |
| PayU.LiveIsLive | backend/app/core/payu_gateway.py:26-27 | The live address answers exactly to the word live in any case of letters. |
| PayU.OrderIsPosted | backend/app/core/payu_gateway.py:105-122 | Each field of the form is its own field of the order, with the stripped and default values. |
| PayU.AddUdf | backend/app/core/payu_gateway.py:123-124 | The loop sets the five user-defined fields, absent ones to empty text, and no other. |
| PayU.Sign | backend/app/core/payu_gateway.py:126 | The signature covers exactly what is posted and is itself not covered. |
| PayU.BuildCheckout | backend/app/core/payu_gateway.py:85-127 | Missing credentials are refused; otherwise each field is its order's, the form is signed as posted, and it goes to the live address iff the mode says live. |
| PayU.ReplyEchoesForm | backend/app/core/payu_gateway.py:55-85 | A reply that echoes a form signs the form's own values backwards. |
| Attempts.AttemptTable.MarkBySelfJoin | backend/alembic/versions/0058_retake_requests.py:78-86 | Setting the flag of the newer row of every joined pair marks exactly the rows that have an older attempt of the same student and module. |
| Attempts.AttemptTable.MarkByGroupMin | backend/alembic/versions/0058_retake_requests.py:87-95 | The MIN(id) form leaves the very same table. |
| Attempts.GroupMins | backend/alembic/versions/0058_retake_requests.py:91-92 | The subquery yields for each student and module an id of the group that is least in it. |
| Attempts.DialectsAgree | backend/alembic/versions/0058_retake_requests.py:78-95 | A row has an older attempt beside it iff it is not the least of its group. |
| Attempts.OneOriginalEach | backend/alembic/versions/0058_retake_requests.py:78-95 | Each student and module keeps exactly one original, the lowest id, and only the flag changes. |
| Attempts.PartialStepFits | backend/app/models/attempt.py:165-181 | A write keeps the partial index in step with the table. |
| Attempts.SlotStepFits | backend/alembic/versions/0054_fix_mysql_partial_unique_indexes.py:44-63 | A write keeps the index over the generated slot in step with the table. |
| Attempts.PartialAcceptsIffUnique | backend/app/models/attempt.py:165-181 | A write is taken iff the table it leads to has no two rows in scope with one key, the key being student and module or student, module and sitting. |
| Attempts.UniqueIffNoCollision | backend/app/models/attempt.py:165-181 | A unique table stays unique iff the write puts no row in scope beside one with its key. |
| Attempts.WhatIsKeptApart | backend/app/models/attempt.py:165-181 | In columns: the declared index keeps apart two originals of one student, module and sitting, that of 0058 two of one student and module, the other two attempts in progress of one student and module. |
| Attempts.RunAnswers | backend/app/models/attempt.py:165-181 | On every trace the index refuses exactly the writes that would put a row in scope beside one with its key. |
| Attempts.OneStepAlike | backend/alembic/versions/0054_fix_mysql_partial_unique_indexes.py:44-63 | Both indexes answer one write alike. |
| Attempts.SlotEmulatesPartial | backend/alembic/versions/0054_fix_mysql_partial_unique_indexes.py:44-63 | On every trace of inserts, updates and deletions both give the same answers and leave the same table. |
| Attempts.UnconditionalAgreesIff | backend/alembic/versions/0054_fix_mysql_partial_unique_indexes.py:80-91 | The index without its condition answers a trace as the partial one iff no write that the partial one takes gives its row the student and module of any other row. |
| Attempts.UnconditionalIndexRefusesMore | backend/alembic/versions/0054_fix_mysql_partial_unique_indexes.py:80-91 | A new attempt at a paper whose earlier attempt is over is such a write. |
| Attempts.NonUniqueAgreesIff | backend/alembic/versions/0085_sittings_and_drop_test_limit.py:107-113 | The index 0085 leaves on MySQL, which takes every write, answers a trace as the declared one iff no write of it puts an original beside another of the same sitting. |
| Attempts.TwoOriginalsOfOneSitting | backend/alembic/versions/0085_sittings_and_drop_test_limit.py:98-113 | Two originals of one sitting are both taken there, and the second is refused where the declared index stands. |
| Attempts.SecondSittingIsTaken | backend/alembic/versions/0085_sittings_and_drop_test_limit.py:98-113 | The original of a second sitting is taken by the index over sittings and was refused by that of 0058. |
| Attempts.BackfillAllowsIndex | backend/alembic/versions/0058_retake_requests.py:78-132 | After the backfill the table already meets the index over originals, the one by sitting as well. |
| Speaking.Point | backend/alembic/versions/0076_speaking3_single_read_aloud.py:41-58 | The loop body of 0076, key by key, is the part's rewrite. |
| Speaking.Reshape | backend/alembic/versions/0087_speaking_followup_banks.py:113-150 | The loop body of 0087, sets and pops, both directions. |
| Speaking.Recap | backend/alembic/versions/0088_speaking_parts_unlimited_questions.py:74-88 | The loop body of 0088, both directions. |
| Speaking.PutHeadings | backend/alembic/versions/0089_speaking_two_spoken_heading.py:62-75 | The loop body of 0089, both directions. |
| Speaking.SpeakHeadings | backend/alembic/versions/0090_spoken_heading_every_speaking_part.py:47-66 | The loop body of 0090, given the function its upgrade or its downgrade passes, is that direction's rewrite of the part. |
| Speaking.PartTable.ApplyTo | backend/alembic/versions/0087_speaking_followup_banks.py:106-150 | The rows of one part code are rewritten, each once, and no other row. |
| Speaking.PartTable.Apply | backend/alembic/versions/0088_speaking_parts_unlimited_questions.py:64-88 | Running part code by part code rewrites every speaking part exactly once and leaves all other parts. |
| Speaking.UpgradeAll | backend/alembic/versions/0090_spoken_heading_every_speaking_part.py:58-59 | The four upgrades over a table are the composed rewrite of each part. |
| Speaking.DowngradeAll | backend/alembic/versions/0090_spoken_heading_every_speaking_part.py:62-66 | So are the four downgrades, in reverse. |
| Speaking.UpThenDown | backend/alembic/versions/0087_speaking_followup_banks.py:153-161 | Over a whole table, up and then down restores a row iff it is no speaking part or was in the documented state after 0086. |
| Speaking.RoundTripIff | backend/alembic/versions/0087_speaking_followup_banks.py:72-81 | The same for one part, in any state. |
| Speaking.UndoCaps | backend/alembic/versions/0088_speaking_parts_unlimited_questions.py:47-53 | Undoing 0088 restores exactly what 0087 left. |
| Speaking.UndoHeadings | backend/alembic/versions/0089_speaking_two_spoken_heading.py:78-86 | Undoing 0090 restores what 0089 left; undoing 0089 removes just its two keys. |
| Speaking.UndoShape | backend/alembic/versions/0087_speaking_followup_banks.py:153-161 | The downgrade of 0087 overwrites all its upgrade wrote. |
| Speaking.UpgradesAreIdempotent | backend/alembic/versions/0087_speaking_followup_banks.py:153-154 | Each of the four upgrades run again changes nothing. |
| Speaking.UnnamedKeysKept | backend/alembic/versions/0087_speaking_followup_banks.py:113-136 | Constraint keys the migrations do not name survive the chain up and down. |
| Speaking.CoherentAfterUpgrade | backend/alembic/versions/0087_speaking_followup_banks.py:13-23 | After the upgrades required and singleton turns are allowed turns, the allowed turns are exactly the clocked ones, and no cap is left. |
| Speaking.SuggestedIsHeadlineClock | backend/alembic/versions/0087_speaking_followup_banks.py:127-130 | The suggested pair that old clients read is the clock of the first required turn, after 0087 and at the end of the chain. |
| Speaking.WhereTheChainEnds | backend/alembic/versions/0087_speaking_followup_banks.py:44-150 | Whatever a part was before, each part code ends in one state written out in full, columns, turns, clocks and headings, and its undoing in another. |
| Speaking.PostStateIff | backend/alembic/versions/0087_speaking_followup_banks.py:72-88 | The documented state after 0086 is that second one. |
| Speaking.From0076 | backend/alembic/versions/0076_speaking3_single_read_aloud.py:61-62 | 0076 leads a Speaking 3 part to the documented state iff the keys it does not write already agree. |
| Speaking.RoundTrip0076Iff | backend/alembic/versions/0076_speaking3_single_read_aloud.py:61-69 | 0076 undoes itself iff the part had the paired turns and limits it replaces. |
| Reading3.PartTable.Rewrite | backend/alembic/versions/0072_reading3_multi_answer.py:29-57 | Every Reading 3 row with constraints is rewritten, the others stay. |
| Reading3.RoundTripIff | backend/alembic/versions/0072_reading3_multi_answer.py:60-68 | Undoing the upgrade restores a part iff it had a list of its own without the new type and flag, or nothing to rewrite. |
| Reading3.UpgradeOnlyAdds | backend/alembic/versions/0072_reading3_multi_answer.py:45-48 | Every type allowed before stays in its place, the other keys stay, and a second upgrade changes nothing. |
| Reading3.DefaultThenMultiple | backend/alembic/versions/0072_reading3_multi_answer.py:43-48 | A list that is absent, null or empty becomes the default type and the new one; any other gains the new one at its end if it lacks it. |
| Reading3.WithoutIsSameIff | backend/alembic/versions/0072_reading3_multi_answer.py:50 | The filter removes every occurrence and is the identity iff there was none. |
| TtlCache.Cache.Get | backend/app/core/cache.py:14-23 | A read answers the stored value unless expired and sweeps out just an expired entry. |
| TtlCache.Cache.Set | backend/app/core/cache.py:25-28 | The entry expires after its time to live; none or zero never does. |
| TtlCache.Cache.Delete | backend/app/core/cache.py:30-32 | The key is dropped, present or not. |
| TtlCache.Cache.ClearAll | backend/app/core/cache.py:34-38 | Everything is dropped and counted. |
| TtlCache.RunFits | backend/app/core/cache.py:14-38 | Over every run the store holds the latest live set of a key or has swept an expired one. |
| TtlCache.ReadsRefineMap | backend/app/core/cache.py:14-23 | Every read answers the latest set not deleted, cleared or expired: sweeping cannot be seen. |
| TtlCache.ReadAfter | backend/app/core/cache.py:14-38 | If the last operation that concerns a key set it, a read answers that value until its time to live is over, and for good where it has none; if it deleted or cleared it, nothing. |
| TtlCache.NeverSetNeverRead | backend/app/core/cache.py:14-23 | A key never set is never there. |
| TtlCache.StoredWereTouched | backend/app/core/cache.py:34-38 | Only keys set since the last clear are stored. |
| TtlCache.ClearCountsBetween | backend/app/core/cache.py:34-38 | A clear counts at least the live keys and at most the keys set since the last clear. |
| Seats.PlanLimitTotal | backend/app/dependencies/limits.py:62-85 | The loop sums the limit over the paid terms, a term without plan or number counting nothing. |
| Seats.EachTermAddsItsOwn | backend/app/dependencies/limits.py:78-85 | One more term adds its plan's number of students to the student seats and of staff to the staff seats; without plan or number it adds none. |
| Seats.WhoIsCounted | backend/app/dependencies/limits.py:28-51 | Counted are the institute's own students, or instructors, that are not deleted and whose seat was not handed back. |
| Seats.LimitIsAdditive | backend/app/dependencies/limits.py:63-69 | Two sets of terms together allow the sum of their seats. |
| Seats.Roster.EnforceLimit | backend/app/dependencies/limits.py:88-134 | An add is allowed iff fewer are counted than the agreement's own number while onboarding, and than the paid terms' sum in a running or grace term after it; each refusal says which. |
| Seats.Roster.Add | backend/app/services/institute_admin_service.py:412-439 | A guarded add that nothing overlaps takes exactly one seat and ends at or below the limit, or changes nothing. |
| Seats.Roster.Reactivate | backend/app/services/institute_admin_service.py:643-664 | So does bringing a student back into a seat that was handed back, when nothing overlaps it. |
| Seats.DifferAtOne | backend/app/dependencies/limits.py:35-43 | Changing one user changes the count by what becomes of that user's seat. |
| Seats.AddedOccupant | backend/app/models/user.py:41-44 | A new user changes the count of each institute and resource by the seat they take. |
| Seats.ChangedOccupant | backend/app/models/user.py:41-44 | A changed user changes it by the difference of the seats. |
| Seats.SeatsAreConserved | backend/app/models/user.py:17-44 | Over every run, occupied seats are those at the start plus adds and reactivations minus releases and deletions of holders; moves among active, suspended and expired change nothing. |
| Seats.StepConservesSeats | backend/app/services/institute_admin_service.py:573-664 | Each event changes the count by the seat it takes or gives back and by nothing else. |
| Seats.WhatBecomesOf | backend/app/services/institute_admin_service.py:544-664 | Only a suspended or expired student's seat is ever handed back, only a student whose seat was is reactivated, below the limit, and no other account changes. |
| Seats.SeatsComeAndGo | backend/app/services/institute_admin_service.py:565-664 | And each of those that may is. |
| Seats.NeverAboveCeiling | backend/app/dependencies/limits.py:88-134 | After any run of checks that do not overlap, no more seats are occupied than at its start or than the greatest limit under which it took one. |
| Seats.AddsStayWithinLimit | backend/app/dependencies/limits.py:88-134 | An institute that starts within a limit its checks never exceed stays within it over every such run. |
| SeatLock.SeatedCounts | backend/app/services/institute_admin_service.py:428-440 | The row a request writes takes one seat, of its own institute and resource only. |
| SeatLock.StepKeepsInv | backend/app/services/institute_admin_service.py:358-375 | With counts no older than their locks, a request that has counted holds its institute's lock and what it counted still stands, whatever the other requests do. |
| SeatLock.FreshCountsKeepCap | backend/app/services/institute_admin_service.py:359-369 | So over every interleaving of requests no more are seated than at the start or than the limit allows. |
| SeatLock.Overfill | backend/app/services/institute_admin_service.py:395-413 | Where sessions query before they lock, any number of requests that queried while a seat was left get a seat each. |
| SeatLock.TwoAddsOverfill | backend/app/services/institute_admin_service.py:395-413 | Two are enough where one seat is left. |
| SeatLock.CapHoldsIff | backend/app/services/institute_admin_service.py:358-375 | The cap holds over every interleaving iff no count is older than its lock, or the limit lets nobody in at all. |

## Left out

- Maintenance.Switch.IsEnabled: the read-only switch (`is_read_only`, `set_read_only`) is the same protocol over its own fields and is a second instance in `Gate`, not a second class; the notice text is left out, and reading the settings row is one step.
- Maintenance.EveryAnswerIsFresh: a session's snapshot lasts for good once opened; one that ends with its transaction is a session of a new number. An engine without snapshots is one in which every query is a session of its own.
- Maintenance.Switch.SetEnabled: writing the notice text between the flag and the invalidation is left out; other steps may run there in the protocol.
- Gate.EveryVerdictIsExplained: the token checks are two booleans of the request, and the response bodies and headers are left out.
- Ledger.Replay: turning a stored start into a datetime is an optional instant, and where its cell sorts is a number beside it; the table inserts and the source column are left out.
- Ledger.QueryOrderIsChronologicalIff: that dates sort as the instants they stand for is a condition on the rows; the text formats themselves are not modelled.
- Entitlements.Service.GrantEach: a purchase in the running service is granted as of the moment of granting (`backend/app/services/subscription_service.py:798`), not as of the stored start that the replay uses; that gap is not modelled.
- Entitlements.Service.GrantPlan: the change report it returns, the row's source label and the sorting of the module ids are left out; `GrantEach` takes the purchases already in order and not cancelled.
- Catalogue.UniqueName: names are compared character by character and have no length limit; collation and the column width are not modelled.
- Catalogue.Database.CloneOne: the statements act on whole maps and sets, and reading the new id back by its unique name is the id itself.
- RateLimit.RateLimiter.Enforce: the window is any real number; the error text is left out. Several processes do not share a limiter, as the file says.
- RateLimit.DecidesAsFullHistory: takes clock readings in the order the lock is taken; `DecidesExactlyIff` says exactly when it holds without that.
- Otp.AtMostLimitComparisons: the wall clock of the token and the monotonic clock of the limiter run at one rate on one time line; the release after a session is a step of its own, but the address check and the counting of one try are taken together; token types, signatures and the hash comparison are inputs, and the limiter is one process's.
- Polygon.Inside: exact reals instead of floating point; the dot grid, the outlines and the SVG output are left out.
- PayU.SameHashSameReply: `hmac.compare_digest` raises on a provided hash with characters outside ASCII, where the model answers that the reply is not verified.
- PayU.GenuineReplyVerifies: the digest is any function to non-empty lower-case hexadecimal text; strip, lower and upper are modelled on the ASCII range.
- PayU.AmountReadsBack: the signed zero of a decimal is not modelled.
- Attempts.SlotEmulatesPartial: indexes as maps from key to row id; the foreign keys, the index on retake requests and index creation that fails and is ignored are left out.
- Speaking.RoundTripIff: constraints are already decoded JSON, with shapes the migrations never write kept as raw text.
- Seats.NeverAboveCeiling: its checks do not overlap; `SeatLock.CapHoldsIff` says when overlapping ones keep the cap.
- SeatLock.CapHoldsIff: books are read as one value, a request is one seat, and a file import, which holds the lock for all its rows, is left out; waiting for a lock is a step that changes nothing.
- Seats.SeatsAreConserved: moving an account to another institute or role is not an event of the run, and a file import counts its rows against the limit itself; subscription state and paid terms are inputs of each check.
- Resend, password login and refresh flows use the same limiter under their own keys; their code would repeat the limiter's results.
- Request logging, security headers, password policy and the tenant filter: settled by one branch each.
- Payment, mail and push gateways other than PayU's strings, CRUD routers, table-creating migrations, seed scripts and the user interface: no logic of the kind proved here.
