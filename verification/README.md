# Verification of the Lumiere chat server

This project models the stateful core of the Lumiere chat server in Dafny and proves what that core keeps on
every input, every run and every interleaving. Check it with `dafny verify dfyconfig.toml`.

| Component | Files | What is proved |
|---|---|---|
| Message history in 10-day buckets | `Bits`, `Snowflake`, `Bucket`, `Pages`, `History`, `Messages`, `Paging` | the bucket walk against one flat top-N query, and a client's whole crawl through a channel, with and without soft-deleted rows |
| Snowflake generator | `Snowflake` | every interleaving of clock readings, loads and compare-and-swaps of any number of threads |
| Rate limiter | `TokenBucket` | the lazy, expiring bucket against an eager one that ticks every millisecond; burst bounds |
| Cache with request coalescing | `Coalescing`, `CoalescingAnswers`, `CoalescingWaits` | the leader/follower protocol over a shared map and broadcast channels, what callers get from cache and fetch, and exactly which followers wait for ever |
| Permissions, roles, members, bans, invites | `Permissions`, `Maxima`, `Guilds`, `GuildRights`, `RolePositions`, `RoleGrants`, `GuildHandlers` | table invariants over all runs; the rights behind every change of members, bans, owner, roles and role rows, and exactly when they were rights in the same server and a higher rank; non-owners never raise the union of a server's role bits; the permission algorithm against a rule for one flag |
| Relationships | `Relationships` | the two-row table refines a state machine for each pair of users, and what friendship says about the calls made |
| Gateway and read states | `Gateway`, `ReadState` | session index and queues, replay buffer, at-least-once delivery |

## How the model is laid out

Handlers and loops that change state are methods, of a class where the source updates fields or tables in place
(`RateLimiter`, `Tables`, `RelationshipTable`, `SessionManager`, `Buffer`, `Worker`). Each is proved equal to a
pure specification function of the old state, and the properties of whole runs are lemmas about those functions.
The two lock-free or concurrent algorithms, `next_id` and `get_or_fetch`, are state machines whose steps are the
source's atomic actions: a run is an arbitrary list of steps of arbitrary threads, and a step that its thread is
not ready for changes nothing.

Conventions and assumptions (`Common` holds the option type and 32-bit integers):

- Ids are numbers below 2^64. Shifts, masks and joins of ids are written out bit by bit in `Bits` and proved equal
  to division, remainder and sum; the 64-bit loss of a left shift and the two's-complement casts are explicit.
- A permission word is the set of the positions of its one bits, so `|`, `&` and `& !` are union, intersection and
  difference.
- Role positions are 32-bit and wrap around, as the release build does.
- Tokens of the rate limiter are scaled by the window in milliseconds, which makes every refill a whole number; the
  Redis clock does not run backwards, and rate and window are at least 1.
- A handler is one atomic step, and the databases answer. Several handlers issue more than one statement outside a
  transaction (`create_ban`, crates/lumiere-server/src/routes/servers.rs:1155-1180, for instance), so what is proved
  about runs is proved for handlers that do not overlap.
- Times, fresh ids, invite codes, whether a target user exists and which statement of a delivery fails are
  parameters.
- `Invite.admitted`, `Chan.leader`, `Chan.failed`, `State.produced` and `State.used` record history. Of these a
  step reads only `used`, which stands in for the randomness of fresh session ids.

Where the code and its comments differ, the code is modelled:

- crates/lumiere-models/src/snowflake.rs:18 speaks of a 41-bit timestamp; the shift keeps 42 bits. 41 bits is the
  bound below which the signed database view keeps the order of ids (`SignedOrderIff`).
- crates/lumiere-data-services/src/coalescing.rs:93 says every waiting receiver gets an error when the fetch fails. A
  follower from the slow path (lines 54-77) keeps its own sender while it waits, and so never does
  (`StrandedForever`, `FollowerCanStrand`); `WaitsForeverIff` says exactly who waits for ever.
- crates/lumiere-server/src/routes/roles.rs:254 says roles at or above the actor's position cannot be modified. The
  greatest 32-bit position is also the sign of the owner, and a new position is not bounded, so this holds exactly as
  `StandsAboveIff` says.
- crates/lumiere-server/src/routes/servers.rs:158 says the roles of this member are selected; the join asks for the user
  and not for the server of the role row (`AssignGivesIff`, `GainsRoleByRights`, `OwnerElsewhere`).
- crates/lumiere-server/src/routes/messages.rs:189-199 limits the rows before deleted ones are dropped, so a page need
  not be the newest live rows. `PageIsTopIff` and `CrawlShowsAllIff` say exactly when pages and crawls are complete.
- The read-state worker writes `read_states` through PostgreSQL, while the repository creates that table only in the
  ScyllaDB schema (migrations/scylla/001_initial.cql:34). The statements are modelled as written.

## Model

| member | source | states |
|---|---|---|
| Bits.OrDisjoint | crates/lumiere-models/src/snowflake.rs:203-205 | joining a shifted field to bits that lie entirely below it is addition |
| Bits.AndMask | crates/lumiere-models/src/snowflake.rs:43-50 | masking with k one bits is the remainder by 2^k |
| Snowflake.PackIsSum | crates/lumiere-models/src/snowflake.rs:203-205 | an assembled id is the weighted sum of its fields with the timestamp cut to 42 bits, and fits 64 bits |
| Snowflake.PackThenUnpack | crates/lumiere-models/src/snowflake.rs:32-50 | timestamp, machine id and sequence come back from an assembled id while the timestamp is below 2^42 |
| Snowflake.UnpackThenPack | crates/lumiere-models/src/snowflake.rs:32-50 | every 64-bit id is its three fields assembled: nothing else is in it |
| Snowflake.PackCollidesIff | crates/lumiere-models/src/snowflake.rs:203-205 | two assembled ids are equal exactly when machine, sequence and the low 42 timestamp bits agree |
| Snowflake.SignedRoundTrip | crates/lumiere-models/src/snowflake.rs:79-88 | the casts to and from the signed database value undo each other, both ways |
| Snowflake.SignedOrderIff | crates/lumiere-models/src/snowflake.rs:79-88 | the signed view keeps the order of two ids exactly when they are not on either side of timestamp 2^41 |
| SnowflakeGenerator.NextKeepsInv | crates/lumiere-models/src/snowflake.rs:175-210 | every clock reading, load and exchange, failed or not, keeps the issued ids increasing and not above the shared word |
| SnowflakeGenerator.IssuedIdsIncrease | crates/lumiere-models/src/snowflake.rs:175-210 | in every interleaving of any threads, under clocks that may go backwards but fit 42 bits, ids strictly increase in the order of the successful exchanges and carry the machine id |
| SnowflakeGenerator.MachinesNeverCollide | crates/lumiere-models/src/snowflake.rs:175-210 | generators with different machine ids have no id in common, in any two runs |
| SnowflakeGenerator.ExchangeOutcome | crates/lumiere-models/src/snowflake.rs:182-208 | a failed exchange changes nothing but the thread's place; one that succeeds starts a later millisecond at sequence 0, goes on by exactly one at the old timestamp otherwise, and at 4095 nothing is issued |
| SnowflakeGenerator.UndisturbedTurn | crates/lumiere-models/src/snowflake.rs:176-207 | so ends a whole turn that no other thread disturbs, in terms of the timestamp and sequence found in the word |
| SnowflakeGenerator.CountsOn | crates/lumiere-models/src/snowflake.rs:187-193 | while the clock stands still or runs backwards, turns of any threads one after the other issue the consecutive ids of the old timestamp up to 4095 and then none |
| SnowflakeGenerator.SameMillisecond | crates/lumiere-models/src/snowflake.rs:175-210 | from a fresh generator n turns within one millisecond, or after a backward clock, issue exactly the ids with sequences 0, 1, ... in order: n of them, or 4096 if there are more turns |
| SnowflakeGenerator.LateClockRepeatsAnId | crates/lumiere-models/src/snowflake.rs:203-206 | the 42-bit bound is needed: a clock 2^42 ms later is given the same id again |
| Bucket.ClosedForm | crates/lumiere-models/src/bucket.rs:11-20 | for every id the chain through seconds, days and spans is (id >> 22) / 864000000, between 0 and 5090, and the i32 casts lose nothing |
| Bucket.Monotone | crates/lumiere-models/src/bucket.rs:11-20 | a later id never falls into an earlier bucket |
| Pages.WalkSorted | crates/lumiere-server/src/routes/messages.rs:169-238 | the rows gathered over the partitions keep the direction of the query strictly, whatever is deleted |
| Pages.WalkRowIff | crates/lumiere-server/src/routes/messages.rs:110-122 | whatever is deleted, a row is on the page exactly if it is live and among the first of its partition, as many as the earlier partitions left room for |
| Pages.WalkIsTakeIff | crates/lumiere-server/src/routes/messages.rs:110-122 | fetching with a shrinking limit and then dropping deleted rows gives the first `limit` live rows exactly when no partition is cut off in front of a live row by a deleted one |
| Pages.WalkIsPrefixIff | crates/lumiere-server/src/routes/messages.rs:110-122 | the page is some beginning of the live rows exactly when behind no such cut a later partition has a live row among as many as are missing |
| Pages.ShadowedPageDiffers | crates/lumiere-server/src/routes/messages.rs:110-122 | behind such a cut the page is never the first `limit` live rows |
| Pages.CleanFetchNoShadow | crates/lumiere-server/src/routes/messages.rs:189-199 | if no row that was read is deleted, nothing is cut off |
| Pages.TopUnique | crates/lumiere-server/src/routes/messages.rs:169-238 | the flat top-`limit` query over a set of rows has one answer |
| History.QueryBefore | crates/lumiere-server/src/routes/messages.rs:179-200 | the loop below a cursor computes the page of its specification |
| History.QueryAfter | crates/lumiere-server/src/routes/messages.rs:201-218 | the loop above a cursor computes the page of its specification |
| History.QueryLatest | crates/lumiere-server/src/routes/messages.rs:219-235 | the loop without a cursor computes the page of its specification |
| History.QueryMessages | crates/lumiere-server/src/routes/messages.rs:169-238 | `before` wins over `after`, and each case computes the page of its specification |
| History.Downward | crates/lumiere-models/src/bucket.rs:42-45 | `buckets_before` lists every bucket from the cursor's down to the minimum, none if the minimum is above |
| History.PartsAreFlat | crates/lumiere-server/src/routes/messages.rs:179-235 | the partitions visited, end to end, are one sorted list of exactly the stored rows past the cursor in those buckets |
| History.LiveFlatIsPool | crates/lumiere-server/src/routes/messages.rs:179-235 | the live ones among them are exactly the live rows on the right side of the cursor in the scanned range |
| History.PageWellFormed | crates/lumiere-server/src/routes/messages.rs:169-238 | for every store, cursor and limit a page is strictly ordered, live only, on the right side of the cursor, in range and at most `limit` long |
| History.PageIsTopIff | crates/lumiere-server/src/routes/messages.rs:169-238 | a page equals the flat top-`limit` query over the scanned buckets exactly when nothing is cut off by a deleted row |
| History.CleanPageIsTop | crates/lumiere-server/src/routes/messages.rs:169-238 | so it does whenever no fetched row is deleted |
| Messages.Limit | crates/lumiere-server/src/routes/messages.rs:283-283 | an asked limit between 1 and 100 is kept, others are moved to the nearer end, and the default is 50 |
| Messages.GetMessages | crates/lumiere-server/src/routes/messages.rs:283-310 | `around` is newer rows, target, older rows, with half the limit on each side; otherwise the plain page |
| Messages.AroundIsTopIff | crates/lumiere-server/src/routes/messages.rs:285-307 | an `around` page is its newer rows, the target if live, and its older rows, in this order; the newer are the next live rows after the target, ascending, the older the last before it, descending, half the limit of either, each exactly if no partition read on that side is cut off in front of a live row by a deleted one |
| Messages.AroundWellFormed | crates/lumiere-server/src/routes/messages.rs:285-307 | an `around` page has distinct ids, at most 2*(limit/2)+1 rows, live rows only, and the target exactly if it is live |
| Messages.InsertIsUpdate | crates/lumiere-server/src/routes/messages.rs:435-436 | writing a row into the bucket of its id, of either sign, keeps every row in its bucket and in order, replaces a row of the same id and no other |
| Messages.SentMessageIsStored | crates/lumiere-server/src/routes/messages.rs:435-472 | a message sent is live in the bucket computed from its id and every other message is still there |
| Messages.DeletedMessageIsHidden | crates/lumiere-server/src/routes/messages.rs:706-714 | deleting leaves no live row of that id, keeps the deleted row with its content, and leaves every other row as it was, even if there was no such message |
| Paging.PageIsPrefix | crates/lumiere-server/src/routes/messages.rs:179-200 | without deleted rows a page continues the older messages without a gap and is empty only if none is in reach |
| Paging.CrawlReaches | crates/lumiere-server/src/routes/messages.rs:179-200 | without deleted rows, paging by the last id shows, in order and once, exactly the older messages up to the first stretch wider than 20 buckets |
| Paging.CrawlCompleteIff | crates/lumiere-server/src/routes/messages.rs:179-200 | so it shows every older message exactly when each lies at most 20 buckets below the one before |
| Paging.CrawlSound | crates/lumiere-server/src/routes/messages.rs:179-200 | whatever is deleted, paging goes strictly downwards through live messages below the cursor |
| Paging.CrawlShowsAllIff | crates/lumiere-server/src/routes/messages.rs:179-200 | whatever is deleted, paging shows every live older message exactly when, on every page, no partition cut off in front of a live row by a deleted one is followed by a partition with a live row among as many as were missing, and the empty page at the end hides no live row in or below its buckets |
| Paging.DeletedRowHidesOlder | crates/lumiere-server/src/routes/messages.rs:189-199 | one deleted message can hide an older live one from a client that pages by single rows |
| Paging.DeletedRowExample | crates/lumiere-server/src/routes/messages.rs:189-199 | a concrete store of two rows where that happens |
| TokenBucket.RateLimiter.Check | crates/lumiere-server/src/middleware/rate_limit.rs:27-48 | the script's reply and the key it leaves, expiry included, are those of the specification; a denial leaves the key alone |
| TokenBucket.RunKeepsInv | crates/lumiere-server/src/middleware/rate_limit.rs:36-48 | in every run stored tokens lie between 0 and rate - 1, keys expire two windows after their last write, and `remaining` is below the rate |
| TokenBucket.LevelTicks | crates/lumiere-server/src/middleware/rate_limit.rs:31-38 | however long a key is left alone, or expired, it reads like a bucket that was refilled every millisecond |
| TokenBucket.LazyIsEager | crates/lumiere-server/src/middleware/rate_limit.rs:27-48 | on every trace the lazy bucket and the eager one give the same replies, so key expiry is not observable |
| TokenBucket.FreshKeyIsFullBucket | crates/lumiere-server/src/middleware/rate_limit.rs:31-34 | from an unused key the replies are those of an eager bucket that starts full |
| TokenBucket.DeniedLeaveNoTrace | crates/lumiere-server/src/middleware/rate_limit.rs:40-43 | striking the denied requests from a trace changes no other reply and not the final key |
| TokenBucket.WaitIsLeast | crates/lumiere-server/src/middleware/rate_limit.rs:40-43 | after a denial the request is allowed at a later time exactly if at least `wait` milliseconds have passed |
| TokenBucket.Potential | crates/lumiere-server/src/middleware/rate_limit.rs:36-48 | requests allowed from any good state, times the window, are at most the level plus rate times the time that passed |
| TokenBucket.BurstBound | crates/lumiere-server/src/middleware/rate_limit.rs:36-48 | in every run at most rate + floor(T*rate/window) requests are allowed within T milliseconds |
| TokenBucket.BurstIsTight | crates/lumiere-server/src/middleware/rate_limit.rs:36-48 | of n simultaneous requests exactly as many are allowed as the bucket has whole tokens, or all n |
| TokenBucket.RemainingIsExact | crates/lumiere-server/src/middleware/rate_limit.rs:40-48 | the `remaining` of a reply is how many of any number of further simultaneous requests would be allowed |
| Coalescing.NextKeepsInv | crates/lumiere-data-services/src/coalescing.rs:35-100 | every atomic step of every call keeps map, channels, leaders, followers and cache consistent |
| Coalescing.OneLeaderPerKey | crates/lumiere-data-services/src/coalescing.rs:54-99 | in every interleaving a key has at most one leader, the map holds exactly the keys being led, and `in_flight_count` is the number of leaders |
| Coalescing.ValuesWereFetched | crates/lumiere-data-services/src/cache.rs:73-129 | every value a caller gets, from the cache, as leader or as follower, was produced by a fetch for its key |
| CoalescingAnswers.CacheHitIff | crates/lumiere-data-services/src/cache.rs:80-93 | at the cache a call returns a value at once exactly if the cache is reachable and holds it for the key, goes on to the guard otherwise, and changes nothing else |
| CoalescingAnswers.TooManyIff | crates/lumiere-data-services/src/cache.rs:95-107 | in every reachable state a call is refused at the guard exactly if there is a limit and at least as many calls lead |
| CoalescingAnswers.WarmCache | crates/lumiere-data-services/src/cache.rs:80-86 | from a cache that holds a key, n calls for it get its value n times, and no channel is made nor anything else changed |
| CoalescingAnswers.StoredIsServed | crates/lumiere-data-services/src/cache.rs:116-125 | once a leader has stored its value, and until eviction or another store, every call that reaches the cache gets that value |
| CoalescingAnswers.EvictedMisses | crates/lumiere-data-services/src/cache.rs:131-134 | an invalidated key misses and no other key is touched |
| CoalescingAnswers.LeadsIfAlone | crates/lumiere-data-services/src/coalescing.rs:54-68 | a call that finds no request in flight leads on a channel of its own |
| CoalescingAnswers.JoinsIfLed | crates/lumiere-data-services/src/coalescing.rs:40-49 | one that finds a request in flight waits for the next value on its channel, without a sender of its own |
| CoalescingAnswers.SlowPathWaits | crates/lumiere-data-services/src/coalescing.rs:54-77 | one that loses the race for the entry waits the same way, with a sender of its own |
| CoalescingAnswers.LeaderSends | crates/lumiere-data-services/src/coalescing.rs:79-86 | a successful fetch is stored if the cache is reachable and sent once to the leader's channel |
| CoalescingAnswers.LeaderReturns | crates/lumiere-data-services/src/coalescing.rs:87-90 | the leader then takes its entry out and returns its own value |
| CoalescingAnswers.LeaderFails | crates/lumiere-data-services/src/coalescing.rs:92-98 | a failed fetch sends nothing, leaves the cache alone, takes the entry out and returns the error |
| CoalescingAnswers.OneFetchServesAll | crates/lumiere-data-services/src/coalescing.rs:30-100 | however many calls come while a leader fetches, all get the value of that one fetch and no channel is made for them |
| Coalescing.FollowerOutcome | crates/lumiere-data-services/src/coalescing.rs:41-49 | a follower gets a value exactly if it subscribed before its leader's send, and then the leader's; it gets CoalescingFailed exactly if it subscribed after the send or the fetch failed; none lags |
| Coalescing.EarlyFollowerReceives | crates/lumiere-data-services/src/coalescing.rs:70-90 | once the leader has sent, a follower subscribed in time returns the very value the leader returns |
| Coalescing.StrandedForever | crates/lumiere-data-services/src/coalescing.rs:70-98 | a slow-path follower whose leader is finished with nothing left for it waits for ever, whatever happens next |
| Coalescing.FollowerCanStrand | crates/lumiere-data-services/src/coalescing.rs:54-98 | such a follower is reachable, for every key, in a run of two calls and one failed fetch |
| Coalescing.WakesIff | crates/lumiere-data-services/src/coalescing.rs:70-98 | once its leader is finished a waiting follower can return exactly if a value is left for it or no slow-path follower holds the channel open |
| CoalescingWaits.WaitsForeverIff | crates/lumiere-data-services/src/coalescing.rs:41-98 | a waiting follower, from either path, stays where it is in every continuation exactly if its leader has no send ahead, nothing is left for it, and some slow-path follower without anything to receive keeps the channel open |
| Permissions.BasePermissions | crates/lumiere-permissions/src/lib.rs:106-113 | a flag is in the base exactly if it is known and @everyone or some role the member holds grants it |
| Permissions.GatherOverrides | crates/lumiere-permissions/src/lib.rs:131-142 | role overrides allow or deny a flag exactly if that of some role of the member does |
| Permissions.ComputePermissions | crates/lumiere-permissions/src/lib.rs:92-157 | the result is, flag by flag, the precedence rule: owner and administrator first, then member over roles over @everyone over base, allow before deny at each level |
| Permissions.RoleOrderIrrelevant | crates/lumiere-permissions/src/lib.rs:109-142 | neither order nor repetition of a member's role ids matters |
| Permissions.AdministratorIsAll | crates/lumiere-permissions/src/lib.rs:115-154 | with overrides stripped of ADMINISTRATOR a member has that flag exactly if it has all |
| Permissions.UnstrippedAdministrator | crates/lumiere-permissions/src/lib.rs:146-153 | without stripping a member can have ADMINISTRATOR and nothing else |
| Permissions.SetOverrideKeepsStripped | crates/lumiere-server/src/routes/roles.rs:497-515 | every override that `set_channel_override` stores is stripped and holds known flags only |
| Permissions.SetOverrideStores | crates/lumiere-server/src/routes/roles.rs:497-515 | refused exactly if it names a bit besides ADMINISTRATOR that the actor lacks; otherwise the target's one override, whatever its type was, is the one given without that bit, and every other target's stays |
| Permissions.FindOverrideIsFirst | crates/lumiere-permissions/src/lib.rs:123-149 | the override used for a target and type is the first in the list, and none exactly if there is none |
| Permissions.FindRoleIsFirst | crates/lumiere-permissions/src/lib.rs:109-113 | the bits used for a role are those of its first entry, and none exactly if there is none |
| Permissions.HighestRolePosition | crates/lumiere-permissions/src/lib.rs:166-178 | the result is the position of a role the member holds and no held role is higher; 0 exactly for want of any |
| Guilds.ApplyKeepsInv | crates/lumiere-server/src/routes/servers.rs:256-352 | every handler, successful or refused, keeps the table invariants |
| Guilds.CreateServerKeepsInv | crates/lumiere-server/src/routes/servers.rs:282-352 | a created server, or a refusal, keeps the table invariants |
| Guilds.CreatedServer | crates/lumiere-server/src/routes/servers.rs:282-352 | in a created server the creator is owner and only member with a count of one, nobody is banned, the creator may do everything and anybody else what @everyone may; no other server and nobody's rights in one change |
| Guilds.CreateBanKeepsInv | crates/lumiere-server/src/routes/servers.rs:1137-1180 | banning never leaves anybody both member and banned, nor the owner banned, nor the count wrong |
| Guilds.UseInviteKeepsInv | crates/lumiere-server/src/routes/servers.rs:1405-1489 | joining keeps count, bans and invite limits right, although it adds to the count instead of recomputing it |
| Guilds.UpdateMemberKeepsInv | crates/lumiere-server/src/routes/servers.rs:793-880 | replacing role rows leaves rows only for members and existing roles, also when it stops half-way |
| Guilds.EveryRun | crates/lumiere-server/src/routes/servers.rs:942-974 | in every run from empty tables: the owner is a member and not banned, nobody is member and banned, member_count is the number of members, an invite's uses are those it admitted and within its limit, role bits are known flags |
| Guilds.PermittedIff | crates/lumiere-server/src/routes/servers.rs:140-196 | a user passes a permission check exactly if it is a member and owns the server, or the default role or a role of the server it has a row for grants the flag or ADMINISTRATOR |
| Guilds.PermsBelowCeiling | crates/lumiere-server/src/routes/servers.rs:140-180 | nobody but the owner has more than all roles of the server together grant |
| Guilds.StepWithinCeiling | crates/lumiere-server/src/routes/roles.rs:186-204 | a step of anybody but the owner leaves in a role of the server only bits that were within that ceiling |
| Guilds.NoEscalation | crates/lumiere-server/src/routes/roles.rs:304-319 | in every run without steps of the owner the union of the server's role bits, closed to everything if it has ADMINISTRATOR, never grows, and bounds what every other user ever holds |
| Guilds.ComputationsAgree | crates/lumiere-server/src/routes/servers.rs:158-180 | without overrides `compute_permissions` and `get_user_permissions` give the same answer |
| GuildRights.LosesMembership | crates/lumiere-server/src/routes/servers.rs:935-1035 | in every step, who ceases to be a member of a server that goes on existing has left, or was kicked or banned by a permitted user that outranks it; never the owner |
| GuildRights.GainsMembership | crates/lumiere-server/src/routes/servers.rs:1405-1489 | in every step, who becomes a member of an existing server used an invite to it that is neither expired nor used up, and is not banned |
| GuildRights.BanChanges | crates/lumiere-server/src/routes/servers.rs:1131-1217 | a ban appears only by a permitted user that outranks its target, and disappears only by a permitted one |
| GuildRights.OwnerChanges | crates/lumiere-server/src/routes/servers.rs:453-475 | the owner of an existing server changes only by its own hand, and to a member |
| GuildRights.RoleTouched | crates/lumiere-server/src/routes/roles.rs:252-456 | whatever the step, an existing role changes or disappears only by a user that may manage roles and owns the server, stands above the role or holds a role at the greatest 32-bit position; the default role never disappears |
| RolePositions.OutranksIff | crates/lumiere-server/src/routes/servers.rs:206-243 | another than the owner outranks a user exactly if some role it holds there stands above all the user holds there, 0 standing for no role |
| RolePositions.TouchableIsBelow | crates/lumiere-server/src/routes/roles.rs:264-268 | what the handlers let an actor touch is what lies below it, or everything for the owner and for one with a role at the greatest position |
| RolePositions.StandsAboveIff | crates/lumiere-server/src/routes/roles.rs:83-112 | an actor may touch only what lies below it exactly if it owns the server or holds no role at the greatest position |
| RolePositions.HighestAfterMove | crates/lumiere-server/src/routes/roles.rs:339-343 | the highest position of any set of roles after one role has moved |
| RolePositions.MoveIsUnbounded | crates/lumiere-server/src/routes/roles.rs:305-343 | whoever may touch a role may put it at any position |
| RolePositions.OutranksAfterMove | crates/lumiere-server/src/routes/servers.rs:219-241 | rank after a move, from the new position and the other roles of the two users |
| RolePositions.CanOutrankIff | crates/lumiere-server/src/routes/roles.rs:305-343 | by moving a role of its own that it may touch a member that is not the owner can come to outrank another exactly if that one holds no role at the greatest position |
| RolePositions.RaisedToTop | crates/lumiere-server/src/routes/roles.rs:264-268 | with a role of its own at the greatest position a member may touch every role of the server |
| RolePositions.SelfRaiseExample | crates/lumiere-server/src/routes/roles.rs:305-343 | concretely: a member at 5 raises its second role from 3 and outranks the member at 9 who outranked it, and may touch the role at 9 which it might not |
| RolePositions.NewRoleIsAboveIff | crates/lumiere-server/src/routes/roles.rs:178-184 | a new role stands one above the highest of its server, and above all others, exactly if none is at the greatest position; otherwise its position wraps to the least |
| RoleGrants.RowsAfter | crates/lumiere-server/src/routes/servers.rs:859-880 | the role rows after an assignment, row by row |
| RoleGrants.GainsRole | crates/lumiere-server/src/routes/servers.rs:799-880 | in every step, a role of a server that a user did not have comes by an assignment that names the role and the user, made in some server by one who may manage roles and outranks the user there, or is the default role of a server just created |
| RoleGrants.AssignGivesIff | crates/lumiere-server/src/routes/servers.rs:158-163 | an assignment newly gives its target a role of a server exactly if the loop gets to it, whatever server that role belongs to |
| RoleGrants.HeldLocalIff | crates/lumiere-server/src/routes/servers.rs:869-880 | role rows keep naming roles of their own server in a step exactly if every id an assignment writes belongs to the server it is made in |
| RoleGrants.RunLocalIff | crates/lumiere-server/src/routes/servers.rs:869-880 | and in every run exactly if that holds of each of its assignments |
| RoleGrants.GainsRoleByRights | crates/lumiere-server/src/routes/servers.rs:799-880 | under that condition who gives a role in a server may manage roles and outranks the user in that very server |
| RoleGrants.AssignsInServerIff | crates/lumiere-server/src/routes/servers.rs:799-880 | all roles an assignment newly gives are of the server where its rights were asked for exactly if every id it writes belongs there or gives nothing new |
| RoleGrants.OwnerElsewhere | crates/lumiere-server/src/routes/servers.rs:158-163 | without the condition no right in a server is needed: the owner of any other server comes to hold everything by a role of this one with ADMINISTRATOR |
| RoleGrants.CrossServerExample | crates/lumiere-server/src/routes/servers.rs:870-880 | concretely: a plain member of server 1 that owns server 2 goes from no permission to all |
| RoleGrants.GainsPermission | crates/lumiere-server/src/routes/servers.rs:140-180 | in every step, a permission a user did not have in a server comes with its ownership from the owner, with an assigned role of the server, or with new bits of a role it has from one who holds those bits |
| GuildHandlers.Tables.GetUserPermissions | crates/lumiere-server/src/routes/servers.rs:140-180 | the loop over the selected rows, in any order, gives everything to owner and administrator and otherwise the known bits of the rows |
| GuildHandlers.Tables.CheckRoleHierarchy | crates/lumiere-server/src/routes/servers.rs:200-244 | passes exactly for the owner or a strictly higher greatest position |
| GuildHandlers.Tables.SelectMax | crates/lumiere-server/src/routes/servers.rs:219-226 | the greatest position of the rows, 0 for none |
| GuildHandlers.Tables.CreateServer | crates/lumiere-server/src/routes/servers.rs:267-352 | served exactly under 100 servers and with a fresh id; then exactly the server with its creator as only member, its default role and the creator's row of it are added, otherwise nothing; the invariant is kept |
| GuildHandlers.Tables.TransferOwnership | crates/lumiere-server/src/routes/servers.rs:453-475 | done exactly if the owner names a member; then the owner is that member, and members, bans, count, every other server and every other table are as before; the invariant is kept |
| GuildHandlers.Tables.DeleteServer | crates/lumiere-server/src/routes/servers.rs:583-623 | done exactly for the owner with its password; then exactly the server, its roles, its invites and the role rows of either go; the invariant is kept |
| GuildHandlers.Tables.KickMember | crates/lumiere-server/src/routes/servers.rs:940-974 | forbidden exactly without the permission, the rank or against the owner, not found exactly if the target is no member, and nothing changes then; otherwise the target's member row and role rows in this server go and no other row, bans stay, and the count is that of the members left; the invariant is kept |
| GuildHandlers.Tables.LeaveServer | crates/lumiere-server/src/routes/servers.rs:1004-1035 | refused exactly to the owner and to strangers, with no change; otherwise the member's own rows in this server go and no other row; the invariant is kept |
| GuildHandlers.Tables.CreateBan | crates/lumiere-server/src/routes/servers.rs:1137-1180 | forbidden exactly without the permission, the rank or against the owner, with no change; otherwise the target is banned and, if it was a member, its rows go, and no other row changes; the invariant is kept |
| GuildHandlers.Tables.RemoveBan | crates/lumiere-server/src/routes/servers.rs:1207-1217 | done exactly if a permitted user names a banned one; then that ban goes and no other ban, member, owner, count or server changes; the invariant is kept |
| GuildHandlers.Tables.CreateInvite | crates/lumiere-server/src/routes/servers.rs:1254-1273 | done exactly for a permitted user and a fresh code; the new invite is unused, not used up, and expires exactly after its age, and no other invite changes; the invariant is kept |
| GuildHandlers.Tables.DeleteInvite | crates/lumiere-server/src/routes/servers.rs:1520-1541 | done exactly for the inviter or one who may manage the server; then that invite goes and every other stays; the invariant is kept |
| GuildHandlers.Tables.UseInvite | crates/lumiere-server/src/routes/servers.rs:1405-1489 | not found, expired or used up, and banned exactly in their cases and with no change; a member is done without change; everybody else becomes a member with the default role's row, count and uses one higher and no other row changed; the invariant is kept |
| GuildHandlers.Tables.UpdateMember | crates/lumiere-server/src/routes/servers.rs:799-880 | refused exactly without the rights, with no change; otherwise the target's role rows in the server are its default one and those listed up to the first id that is no role, no other row changes, and it is done exactly if there is no such id and the target is a member; the invariant is kept |
| GuildHandlers.Tables.CreateRole | crates/lumiere-server/src/routes/roles.rs:173-219 | done exactly for a permitted user with a fresh id and bits it holds; the role is added at the next position in 32 bits and no other row changes; the invariant is kept |
| GuildHandlers.Tables.UpdateRole | crates/lumiere-server/src/routes/roles.rs:252-343 | done exactly if the actor may touch the role, names a change and holds the bits; not found and bad request exactly in their cases; then only the named fields of this role change; the invariant is kept |
| GuildHandlers.Tables.DeleteRole | crates/lumiere-server/src/routes/roles.rs:364-399 | done exactly if the actor may touch the role and it is not the default one; then exactly the role and the role rows that name it go; the invariant is kept |
| GuildHandlers.Tables.FindObjection | crates/lumiere-server/src/routes/roles.rs:431-446 | no objection exactly if every entry names a role of the server below the actor; otherwise the first entry that does not decides the reply |
| GuildHandlers.Tables.ReorderRoles | crates/lumiere-server/src/routes/roles.rs:426-456 | refused without the permission or with the reply of the first entry that may not be placed, with no change; otherwise each role of the server named is at the position of the last entry naming it and nothing else changes; the invariant is kept |
| GuildRights.PlacedAtLast | crates/lumiere-server/src/routes/roles.rs:449-456 | a role of the server ends at the position of the last entry that names it |
| Relationships.RelationshipTable.CreateRelationship | crates/lumiere-server/src/routes/users.rs:477-605 | the target is found by id or user name; requests, acceptances and refusals follow in the order of the source's checks |
| Relationships.RelationshipTable.RemoveRelationship | crates/lumiere-server/src/routes/users.rs:637-649 | afterwards the two are strangers, as the reply says whether they were before; no other row changes and consistency is kept |
| Relationships.RelationshipTable.BlockUser | crates/lumiere-server/src/routes/users.rs:681-718 | exactly if another, existing user is named with type 2 the pair is then blocked by the caller, whatever it was; otherwise nothing changes; no other row ever does, and consistency is kept |
| Relationships.PairsAreConsistent | crates/lumiere-server/src/routes/users.rs:494-605 | in every run a pair is in one of six states, nobody relates to itself, and two users are friends exactly if both called create since the pair was last cleared |
| Relationships.InsertNeverCollides | crates/lumiere-server/src/routes/users.rs:598-605 | no step of any run makes the two-row INSERT meet an existing row |
| Relationships.RunRefinesPair | crates/lumiere-server/src/routes/users.rs:472-732 | in every run the two rows of a pair are exactly the state of a machine over the six states that sees the steps of that pair alone |
| Relationships.StepRefinesPair | crates/lumiere-server/src/routes/users.rs:472-732 | each step gives the next state and the reply of that machine |
| Relationships.BlockStands | crates/lumiere-server/src/routes/users.rs:514-542 | a block stands, and the blocked user's requests are refused, until one of the two removes it or the other blocks back |
| Relationships.RequestAndAnswer | crates/lumiere-server/src/routes/users.rs:544-605 | a request and its answer make friends of strangers, asking again changes nothing, and removal restores the very table from before |
| GatewaySessions.SessionManager.RegisterSession | crates/lumiere-gateway/src/session.rs:36-45 | the session is live and listed last for its user; all other sessions and lists are as before |
| GatewaySessions.SessionManager.RemoveSession | crates/lumiere-gateway/src/session.rs:47-61 | exactly the session goes from the sessions and from its user's list, which keeps its order; every other list stays, and the removed session is returned |
| GatewaySessions.SessionManager.DispatchToUser | crates/lumiere-gateway/src/session.rs:70-78 | afterwards every live session of the user with fewer than 1024 messages queued has the message at the end of its queue; full ones, other sessions, sequence numbers and the index are as before |
| GatewaySessions.QueueIsFirst | crates/lumiere-gateway/src/session.rs:70-78 | in every run, while a session stays live its queue is what it held and then the messages delivered to its user, in order, up to the first 1024; its user and sequence stay |
| GatewaySessions.QueueSinceStart | crates/lumiere-gateway/src/handler.rs:139-149 | so from its identify on a session holds the first 1024 messages delivered to its user since |
| GatewaySessions.SessionManager.NextSequence | crates/lumiere-gateway/src/session.rs:80-82 | one session's sequence moves up by one and is returned; no other session changes |
| GatewaySessions.SessionsStayInStep | crates/lumiere-gateway/src/handler.rs:224-243 | in every run of connects, identifies, resumes, closes and expiries no session is live and parked, no two connections share one, and the index lists exactly each user's live sessions, none twice, no list empty |
| GatewaySessions.AttachedIff | crates/lumiere-gateway/src/handler.rs:171-195 | live sessions stay on connections in a step exactly if it is not a successful resume on a connection that has a session |
| GatewaySessions.RunAttachedIff | crates/lumiere-gateway/src/handler.rs:171-195 | and in every run exactly if no step is one |
| GatewaySessions.ReplacedIsOrphan | crates/lumiere-gateway/src/handler.rs:181-189 | the session such a resume replaces stays live and listed, on no connection |
| GatewaySessions.OrphanExample | crates/lumiere-gateway/src/handler.rs:181-189 | six steps from the start that lead there |
| GatewaySessions.IdentifyOutcome | crates/lumiere-gateway/src/handler.rs:124-149 | a connection without a session gets a fresh one at sequence 0 with an empty queue |
| GatewaySessions.SecondIdentify | crates/lumiere-gateway/src/handler.rs:124-128 | one that has a session and identifies again ends like a closed one |
| GatewaySessions.CloseOutcome | crates/lumiere-gateway/src/handler.rs:223-243 | a connection that ends parks exactly its session, under its user and sequence |
| GatewaySessions.ResumeOutcome | crates/lumiere-gateway/src/handler.rs:394-434 | a resume succeeds exactly for a parked session of the same user, which is then live and no longer parked; otherwise the connection ends |
| GatewaySessions.ExpiredCannotResume | crates/lumiere-gateway/src/handler.rs:394-401 | a parked session that has expired cannot be resumed |
| GatewaySessions.CloseThenResume | crates/lumiere-gateway/src/handler.rs:394-434 | a session closed is parked under its sequence, and resumed in time it is live again for its user under its id, with the client's sequence, and no longer parked |
| ReplayBuffer.Buffer.BufferEvent | crates/lumiere-gateway/src/handler.rs:535-559 | a dispatch becomes the last of at most 1000 events and those before it keep their order, the oldest dropped; anything else leaves the buffer alone |
| ReplayBuffer.Buffer.ReplayEvents | crates/lumiere-gateway/src/handler.rs:563-593 | the unseen events are added to the queue once and in buffer order, up to 1024 in all; all are counted and the buffer is emptied |
| ReplayBuffer.UnseenMembers | crates/lumiere-gateway/src/handler.rs:581-586 | unseen is exactly what has a number above the client's last: an event at that number is not sent, the next one is |
| ReplayBuffer.UnseenIsEnd | crates/lumiere-gateway/src/handler.rs:579-588 | of a buffer numbered upwards a replay brings exactly the end that starts at the first number not seen |
| ReplayBuffer.BufferIsTail | crates/lumiere-gateway/src/handler.rs:545-557 | after every run the buffer is exactly the last 1000 dispatches since it was last deleted, in order |
| ReplayBuffer.ReplayCompleteIff | crates/lumiere-gateway/src/handler.rs:563-593 | a replay brings everything the client has not seen exactly when all of it is among the last 1000 dispatches |
| ReplayBuffer.ReplayFits | crates/lumiere-gateway/src/handler.rs:578-588 | in an outbound channel with room for 1000 no replay loses an event |
| ReadState.Worker.ProcessMessage | crates/lumiere-server/src/workers/read_state_worker.rs:64-159 | the members' rows are written one by one up to the failing statement, and the delivery is acknowledged exactly if none fails |
| ReadState.DeliveryCounts | crates/lumiere-server/src/workers/read_state_worker.rs:123-159 | a delivery that goes through counts a mention for every user of the audience if everyone is mentioned and otherwise for exactly those named, moves the last id up only, and touches no other row |
| ReadState.RunRow | crates/lumiere-server/src/workers/read_state_worker.rs:123-159 | over every run a row's last id is the greatest seen and its count grows by the mentions counted, in any order |
| ReadState.FreshRow | crates/lumiere-server/src/workers/read_state_worker.rs:131-158 | from no row: there is one exactly once an attempt reached it, with the greatest id and the number of mentions counted |
| ReadState.SettledLast | crates/lumiere-server/src/workers/read_state_worker.rs:48-58 | once everything is acknowledged, whatever the order, failures and redeliveries, last_message_id is the greatest id addressed to the user in the channel, and there is a row exactly if there is such an id |
| ReadState.SettledMentions | crates/lumiere-nats/src/lib.rs:53-60 | then mention_count lies between N and 3N, N being the number of distinct messages that mention the user |
| ReadState.ThriceCounted | crates/lumiere-nats/src/lib.rs:53-60 | the factor three is reached by two deliveries that fail late and one that succeeds |

## Left out

Stated weaker than the source, or about less than the whole handler:

- GuildHandlers.Tables.UpdateRole: only permissions and position; name, colour, hoist, icon and mentionable are not modelled, so a request with only those is not either.
- GuildHandlers.Tables.UpdateMember: only the role list of a member update; nicknames and timeouts are not modelled.
- GuildHandlers.Tables.CreateServer: the default channels and field validation are not modelled.
- GuildHandlers.Tables.TransferOwnership: only the owner field of a server update.
- GuildHandlers.Tables.UseInvite: member counts and uses are unbounded integers, so their 32-bit overflow is not captured.
- GuildHandlers.Tables.CreateInvite: the channel lookup and the `temporary` flag are not modelled.
- Guilds.NoEscalation: bounds what users hold by the union of the server's roles, not by who was meant to have them; `RoleGrants.GainsPermission` names the rights behind each gain.
- Guilds.EveryRun: handlers do not overlap; interleavings of the statements of two handlers are not modelled.
- Permissions.ComputePermissions: overrides hold known flags, as the source's flag type has it; the server itself never calls this function.
- Permissions.SetOverrideKeepsStripped: overrides written when a channel is created (crates/lumiere-server/src/routes/channels.rs:331-355) are not covered.
- History.PageWellFormed: and the other properties of pages hold for stores whose ids are nonnegative as database values, as they are for timestamps below 2^41.
- SnowflakeGenerator.IssuedIdsIncrease: clocks before 2024, where the source's subtraction underflows, and the memory orderings of the atomics are not modelled; that a thread's loop ends is not claimed.
- TokenBucket.RateLimiter.Check: exact arithmetic; rounding of Lua numbers, their decimal form in Redis and failures of Redis are not modelled.
- Coalescing.OneLeaderPerKey: a leader's call is not cancelled; max_in_flight is checked before the insertion, as in the source, and therefore not claimed as a bound.
- Coalescing.FollowerOutcome: says what a follower gets if it returns; that it returns is false in general (`StrandedForever`).
- GatewaySessions.SessionManager.NextSequence: sequence numbers are distinct within one session object only; a resumed session starts again from the client's number.
- GatewaySessions.QueueIsFirst: the task that drains a session's queue to its socket is not modelled, so a queue only grows.
- GatewaySessions.SessionsStayInStep: identify, resume and cleanup are atomic, and their token checks are not modelled.
- ReplayBuffer.Buffer.ReplayEvents: the channel is not drained during the replay; decoding of stored events does not fail.
- ReadState.SettledLast: the membership of a server does not change while its messages are redelivered.

Not modelled at all:

- Channels, pins, reactions, webhooks, profiles, settings, notes, reports and applications: create, read, update and delete.
- Category parents and the limit of 50 channels in a category: channel update and reorder do not check them.
- `bucket_range` and `can_modify_member`: a range and a comparison.
- Login failure counters, the predefined limits and the `retry-after` header, which is in seconds while the script answers in milliseconds.
- Voice state, presence, the order of events across NATS subjects.
- User deletion and what it takes along in other tables.
- Tokens, password hashing, object storage, push services, search, transport and serialization: foreign libraries and I/O.
