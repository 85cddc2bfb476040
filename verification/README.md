# MUTHUR Command backend: a Dafny model

This project models the parts of the FastAPI backend that have real state, arithmetic or loops, and proves what
they promise. Run `dafny verify dfyconfig.toml` in this directory to check it.

| part | files | what is proved |
|---|---|---|
| Snowflake ids | `Bits`, `Snowflake`, `SnowflakeLease` | packing and parsing are mutual inverses; ids of one generator strictly increase for any clock; in every interleaving of any number of nodes all ids of the cluster differ, under three named hypotheses, each shown to be needed |
| Join rows to nested records | `Digraph`, `RelationText`, `RelationPlans`, `Serializers`, `NestedRecords`, `FlatRecords` | one record per main object; at any depth a field lists exactly the children that some row carries, under its name and as its kind of relation says; without relations exactly the joined objects |
| Rows to forest | `BuildTree`, `TreeSort`, `TreeBuilders` | what the two in-place builders leave in the heap, when they agree, when nothing is lost, when the recursion ends |
| Sessions and cached users | `RedisKeys`, `Sessions`, `SessionLaws`, `SessionService`, `OAuth2` | cache coherence, single login and "ended means ended" for access and refresh tokens over every run of nineteen kinds of service calls; exactly when each key, row, flag and link comes, changes and goes; which user a social account leads to |
| Login lockout | `Lockout` | the counter never passes the threshold, and how many guesses fit into a time window |
| Beat scheduler | `Scheduler` | `sync` and `schedule` end whatever happens; what is saved, kept dirty or lost; without a failure or a nested reload no counted run is lost and a one-off task runs once |
| Operation log | `OperaLog` | records put = flushed + in hand + queued, in order, in every interleaving |
| Startup | `Startup` | the seed script commits at most once, and who returns sees its data |
| Version bump | `VersionBump` | which bumps give a newer version under PEP 440, and which the next one; and that a written version is read back |

`Options`, `Decimal`, `Texts` and `Timezone` hold what several parts share.

Code that changes state is a class whose methods follow the source statement by statement; each method is proved
equal to a function on the old state, or to a run of a step system (the ghost result `trace`), and the properties
are proved about those. Where several processes or coroutines interleave, the step system lets every step of one
happen between any two steps of another; a step that is not possible changes nothing. What the steps and these
functions do is also told apart from them, by lemmas such as those whose names end in `Exactly`: which answer a call gets, and what
comes, changes, stays and goes, from the call and the state before it, with the constants written out.

## Where the code does something other than it says

* `update_permission` with type `multi_login` compares the loaded user's id with the id it was loaded by. So the
  branch for other users is dead, and the target's flag becomes the negation of the *requesting* user's flag
  (user_service.py:173-190). `Sessions.MultiLoginSwitchesIff` says when the target's flag really switches.
* `reset_password` deletes three bare prefixes as if they were keys. Two of them never are keys, so no session ends
  (user_service.py:218-224): `Sessions.ResetPasswordEndsNothing`.
* Deleting by the prefix of user 1 also hits user 12: `Sessions.UserOneEndsTwelve`, and the exact set in
  `Sessions.UpdatePasswordEnds`.
* Revoking a session leaves its refresh token, and that opens a new session for the same holder, with single login
  as well: `Sessions.RevokeLeavesRefresh`, `Sessions.EndsRefreshExactly`.
* Completing a binding does not ask whether the user still exists. An account bound to a removed user can never log
  in or be bound again: `OAuth2.RunDanglesIff`, `OAuth2.DanglingForever`, with an input in `OAuth2.LateBindingDangles`.
* Binding refuses a second account of the same source, but a login that finds the user by email binds it:
  `OAuth2.StepKeepsOneIff`, with an input in `OAuth2.SecondAccountByEmail`.
* A right but expired password is neither a failure nor a success. The bound on guesses covers all evaluations
  if and only if the password is not expired: `Lockout.AllEvaluationsBoundedIff`.
* A main object with id 0 is keyed by its address, and its own children are not found: `NestedRecords.RootExactIff`, with an input in `NestedRecords.ZeroUserLosesRole`.
* Relations of one class that share a field key, such as `User-m2m-Role:x` and `User-m2m-Menu:x`, are all accepted,
  but a record shows only the last of them. `NestedRecords.SharedKeyExactIff` says when the earlier field is right all
  the same, `NestedRecords.TwoUnderOneNameLosesRole` gives a row at which it is not. The other theorems about nested
  records speak of each field that no later relation of its class overwrites.
* `recursive_to_tree` drops orphans, `traversal_to_tree` makes them roots; rows on a parent cycle are in neither
  forest: `BuildTree.SameForestIff`, `BuildTree.ForestIsPermutation`.
* A database error in `sync` drops the name that was being saved, against its comment about retrying failures; and
  a reload inside the drain saves the popped entry with the counters it has just read, so that a one-off task may
  run again: `Scheduler.DatabaseScheduler.Sync`, `Scheduler.DatabaseScheduler.SaveNext`.
* `schedule_changed` compares a time in whole seconds with one that has fractions, so an edit in the same second as
  the last check is never noticed: `Scheduler.EditNoticedIff`.
* A snowflake generator still issues ids after its node was released, and a holder whose lease lapsed goes on:
  `SnowflakeLease.GenerateAfterShutdownDuplicates`, `SnowflakeLease.LapsedLeaseDuplicates`.
* A seed script that inserts no user is committed by every worker: `Startup.SeedsAtMostOnceIff`.
* A `beta` bump of a development release of something later than the first beta goes back:
  `VersionBump.BumpIsNewerIff`. A `beta` bump of an alpha first keeps its release number and then raises it after
  all, because the second `if` is not an `elif` (version_bump.py:80-86), so it passes over the beta of its own
  release: `VersionBump.BetaIsNextIff`.

## Model

| member | source | states |
|---|---|---|
| Bits.OrBits | backend/utils/snowflake.py:208-212 | `\|` on unbounded integers, negative ones included, sets exactly the bits that are set in an operand |
| Bits.AndBits | backend/utils/snowflake.py:224-226 | `&` sets exactly the bits that are set in both |
| Bits.OrIsSum | backend/utils/snowflake.py:208-212 | or-ing a value below 2^n into a value shifted by n adds it |
| Bits.MaskIsRemainder | backend/utils/snowflake.py:224-226 | masking with n ones is the remainder by 2^n, also for negative values |
| SnowflakeId.PackIsSum | backend/utils/snowflake.py:207-213 | the or of the four shifted fields is their sum, for every timestamp |
| SnowflakeId.ParseIsDivision | backend/utils/snowflake.py:215-226 | parsing is division with remainder, for every integer |
| SnowflakeId.ParsePack | backend/utils/snowflake.py:215-226 | parsing a generated id gives back exactly its timestamp, datacenter, worker and sequence |
| SnowflakeId.PackParse | backend/utils/snowflake.py:215-226 | repacking the parsed fields of any integer gives that integer |
| SnowflakeId.FitsIn63Bits | backend/utils/snowflake.py:207-213 | the id is in 0..2^63-1 if and only if the timestamp is in the 2^41 ms from the epoch on |
| SnowflakeId.PackInjective | backend/utils/snowflake.py:207-213 | different fields give different ids |
| SnowflakeId.PackMonotone | backend/utils/snowflake.py:207-213 | on one node ids are ordered like timestamp and sequence |
| Snowflake.SnowflakeGenerator.Init | backend/utils/snowflake.py:125-161 | succeeds if and only if both settings or neither are given and the slot is in range, and which slot is taken |
| Snowflake.SnowflakeGenerator.TillNextMs | backend/utils/snowflake.py:172-178 | returns the first reading after the last timestamp, if the clock ever gets there |
| Snowflake.SnowflakeGenerator.Generate | backend/utils/snowflake.py:180-213 | one call is one step of the generator's specification, for any clock: rollback, tolerance, wrap, wait |
| Snowflake.IncrementWraps | backend/utils/snowflake.py:199-201 | the masked increment is 0 exactly after 4095 ids of a millisecond |
| Snowflake.NotReady | backend/utils/snowflake.py:182-185 | a generator without a slot refuses every call, and one that waits goes on waiting |
| Snowflake.AnswersExactly | backend/utils/snowflake.py:186-205 | a call is refused if and only if the clock is more than ten seconds behind, with that difference; it issues if and only if it is not and the millisecond has room left or a later reading comes; otherwise it waits |
| Snowflake.IssuesAt | backend/utils/snowflake.py:186-205 | the id carries the last millisecond and the next sequence when there is room, and otherwise the first later reading and sequence 0 |
| Snowflake.StepAdvances | backend/utils/snowflake.py:180-213 | a call issues an id later than all before it, with a timestamp the clock showed, or leaves the position alone |
| Snowflake.IdsStrictlyIncrease | backend/utils/snowflake.py:180-213 | over any calls and any clock, rollbacks and rejected calls included, successive ids strictly increase |
| Snowflake.SharedMillisecond | backend/utils/snowflake.py:197-203 | at most 4096 ids carry one timestamp |
| Snowflake.MillisecondCapacity | backend/utils/snowflake.py:197-205 | N ids span at least N / 4096 distinct timestamps |
| SnowflakeLease.NodeRegistry.SetNxEx | backend/utils/snowflake.py:74-77 | takes the key with its time to live if and only if it was free |
| SnowflakeLease.NodeRegistry.ScanNodes | backend/utils/snowflake.py:55-64 | the listing is a run of the cluster, with any steps of other nodes in it, and the node remembers what it listed |
| SnowflakeLease.NodeRegistry.TrySlot | backend/utils/snowflake.py:69-70 | one round of the search is the node's next step in the cluster: the slot is held, or the search goes on |
| SnowflakeLease.NodeRegistry.AcquireNodeId | backend/utils/snowflake.py:53-72 | with any steps of other nodes and of the clock between its own commands, the call is a run of the cluster; it returns the slot that the node then holds, or raises when the search has passed all 1024 slots |
| SnowflakeLease.NodeRegistry.Heartbeat | backend/utils/snowflake.py:84-92 | extends the slot's key if there still is one, as the cluster's heartbeat step |
| SnowflakeLease.NodeRegistry.Release | backend/utils/snowflake.py:105-107 | deletes the slot's key, whoever owns it by now, as the cluster's shutdown step |
| SnowflakeLease.ExecAfter | backend/utils/snowflake.py:53-107 | what these methods do to a reachable cluster gives a reachable cluster, so all that follows holds of them |
| SnowflakeLease.KeyBegins | backend/utils/snowflake.py:66-77 | a key comes exactly by a claim of a slot that the node's scan did not list, owned by that node, for sixty seconds |
| SnowflakeLease.KeyEnds | backend/utils/snowflake.py:100-107 | a key goes exactly when its time is over or a holder of its slot shuts down |
| SnowflakeLease.KeyStays | backend/utils/snowflake.py:84-92 | a key that stays keeps its owner, and only a heartbeat of a holder of its slot gives it sixty more seconds |
| SnowflakeLease.BeatKeepsKeys | backend/utils/snowflake.py:89-89 | a heartbeat neither brings a key back nor takes one away |
| SnowflakeLease.ComesBackByClaim | backend/utils/snowflake.py:74-92 | over every run a key that was not there, lapsed ones included, is there again only by its owner's own claim |
| SnowflakeLease.EveryKeyWasClaimed | backend/utils/snowflake.py:74-77 | every key of a reachable cluster was registered by its owner |
| SnowflakeLease.ScanMoves | backend/utils/snowflake.py:55-64 | the scan notes each slot it finds taken, and nothing else |
| SnowflakeLease.ClaimMoves | backend/utils/snowflake.py:66-70 | a round of the search holds the slot exactly when the scan did not list it and its key is free, and goes on otherwise |
| SnowflakeLease.HolderMoves | backend/utils/snowflake.py:79-107 | a holder keeps its slot until it shuts down or dies |
| SnowflakeLease.LogExactly | backend/utils/snowflake.py:180-213 | the cluster's ids are exactly what generators of holders and stopped nodes issue |
| SnowflakeLease.LeasesStep | backend/utils/snowflake.py:74-94 | while heartbeats land in time, every holder's key is its own and not over |
| SnowflakeLease.LeaseExclusion | backend/utils/snowflake.py:53-107 | in every interleaving with timely heartbeats no two nodes hold the same slot, and every held slot is in range |
| SnowflakeLease.AcquiresOnlyByRegistering | backend/utils/snowflake.py:66-77 | a node begins to hold only by its own `SET NX` of a free slot in range |
| SnowflakeLease.SearchInvariant | backend/utils/snowflake.py:53-72 | at every moment of a search, every slot passed over so far was seen taken during that search |
| SnowflakeLease.ExhaustedSawEverySlot | backend/utils/snowflake.py:66-72 | the search raises only if each of the 1024 slots was seen taken during that call |
| SnowflakeLease.LegalInv | backend/utils/snowflake.py:53-107 | the cluster's invariant: each slot's ids were issued in order, by holders one after the other |
| SnowflakeLease.ClusterIdsDistinct | backend/utils/snowflake.py:53-213 | in every interleaving all ids ever issued are pairwise distinct, if no lease lapses, only holders generate, and a slot's next holder starts at a later timestamp |
| SnowflakeLease.LapsedLeaseDuplicates | backend/utils/snowflake.py:84-92 | without the first hypothesis there is a run with a duplicate |
| SnowflakeLease.GenerateAfterShutdownDuplicates | backend/utils/snowflake.py:163-183 | without the second hypothesis there is a run with a duplicate |
| SnowflakeLease.ReusedSlotDuplicates | backend/utils/snowflake.py:113-118 | without the third hypothesis there is a run with a duplicate |
| RelationText.RelationRead | backend/utils/serializers.py:122-138 | a relation is read whatever the case of its class names and the spaces around it and its field name |
| RelationText.RelationReadIff | backend/utils/serializers.py:122-138 | a text is a relation if and only if it has three parts and the second is one of the four kinds; which kind it is |
| RelationPlans.PlanKinds | backend/utils/serializers.py:135-135 | the kind of a relation is that of the last one declared between its classes |
| RelationPlans.PlacesStay | backend/utils/serializers.py:135-135 | a relation declared again keeps its place, a new one comes last |
| RelationPlans.PlanParents | backend/utils/serializers.py:136-136 | the parent of a class is the source of the last relation into it |
| RelationPlans.NamedKey | backend/utils/serializers.py:109-138 | a field is called by the last name given between the classes |
| RelationPlans.UnnamedKey | backend/utils/serializers.py:109-111 | without a name it is the target class, with an s for the two kinds to many |
| Serializers.ParseRelationships | backend/utils/serializers.py:113-140 | the graph, the reverse map and the custom names of the texts that are relations, later entries winning, the other texts skipped |
| Serializers.FindColumns | backend/utils/serializers.py:182-195 | the first column in which each class occurs |
| NestedRecords.ColumnsExactly | backend/utils/serializers.py:182-195 | that column is where the class is seen first, row by row and from left to right |
| Serializers.GetUniqueObjects | backend/utils/serializers.py:151-160 | the first object of each id, in order, without those that have none |
| FlatRecords.UniqueExactly | backend/utils/serializers.py:151-160 | what is kept is the first object of each id, in order, and no id is lost |
| Serializers.BuildHierarchy | backend/utils/serializers.py:284-308 | what the loop files under each class and parent id: the children of that parent in the rows of one main object, in row order |
| Serializers.BuildRecursive | backend/utils/serializers.py:310-345 | ends whenever no record comes back below itself, by a rank over the records, and builds the specified records |
| Serializers.BuildFields | backend/utils/serializers.py:322-335 | the relation fields of one object: the list, or its first element or nothing |
| Serializers.BuildEndsIff | backend/utils/serializers.py:310-327 | the recursion below an object is bounded if and only if no record below it comes back below itself |
| Serializers.AcyclicRelationsEnd | backend/utils/serializers.py:310-327 | relations without a cycle are enough for that, whatever the rows hold |
| Serializers.GroupByClass | backend/utils/serializers.py:201-217 | the joined objects of one main object by class, in row order |
| Serializers.CollectMain | backend/utils/serializers.py:198-210 | the keys of the main objects, each with the object of the first row that has it |
| NestedRecords.FirstMainSeen | backend/utils/serializers.py:198-210 | that row has the key, and no row before it does |
| Serializers.Ascending | backend/utils/serializers.py:361-361 | each key once, ascending |
| Serializers.BuildFlat | backend/utils/serializers.py:238-278 | the flat fields: unique objects of every other class |
| FlatRecords.FlatIsExact | backend/utils/serializers.py:238-278 | there is a field for exactly the other classes of which a row carries an object; it shows exactly those with an id, each once, as its first object, in order; a single one is shown bare |
| Serializers.SelectJoinSerialize | backend/utils/serializers.py:162-376 | whenever the recursion ends: one record per distinct main id, ascending, from the first row with that id; a single record is returned bare; nothing for no rows or no first main object |
| NestedRecords.PlanEdges | backend/utils/serializers.py:118-140 | the graph has exactly the declared edges, and with one source per target the reverse map agrees with it |
| NestedRecords.KidsExact | backend/utils/serializers.py:284-312 | the children found under a parent are exactly those that a row of the main object carries with it, each once, in first-row order |
| NestedRecords.NestedIsExact | backend/utils/serializers.py:310-345 | at any depth of any record every relation field whose key no later relation of the class has is exact in that sense, as a list for the kinds to many, and as its first element or nothing for the others, for one source per target and one column per class |
| NestedRecords.RootIsExact | backend/utils/serializers.py:347-357 | so are, under the same condition on the key, the relation fields of a main object whose id is not 0 |
| NestedRecords.RootExactIff | backend/utils/serializers.py:207-207 | under the same condition, for a main object with id v they are exact if and only if v is not 0 or no row carries a child |
| NestedRecords.ZeroUserLosesRole | backend/utils/serializers.py:207-207 | one row with user 0 and a role meets the conditions, and the role is missing |
| NestedRecords.SharedKeyShowsLast | backend/utils/serializers.py:348-355 | of relations that share a field key the last one is shown |
| NestedRecords.SharedKeyExactIff | backend/utils/serializers.py:322-355 | of two relations that share a field key the earlier one's field is exact if and only if no row carries a child of either and both are single or both lists |
| NestedRecords.TwoUnderOneNameLosesRole | backend/utils/serializers.py:135-138 | one row with a user, a role and a menu under one field name meets the conditions, and the role is missing |
| NestedRecords.TwoUnderOneNameTexts | backend/utils/serializers.py:122-138 | the two relation texts of that input are accepted and give both relations the name |
| NestedRecords.PlanTargetsDistinct | backend/utils/serializers.py:118-140 | two relations of one class in a plan always have different targets |
| NestedRecords.FalsyMainHasNoChildren | backend/utils/serializers.py:291-293 | a main object with id 0 or none gets no children, whatever the rows carry |
| BuildTree.ForestIsPermutation | backend/utils/build_tree.py:25-50 | for unique ids the traversal's forest holds every row exactly once if and only if the parent ids form no cycle |
| BuildTree.FlattenCounts | backend/utils/build_tree.py:53-68 | the forest grown from p holds a row once if p is above it and never otherwise |
| BuildTree.ForestRespectsParents | backend/utils/build_tree.py:35-48 | every child sits under the row its parent id names; roots have no parent id or an absent one |
| BuildTree.SameForestIff | backend/utils/build_tree.py:25-68 | the recursion from the null root ends, and makes the traversal's forest in the same order if and only if there is no orphan |
| BuildTree.RecursionEndsIff | backend/utils/build_tree.py:53-68 | the recursion from p ends if and only if p is on no parent cycle; cycles elsewhere do not matter |
| Digraph.DepthUnbounded | backend/utils/build_tree.py:62-64 | where a cycle can be reached, as from a parent cycle, there are call chains of every length |
| TreeSort.SortOrders | backend/utils/build_tree.py:20-21 | sorting orders the rows by key and only rearranges them |
| TreeSort.SortIsStable | backend/utils/build_tree.py:20-21 | rows with the same key keep their order |
| TreeSort.SiblingsStablySorted | backend/utils/build_tree.py:89-94 | at every level the siblings are the original siblings, stably sorted |
| TreeBuilders.GetTreeNodes | backend/utils/build_tree.py:10-22 | the rows, stably sorted if asked for |
| TreeBuilders.TraversalToTree | backend/utils/build_tree.py:25-50 | afterwards every node object holds exactly its children, and the result the roots, in row order |
| TreeBuilders.RecursiveToTree | backend/utils/build_tree.py:53-68 | hangs every node below p under its parent, in row order, and leaves all other node objects alone |
| TreeBuilders.ViewIsGrow | backend/utils/build_tree.py:25-68 | the linked node objects are the forest that the rows describe |
| TreeBuilders.TraversalTreeData | backend/utils/build_tree.py:71-97 | rows to heap: the node objects are the specified forest of the sorted rows |
| TreeBuilders.RecursiveTreeData | backend/utils/build_tree.py:71-97 | the same for the recursive builder, from any parent id that is on no cycle |
| RedisKeys.TextInjective | backend/common/security/jwt.py:90-99 | two keys are spelled alike only if they are the same key |
| RedisKeys.MatchesIsPrefix | backend/database/redis.py:77-77 | the prefix of a user matches exactly the keys of that key space whose user id starts with the same digits |
| RedisKeys.PrefixIsNoSessionKey | backend/app/admin/service/user_service.py:218-224 | a bare token prefix is the spelling of no key |
| RedisKeys.SessionPrefix | backend/app/admin/service/auth_service.py:218-218 | with the colon behind the id a prefix matches the sessions of that user only |
| RedisKeys.RedisCli.DeletePrefix | backend/database/redis.py:65-86 | for every batch size and scan order, exactly the matching keys that are not excluded are deleted |
| RedisKeys.RedisCli.Scan | backend/database/redis.py:77-77 | yields every matching key |
| RedisKeys.RedisCli.GetSessions | backend/database/redis.py:88-96 | the keys whose text begins with the token prefix, the id and a colon are exactly that user's live sessions, not those of ids with more digits |
| SessionService.Backend.CreateAccessToken | backend/common/security/jwt.py:67-104 | without multi-login the user's tokens go first; the cached user goes; the token and its extra information are stored |
| SessionService.Backend.CreateRefreshToken | backend/common/security/jwt.py:107-131 | the same for the refresh token |
| SessionService.Backend.CreateNewToken | backend/common/security/jwt.py:134-167 | only the stored refresh token is taken; it and its access token go and a new session opens |
| SessionService.Backend.RevokeToken | backend/common/security/jwt.py:170-179 | the access token and its extra information go |
| SessionService.Backend.JwtUser | backend/common/security/jwt.py:196-239 | the cached user, or the current view if it is let through, which is then cached |
| SessionService.Backend.JwtAuthentication | backend/common/security/jwt.py:256-272 | the stored token must be this one; then the user |
| SessionService.Backend.LoginUser | backend/app/admin/service/auth_service.py:85-186 | the step of the state machine: login time, then both tokens |
| SessionService.Backend.LoginSwagger | backend/app/admin/service/auth_service.py:67-83 | login time, then an access token only |
| SessionService.Backend.RefreshTokens | backend/app/admin/service/auth_service.py:200-239 | refused for unknown or disabled users and, without multi-login, while a session lives; otherwise a new token |
| SessionService.Backend.LogoutSession | backend/app/admin/service/auth_service.py:242-264 | the tokens of the session go, the refresh token only with its cookie |
| SessionService.Backend.LoginOAuth2 | backend/plugin/oauth2/service/oauth2_service.py:88-107 | tokens first, then the login time, whatever the user's status |
| SessionService.Backend.FindFreeName | backend/plugin/oauth2/service/oauth2_service.py:71-72 | adds random suffixes until no user has the name |
| SessionService.Backend.AddByOAuth2 | backend/app/admin/crud/crud_user.py:118-139 | an enabled staff user with a free name and the first role; refused if there is no role |
| OAuth2.OAuth2Service.Login | backend/plugin/oauth2/service/oauth2_service.py:56-107 | the bound user, or else the one with the email, or else a new one; the last two get the account bound; then a session. A bound user who is gone raises |
| OAuth2.OAuth2Service.BindingWithOAuth2 | backend/plugin/oauth2/service/user_social_service.py:29-53 | refused if the user has an account of that source or somebody has this account, whether or not the user still exists |
| OAuth2.OAuth2Service.Unbinding | backend/plugin/oauth2/service/user_social_service.py:55-68 | refused if the user has no account of that source, otherwise it is free |
| OAuth2.OAuth2Service.DeleteUser | backend/app/admin/crud/crud_user.py:276-295 | the user's bindings go with the row |
| OAuth2.LoginExactly | backend/plugin/oauth2/service/oauth2_service.py:56-107 | a login opens a session of the bound user, else of the one with the email, else of a new one, and the account is then bound to it; it is refused only if that user is gone or no row can be made |
| OAuth2.BindExactly | backend/plugin/oauth2/service/user_social_service.py:46-53 | binding is done exactly for a free account and a user with none of its source |
| OAuth2.UnbindExactly | backend/plugin/oauth2/service/user_social_service.py:65-68 | unbinding frees the accounts of that source of that user, and no others |
| OAuth2.BaseRuns | backend/plugin/oauth2/service/oauth2_service.py:56-107 | what social logins do to users, roles and sessions is a run of module Sessions, so all its theorems hold with them |
| OAuth2.WorldInv | backend/plugin/oauth2/service/oauth2_service.py:56-107 | in particular cache coherence, single login and well-formed sessions |
| OAuth2.UnbindsExactly | backend/plugin/oauth2/service/user_social_service.py:55-68 | a binding goes exactly by unbinding its source or removing its user, and is never changed to another user |
| OAuth2.AccountKeepsItsUser | backend/plugin/oauth2/service/oauth2_service.py:56-61 | over any run without these an account leads to the same user |
| OAuth2.DanglingForever | backend/plugin/oauth2/service/oauth2_service.py:56-61 | an account bound to a removed user is refused by every later login and binding, for ever |
| OAuth2.RunDanglesIff | backend/plugin/oauth2/service/user_social_service.py:46-53 | there is such an account after a run if and only if in that run a binding was completed after its user was removed |
| OAuth2.LateBindingDangles | backend/plugin/oauth2/service/user_social_service.py:46-53 | removing a user and then completing a binding of an unbound account leads there |
| OAuth2.StepKeepsOneIff | backend/plugin/oauth2/service/oauth2_service.py:63-86 | a step keeps one account per user and source if and only if it is no login by email of a user who has one |
| OAuth2.RunKeepsOne | backend/plugin/oauth2/service/user_social_service.py:46-53 | so in every run without such a login no user has two accounts of one source |
| OAuth2.SecondAccountByEmail | backend/plugin/oauth2/service/oauth2_service.py:63-86 | two logins with accounts of one source and one email give the user both |
| SessionService.Backend.CreateUserRow | backend/app/admin/service/user_service.py:89-107 | refused for a taken name, a missing password or unknown roles, otherwise the row and its role links |
| SessionService.Backend.UpdateUserRow | backend/app/admin/service/user_service.py:110-134 | refused for another user's name or unknown roles; row and role links replaced, cached user gone |
| SessionService.Backend.UpdateUserPermission | backend/app/admin/service/user_service.py:137-195 | the flag that changes, from whose flag, and which tokens go |
| SessionService.Backend.ResetUserPassword | backend/app/admin/service/user_service.py:198-225 | refused for an unacceptable password; three single deletions take away the cached user and nothing else |
| SessionService.Backend.UpdateUserProfile | backend/app/admin/service/user_service.py:228-280 | nickname, avatar and, after its captcha, email: the row, then the cached user |
| SessionService.Backend.UpdateUserPassword | backend/app/admin/service/user_service.py:283-314 | all keys of the three prefixes go |
| SessionService.Backend.DeleteUserRow | backend/app/admin/service/user_service.py:317-335 | the row and its links go, then the tokens, and not the cached user |
| SessionService.Backend.Clear | backend/app/admin/utils/cache.py:15-23 | the cached entries of these users go |
| SessionService.Backend.ClearByRoleId | backend/app/admin/utils/cache.py:25-37 | the cached entries of all users linked to one of the roles go |
| SessionService.Backend.CreateRoleRow | backend/app/admin/service/role_service.py:58-70 | refused for a taken name, otherwise a new role row |
| SessionService.Backend.UpdateRoleRow | backend/app/admin/service/role_service.py:73-90 | refused for another role's name; the row, then the cached users of the role |
| SessionService.Backend.DeleteRoleRows | backend/app/admin/service/role_service.py:93-104 | the rows, then the cached users of the roles |
| Sessions.StepKeepsInv | backend/common/security/jwt.py:67-272 | every one of the nineteen steps keeps cache coherence, single login and well-formed sessions |
| Sessions.ReachableInv | backend/common/security/jwt.py:67-272 | so every reachable state has them, whatever expires when |
| Sessions.AuthenticationIsCurrent | backend/common/security/jwt.py:196-272 | in every reachable state a successful authentication means that the user exists, is enabled, has not all its roles disabled, and that the view handed out is the current one |
| Sessions.AtMostOneSession | backend/common/security/jwt.py:84-94 | in every reachable state a user without multi-login has at most one live access token |
| Sessions.EndsExactly | backend/common/security/jwt.py:84-179 | which step kinds, for which users, end a live session: exactly the listed ones |
| Sessions.EndedTokenNeverAccepted | backend/app/admin/service/auth_service.py:241-264 | after any of them (logout, revocation, refresh, password change, a new single login, removal, expiry) the session's access token is never accepted again |
| Sessions.EndsRefreshExactly | backend/common/security/jwt.py:107-179 | which step kinds, for which users, end a live refresh token: exactly the listed ones, among which revocation, the multi-login switch and a logout without the cookie are not |
| Sessions.EndedRefreshNeverAccepted | backend/common/security/jwt.py:152-157 | after any of them no refresh token of that session is ever accepted again |
| Sessions.RevokeLeavesRefresh | backend/common/security/jwt.py:170-179 | after the revocation of a live session its stored refresh token opens a new session if and only if it has not expired and the user is enabled |
| Sessions.RefreshAcceptedOnce | backend/common/security/jwt.py:152-157 | over every run each refresh token is accepted at most once |
| SessionLaws.AccessBeginsExactly | backend/app/admin/service/auth_service.py:67-239 | which calls open a session, from their arguments and the state before: a login of an enabled user with the right password, a social sign-on, a refresh with the stored, unexpired token of an enabled user who may have several sessions or has none |
| SessionLaws.RefreshBeginsExactly | backend/app/admin/service/auth_service.py:85-239 | the same for refresh tokens, which a documentation login does not give |
| SessionLaws.LoginAnswers | backend/app/admin/service/auth_service.py:67-186 | a login answers with tokens for two hours and a day that are then the stored ones, or is refused and changes nothing |
| SessionLaws.OAuth2Answers | backend/plugin/oauth2/service/oauth2_service.py:69-107 | so does a social sign-on, for an existing user or a new one with a free name |
| SessionLaws.RefreshAnswers | backend/app/admin/service/auth_service.py:200-239 | and a refresh |
| SessionLaws.AcceptedExactly | backend/common/security/jwt.py:196-272 | in every reachable state a token is accepted if and only if it is the stored one, not over, and its user is enabled and, having roles, has an enabled one; the view shows the row and the roles as they are |
| SessionLaws.FreeNameExactly | backend/plugin/oauth2/service/oauth2_service.py:71-72 | the free name is the one with the fewest suffixes |
| SessionLaws.AnswersExactly | backend/app/admin/service/user_service.py:89-335 | which of the other calls are done; a refused one changes nothing |
| SessionLaws.UserAppearsExactly | backend/app/admin/service/user_service.py:89-107 | a user row appears by an allowed creation or a new social account only, and which row |
| SessionLaws.UserLeavesExactly | backend/app/admin/service/user_service.py:317-335 | and goes by its removal only |
| SessionLaws.UserRowExactly | backend/app/admin/service/user_service.py:110-195 | the name changes by an allowed update only, each flag by its own kind of switch of another user only, multi-login to the negation of the requester's |
| SessionLaws.ProfileExactly | backend/app/admin/service/user_service.py:110-314 | which calls write the other columns |
| SessionLaws.LinksExactly | backend/app/admin/service/user_service.py:110-134 | a creation links the roles it names, an update replaces all links of the user, a removal takes them, and nothing else changes any |
| SessionLaws.RolesExactly | backend/app/admin/service/role_service.py:58-104 | when roles appear, change and go |
| SessionLaws.ClearsExactly | backend/app/admin/utils/cache.py:15-37 | which calls take the cached entry of a user away, and no others |
| SessionLaws.CachesExactly | backend/common/security/jwt.py:218-239 | an entry comes only when the stored token of a user who may enter is checked |
| SessionLaws.ExtraBeginsExactly | backend/common/security/jwt.py:96-102 | the extra information comes with the access token |
| SessionLaws.ExtraEndsExactly | backend/common/security/jwt.py:170-179 | and goes by logout, revocation or expiry only |
| SessionLaws.ValuesStay | backend/common/security/jwt.py:67-131 | no stored token or cached user is ever replaced, in any step, while it stays |
| Sessions.UpdatePasswordEnds | backend/app/admin/service/user_service.py:307-313 | a password change ends exactly the sessions of the users whose id starts with the same digits |
| Sessions.UserOneEndsTwelve | backend/app/admin/service/user_service.py:307-313 | the password change of user 1 ends the sessions of user 12 and not those of user 21 |
| Sessions.ResetPasswordEndsNothing | backend/app/admin/service/user_service.py:218-224 | an administrator's reset ends no session |
| Sessions.MultiLoginSwitchesIff | backend/app/admin/service/user_service.py:173-175 | the target's flag switches if and only if it equals the requester's |
| Sessions.NamesStayUnique | backend/app/admin/service/user_service.py:97-123 | no two users and no two roles ever share a name |
| Lockout.PasswordSecurity.CheckStatus | backend/app/admin/service/user_password_history_service.py:20-41 | disabled, locked until later, or lock and counter taken away together |
| Lockout.PasswordSecurity.HandleLoginFailure | backend/app/admin/service/user_password_history_service.py:44-65 | counts, and locks at the threshold; 0 switches it off |
| Lockout.PasswordSecurity.HandleLoginSuccess | backend/app/admin/service/user_password_history_service.py:96-104 | no counter and no lock are left |
| Lockout.PasswordSecurity.UserVerify | backend/app/admin/service/auth_service.py:53-65 | the attempt as a whole, with its verdict |
| Lockout.VerdictExactly | backend/app/admin/service/auth_service.py:53-65 | which verdict an attempt gets, for any keys and any threshold: disabled, locked, verified, expired, wrong, or wrong and locking |
| Lockout.KeysExactly | backend/app/admin/service/user_password_history_service.py:20-104 | and what it leaves of the counter and the lock |
| Lockout.LocksAtThreshold | backend/app/admin/service/user_password_history_service.py:57-65 | over every history a wrong password locks if and only if it is number T since the last success or unlocking |
| Lockout.RunGuarded | backend/app/admin/service/user_password_history_service.py:57-65 | over every run the counter never exceeds the threshold, and there is a lock exactly when it has reached it |
| Lockout.LockLength | backend/app/admin/service/user_password_history_service.py:63-64 | cut to whole seconds, a lock is less than one second short |
| Lockout.EvaluationsPerUnlocking | backend/app/admin/service/user_password_history_service.py:40-65 | wrong passwords compared = change of the counter + threshold times unlockings |
| Lockout.UnlockingsApart | backend/app/admin/service/user_password_history_service.py:31-41 | two unlockings are at least the lock length less one second apart |
| Lockout.WrongPasswordsBounded | backend/app/admin/service/auth_service.py:53-57 | in any L seconds of an account's history without a success at most T * (L / (K - 1) + 2) wrong passwords are compared |
| Lockout.AllEvaluationsBoundedIff | backend/app/admin/service/auth_service.py:55-63 | in any window of any history the bound covers every evaluation, if and only if the right password is not expired |
| Scheduler.EditNoticedIff | backend/app/task/utils/schedulers.py:383-396 | an edit is ever noticed if and only if the last check came before its whole second, and then by the next check only |
| Scheduler.DatabaseScheduler.ScheduleChanged | backend/app/task/utils/schedulers.py:383-396 | the answer, the time remembered, and the time published if there was none |
| Scheduler.DatabaseScheduler.Save | backend/app/task/utils/schedulers.py:144-161 | writes the counters of one row, and `enabled` if told to, skips a missing row, or fails and writes nothing; the change is published unless the entry carries the `no_changes` mark |
| Scheduler.DatabaseScheduler.IsDue | backend/app/task/utils/schedulers.py:111-134 | disabled: in 5 seconds; before the start: in so many seconds that it will have begun, less than one second ago; a one-off task that has run is disabled, counts anew and is saved and published; otherwise the schedule decides |
| Scheduler.DatabaseScheduler.GetAllTaskSchedulers | backend/app/task/utils/schedulers.py:398-408 | the enabled rows as entries, those with an unreadable schedule or arguments disabled in memory, or a failure |
| Scheduler.DatabaseScheduler.Schedule | backend/app/task/utils/schedulers.py:410-436 | ends, nests at most one `sync` per dirty name, dirties nothing; a reload with none nested saves every dirty entry first |
| Scheduler.DatabaseScheduler.ReloadAll | backend/app/task/utils/schedulers.py:422-429 | saves, reads the enabled rows, and makes the heap invalid unless it is the first time |
| Scheduler.DatabaseScheduler.SaveNext | backend/app/task/utils/schedulers.py:332-340 | without a reload the popped entry's counters are saved; with one its row keeps the old counters |
| Scheduler.DatabaseScheduler.Sync | backend/app/task/utils/schedulers.py:326-347 | ends, nests at most once per dirty name, dirties nothing, writes only counters of dirty names; with no reload and no failure exactly the names missing from the schedule stay dirty and the others are saved; a failure loses one name |
| Scheduler.DatabaseScheduler.Drain | backend/app/task/utils/schedulers.py:330-345 | the loop ends, and when nothing was reloaded it leaves each name saved, missing, lost or still to do |
| Scheduler.DatabaseScheduler.Round | backend/app/task/utils/schedulers.py:331-340 | one turn of the loop keeps the account of saved, missing, lost and remaining names |
| Scheduler.DatabaseScheduler.Reserve | backend/app/task/utils/schedulers.py:136-140 | one more run of the scheduled entry and its name dirty; a run on an entry from before a reload is not counted in the schedule |
| Scheduler.EntryExactly | backend/app/task/utils/schedulers.py:111-140 | a run sets the last run and counts when the task was enabled, begun and no one-off that had run; the end of a one-off task disables it at no runs; nothing else changes an entry |
| Scheduler.ReloadExactly | backend/app/task/utils/schedulers.py:43-100 | after a reload the entries are the enabled rows; the last run of a task that never ran is a year before its start, or now |
| Scheduler.RowExactly | backend/app/task/utils/schedulers.py:144-161 | saving writes the last run and the runs of a dirty name, the end of a one-off task `enabled` as well, and nothing else is written |
| Scheduler.DirtyExactly | backend/app/task/utils/schedulers.py:136-140 | a name is dirty from a run on until it is saved |
| Scheduler.ChangeExactly | backend/app/task/utils/schedulers.py:383-396 | a check reports a change if and only if there was a check before and the published time is later than it; what it remembers and publishes |
| Scheduler.NoRunLost | backend/app/task/utils/schedulers.py:126-161 | after any run of counted runs, ends of one-off tasks, reloads and saves, without a failure or a nested reload, saving leaves every row with all runs since its task last ended, or with the runs it had and all since |
| Scheduler.OthersNeverRetire | backend/app/task/utils/schedulers.py:126-132 | a task that is no one-off task never ends like that, so its row has the runs it had and all since |
| Scheduler.OneOffRunsOnce | backend/app/task/utils/schedulers.py:126-132 | over any such run a one-off task runs at most once, and not at all if its row shows a run |
| Scheduler.ReloadForgetsNothing | backend/app/task/utils/schedulers.py:422-425 | after any such run a reload gives back every entry whose row is still there and enabled |
| OperaLog.RunConserves | backend/middleware/opera_log_middleware.py:226-245 | in every interleaving the records put are the flushed batches, then the batch in hand, then the queue, in order; no batch is empty or over the limit; the unfinished count is what is queued, in hand or not yet marked |
| OperaLog.MarkingNeverFails | backend/middleware/opera_log_middleware.py:243-245 | `task_done` is never called too often |
| OperaLog.JoinedMeansFlushed | backend/middleware/opera_log_middleware.py:243-245 | no unfinished task is left if and only if every record put has been flushed and nothing is being collected or marked |
| OperaLog.FlushedForever | backend/middleware/opera_log_middleware.py:235-245 | what was flushed is never flushed again or taken back |
| OperaLog.HistoryExactly | backend/middleware/opera_log_middleware.py:118-245 | a record is put when the queue has room, a batch is recorded with what became of its transaction, and one task is done at a time |
| OperaLog.HandExactly | backend/common/queue.py:17-31 | the collector takes the first record while it has room and stops when it is full or out of time |
| OperaLog.FitsExactly | backend/middleware/opera_log_middleware.py:118-118 | as many of some records fit as the limit of the queue leaves room for |
| OperaLog.Drains | backend/middleware/opera_log_middleware.py:226-245 | with a positive batch size the consumer can always flush everything put so far |
| OperaLog.NothingFlushed | backend/common/queue.py:19-22 | with any other batch size nothing is ever flushed |
| OperaLog.CollectKeepsOrder | backend/common/queue.py:17-31 | a batch and what is left in the queue are what was queued and was put, in order |
| OperaLog.CollectFills | backend/common/queue.py:20-22 | a batch is never over the limit, and it is full whenever enough records wait and there is time for them |
| OperaLog.Middleware.PutAll | backend/middleware/opera_log_middleware.py:118-118 | exactly the first records that fit are put, as steps of the system |
| OperaLog.Middleware.BatchDequeue | backend/common/queue.py:8-31 | takes exactly the specified batch out of the queue, as a run of the system |
| OperaLog.Middleware.Consume | backend/middleware/opera_log_middleware.py:226-245 | one turn of the consumer hands exactly that batch to the database and marks it, whether the transaction commits or fails, as a run of the system |
| Startup.OneInside | backend/database/db.py:115-122 | no two workers have work left inside the lock |
| Startup.ReturnedSeesData | backend/database/db.py:106-125 | a worker that returns sees the tables and, if the script inserts a user, the seeded data |
| Startup.SeedsAtMostOnceIff | backend/database/seed.py:37-50 | in every interleaving in which no holder outlasts the lock, failures and deaths included, the seed commits at most once if and only if there is no script or it inserts a user |
| Startup.OutlastedLockSeedsTwice | backend/database/db.py:22-24 | a holder that outlasts the lock lets the seed commit twice |
| Startup.DataExactly | backend/database/seed.py:30-50 | tables come by creating them under the lock, a commit by running all statements, users by a commit of a script that inserts one or by signing up |
| Startup.LockExactly | backend/database/db.py:115-122 | the lock is taken for five minutes when nobody has it, and given back by its owner only and in time |
| Startup.PhaseExactly | backend/database/db.py:106-125 | what a worker does next, from the script, the users and its lock; it returns only with its own lock in time |
| Startup.BeginsWaiting | backend/database/db.py:22-24 | a worker waits two minutes for the lock |
| Startup.Deployment.Meanwhile | backend/database/db.py:106-125 | any steps of the other workers leave a worker where it is, and tables, users and commits only grow |
| Startup.Deployment.TakeLock | backend/database/db.py:115-119 | whatever the others do while it waits, the lock is owned in the end, or the blocking timeout is over and the worker exits |
| Startup.Deployment.GiveLock | backend/database/db.py:115-125 | returns if and only if all went well and the lock was still owned, and gives no other worker's lock back |
| Startup.Deployment.NeedsSeed | backend/database/seed.py:23-46 | a seed is needed if and only if there is a script and no user |
| Startup.Deployment.ExecuteSqlFile | backend/database/seed.py:30-34 | with any steps of others between the statements, all commit together in one step, or none is visible |
| Startup.Deployment.CreateTables | backend/database/db.py:106-125 | with any steps of others between its own commands, the call is a run of the system, and if it returns its data is there |
| VersionBump.StrippedCmp | script/version_bump.py:224-224 | comparing releases without trailing zeros is comparing them number by number |
| VersionBump.BumpRelease | script/version_bump.py:28-38 | which of the three numbers changes |
| VersionBump.BumpVersion | script/version_bump.py:46-116 | the change dict, applied at once, gives the specified version |
| VersionBump.BumpIsNewerIff | script/version_bump.py:46-116 | any version, with epoch, post and local parts: a bump is strictly newer unless it is a beta bump of a development release of something later than the first beta, and then strictly older |
| VersionBump.PartsExactly | script/version_bump.py:46-116 | what becomes of every part of any version by each kind of bump |
| VersionBump.PatchIsNext | script/version_bump.py:59-64 | a patch bump gives the next final version |
| VersionBump.MinorIsNext | script/version_bump.py:52-57 | a minor bump gives the next final version whose third number is 0 |
| VersionBump.BetaIsNextIff | script/version_bump.py:74-90 | a beta bump gives the next beta if and only if it does not start from an alpha |
| VersionBump.DevIsNext | script/version_bump.py:66-72 | a dev bump counts on, or begins at 0 before the next minor version |
| VersionBump.EarlyStages | script/version_bump.py:220-224 | the order is that of PEP 440: development releases, alphas, betas, each kind by number |
| VersionBump.LateStages | script/version_bump.py:220-224 | then candidates, the release and its post-releases |
| VersionBump.ReleasesAscend | script/version_bump.py:220-224 | and then the next release of any of the three numbers, or of the next epoch |
| VersionBump.RunsIncrease | script/version_bump.py:220-224 | in any run of bumps from a plain version every later version is newer than every earlier one |
| VersionBump.TextRoundTrip | script/version_bump.py:116-116 | every version is read back from its text |
| VersionBump.Spelled | script/version_bump.py:116-116 | how a final version is written, and one that has every part |
| VersionBump.ReadWrittenIff | script/version_bump.py:119-156 | what `write_version` wrote `read_version` reads back if and only if there is no epoch, and otherwise it is an error |

## Left out

- SnowflakeLease.ClusterIdsDistinct: slots fixed by environment variables bypass Redis; only their range check is modelled.
- Snowflake.SnowflakeGenerator.Generate: the clock is a finite list of readings, and a call that uses it up is still waiting, holding its lock; interrupting such a call is not modelled.
- Serializers.ParseRelationships: spaces and letter case are those of ASCII.
- SnowflakeLease.NodeRegistry.AcquireNodeId: keys of the node space that do not name two numbers are skipped by the source and not modelled.
- Serializers.SelectJoinSerialize: an object is a class, an id, an address and opaque columns; building namedtuples, `return_as_dict` and a single row that is not a list are not modelled.
- Serializers.BuildRecursive: asks that no record comes back below itself, without which the source's recursion has no end.
- TreeBuilders.TraversalToTree: asks for unique ids, which the primary key gives; duplicate rows, and the Vben5 variant, are not modelled.
- RedisKeys.MatchesIsPrefix: a prefix is matched as plain text; the key prefixes of the settings contain no glob characters.
- Sessions.StepKeepsInv: a service call is one atomic step; races between two calls, and between a database transaction and its Redis commands, are not modelled. Expiry is the removal of any keys at any time.
- SessionService.Backend.LoginUser: passwords, captchas and JWT signatures are one flag or are taken as injective encodings; login logs, cookies and uploaded files are left out.
- SessionService.Backend.AddByOAuth2: the random suffixes are a list, and running out of it stands for looking on.
- OAuth2.OAuth2Service.Login: the redirect, its state in Redis and the provider's answer are left out; the user with the same email is a parameter.
- OAuth2.OAuth2Service.DeleteUser: deleting bindings by a column is taken to delete all that match; what the CRUD library makes of several at once is not part of this model.
- SessionService.Backend.CreateUserRow: inserting an empty list of role links, which some databases refuse, is taken to insert nothing.
- SessionService.Backend.JwtUser: user ids are not 0, which the join query takes for no id at all; the database gives out positive ids.
- SessionService.Backend.ResetUserPassword: the rules for a new password are one flag, and so is the captcha of an email change.
- Lockout.WrongPasswordsBounded: threshold and lock length do not change during a run, attempts on one account do not overlap, and time is absolute (no daylight saving).
- Scheduler.DatabaseScheduler.Sync: rows are keyed by their unique name; edits by others happen to the published time only, and Redis errors and Celery's tick, heap and crontab arithmetic are left out. All entries of one reload share one clock reading.
- Scheduler.DatabaseScheduler.GetAllTaskSchedulers: the coroutine that disables an unreadable entry in memory is taken to have run when the reload ends; `setup_schedule` and `update_from_dict`, which write the default entries, are left out.
- Scheduler.DatabaseScheduler.Save: the time of a change is published by a coroutine of its own, which is taken to have run when the save ends.
- Scheduler.NoRunLost: a run is reserved only right after `is_due` left it to the schedule, as Celery's beat does.
- OperaLog.Middleware.BatchDequeue: cancelling the consumer is not modelled; a collector that is cancelled by its timeout while it waits leaves the queue as it is.
- Startup.SeedsAtMostOnceIff: other processes may add users but not remove the last one.
- VersionBump.BumpVersion: `nightly` and `sync` bumps, and rewriting `pyproject.toml`.
- VersionBump.TextRoundTrip: reads versions of three numbers in normal form; the other spellings that packaging accepts are not modelled.
- HTTP routes, middleware wiring, request schemas, the command line, Docker, pagination, translation and plain CRUD have no property worth a proof here.
