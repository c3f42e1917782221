# A model of the user service

The user service keeps users in a table with unique emails and nicknames, puts a
Redis cache in front of it that holds every user under three keys, announces each
change as an event, and lists users through SQL that it builds from filters. This
project models that core in Dafny and proves what it keeps, and exactly when.

| file | what it holds |
|---|---|
| `Domain.dfy` | users, errors, the three lookup keys |
| `KeySpace.dfy` | the text of cache keys and why the three families never meet |
| `Database.dfy` | the users table, its statements, and the repository object |
| `Cache.dfy` | the caching decorator: as functions of a store, as objects over Redis, and what it keeps |
| `Events.dfy`, `EventHistory.dfy`, `Retelling.dfy` | the publisher; lifecycle and replay of the event log; what the log tells when events were lost |
| `Service.dfy` | the service: one step per request, runs of requests, and the service object |
| `Healing.dfy` | staleness over whole runs |
| `Transparency.dfy`, `ListTransparency.dfy` | the service over the cache against the service over the bare table |
| `Promises.dfy` | what each operation promises its caller, said of fields, rows, entries and events |
| `Requests.dfy`, `Overwrites.dfy` | who may be created, how patches compose; what an update stores when it read a cached copy |
| `Concurrent.dfy`, `Reach.dfy`, `Discipline.dfy` | many requests in flight, one statement or Redis command at a time, and exactly which interleavings endanger the cache |
| `Mishaps.dfy` | runs from an empty cache in which the danger comes true |
| `Interleavings.dfy`, `Timed.dfy`, `Sequential.dfy` | what holds in all interleavings; how old answers can be; the sequential decorator as a special case |
| `Ilike.dfy`, `Sql.dfy`, `Listing.dfy` | the list request from filters through SQL text down to rows |
| `Handlers.dfy` | list requests to both APIs |
| `Paging.dfy`, `Crawls.dfy` | asking for page after page, over one listing and over requests to both APIs |

Every operation that changes state is a method of a class (`UserRepository`, `Redis`,
`CacheDecorator`, `UserEventPublisher`, `UserService`) whose postcondition equates the
new state and the answer with a function of the old state. The theorems are about
those functions. Clocks, the bcrypt hash, fresh UUIDs and the success or failure of
each call to Redis, the database or the broker are parameters, so a statement about
all inputs is a statement about all faults. A failed pipeline may lose any subset of
its commands. The time to live is positive, as the configuration default is.

JSON leaves out the password, so a cached user is the row with its password erased,
and statements that compare cache and table do so up to the password.

## Results that correct an expectation

* An update answered from the cache writes an empty password hash back. `UpdateKeepsPasswordExactly`
  says when the hash survives, `UpdateAfterCreateErasesPassword` that it never does within a ttl of creation,
  and `PasswordIsLost` is a run of two successful requests on an empty system that loses it.
* An update answered from a stale copy writes the stale fields back, so that staleness which would have
  expired becomes permanent; `UpdatePatchesExactly` says when it does not, and `UpdateIsUndone` is a run of
  three requests with one failed invalidation in which a first name comes back for good.
* The repository's readme promises that invalidation keeps the cache consistent. With one request at a time
  that holds exactly as long as no failed invalidation loses a command that matters
  (`FailedPurgeOfUpdateExactly`, `FailedPurgeOfDeleteExactly`). With many in flight a step endangers the cache
  exactly when it either writes to the table what makes another request's reading unfit (the row that a fill
  is about to set changes, or the row that a writer holds gets another email or nickname) or drops the last
  pending deletion of a stale entry (`HarmExactly`, `OrderlyExactly`). The code prevents neither: from an
  empty cache and without any fault, a lookup overtaken by a write (`FillOvertaken`) and a write overtaken by
  an update (`WriterOvertaken`) leave a stale entry behind, and so does a single lost deletion with one request
  at a time (`DeletionLost`). But no entry and no answer is older than a ttl plus the longest fill
  (`BoundedStaleness`).
* Folding the event log rebuilds the table when nothing fails after a commit (`EventReplay`). Whatever fails,
  it tells of each id what the table showed right after the last event about it (`LogTellsLastEvent`).
* The comment in the gRPC definition calls `order_desc` true by default. The code passes the protobuf
  zero value, false, and an empty `order_by`, with which the SQL text has no column to order by and no
  list can be answered (`AnswerableExactly`).
* On REST, an offset that wraps below zero is refused, and among the other requests `hasMore` is wrong once
  page times limit leaves 64 bits, save for one value (`RestArithmeticExactly`); `page=2` with a limit of 2^62
  always has more (`RestAlwaysMore`). A client that pages while there is more reaches the end exactly when the
  last page ends within 64 bits (`RestCrawlFinishesExactly`).
* Filtering is substring search only for values without `%`, `_` and backslash (`SubstringSearchExactly`).

## Model

| member | source | states |
|---|---|---|
| Cache.CacheDecorator.CacheUser | internal/repository/cache/user_cache.go:149-165 | three SETs of the erased user with a fresh deadline, any subset lost on failure |
| Cache.CacheDecorator.InvalidateUserCache | internal/repository/cache/user_cache.go:181-192 | three DELs on the keys of the given row, any subset lost on failure |
| Cache.CacheDecorator.Create | internal/repository/cache/user_cache.go:38-48 | insert, then fill; a failed fill is an error after the commit |
| Cache.CacheDecorator.GetByID | internal/repository/cache/user_cache.go:50-65 | a live entry is the answer and changes nothing; otherwise the row, after a fill |
| Cache.CacheDecorator.GetByEmail | internal/repository/cache/user_cache.go:67-82 | the same by email |
| Cache.CacheDecorator.GetByNickname | internal/repository/cache/user_cache.go:84-99 | the same by nickname |
| Cache.CacheDecorator.Update | internal/repository/cache/user_cache.go:101-124 | old row read past the cache, update, purge of the old row's keys, re-read, fill, with each error in between |
| Cache.CacheDecorator.Delete | internal/repository/cache/user_cache.go:126-141 | row read past the cache, delete, purge of its keys |
| Cache.Redis.Get | internal/repository/cache/user_cache.go:167-179 | an unexpired entry or a miss; a hit extends no deadline |
| Cache.Redis.Exec | internal/repository/cache/user_cache.go:155-162 | a pipeline applies its commands in order, leaving out those that were lost |
| Cache.FillCommands | internal/repository/cache/user_cache.go:155-158 | the three SETs together overlay exactly the user's keys |
| Cache.PurgeCommands | internal/repository/cache/user_cache.go:182-185 | the three DELs together remove exactly the row's keys |
| Cache.PurgeHeals | internal/repository/cache/user_cache.go:111-113 | purging the keys of the old row leaves no stale copy of the changed id; if it fails, staleness ends within a ttl |
| Cache.ChangeHeals | internal/repository/cache/user_cache.go:101-124 | an update keeps every entry current or expiring by the horizon, which moves only when a failed invalidation is reported |
| Cache.RemoveHeals | internal/repository/cache/user_cache.go:126-141 | the same for a deletion |
| Cache.CreateHeals | internal/repository/cache/user_cache.go:38-48 | the same for a creation, whatever part of the fill is lost |
| Cache.GetByHeals | internal/repository/cache/user_cache.go:50-99 | a lookup keeps entries so, leaves the table alone, and answers only with an owner of the key |
| Cache.GetByAnswers | internal/repository/cache/user_cache.go:50-99 | from a coherent cache a lookup answers with the present row, up to the password |
| Cache.ChangeWrites | internal/repository/cache/user_cache.go:107-123 | what an update does to the table, and that without faults after the commit an error means no write |
| Promises.LookupAnswersExactly | internal/repository/cache/user_cache.go:50-99 | a live entry is answered as it stands; otherwise the row that owns the key, then cached under all its keys for a full ttl, or the error of the call that failed |
| Promises.AddAnswersExactly | internal/repository/cache/user_cache.go:38-48 | which creations are inserted, cached under all keys and reported as done, and each error, the failed fill after the commit included |
| Promises.ChangeAnswersExactly | internal/repository/cache/user_cache.go:101-124 | which updates rewrite the row, column by column, and each error, those after the commit included |
| Promises.ChangeCaches | internal/repository/cache/user_cache.go:111-121 | after an update of a coherent cache the new row is under all its keys for a full ttl and no other copy of it is left |
| Promises.RemoveAnswersExactly | internal/repository/cache/user_cache.go:126-141 | which deletions remove the row and its entries, and each error |
| Promises.CopiesKeepFields | internal/domain/user/user.go:9-19 | JSON keeps every field of a user but the password |
| Healing.SelfHealing | internal/repository/cache/user_cache.go:101-192 | over every run with any faults, each entry matches the table or expires within a ttl of the last failed invalidation |
| Healing.OnlyFailedInvalidationsHurt | internal/repository/cache/user_cache.go:111-121 | without a reported failed invalidation every reachable cache is coherent, whatever else fails |
| Healing.HitsAreCurrentAgain | internal/repository/cache/user_cache.go:167-192 | a ttl after the last failed invalidation every hit is the table's own answer |
| Healing.FailedPurgeOfUpdateExactly | internal/repository/cache/user_cache.go:111-113 | a failed purge spoils a coherent cache exactly when a cached key of the old row survives and the row changed |
| Healing.FailedPurgeOfDeleteExactly | internal/repository/cache/user_cache.go:136-138 | the same after a deletion, where any surviving key spoils it |
| KeySpace.KeyTextInjective | internal/repository/cache/user_cache.go:16-21 | the three key functions are injective and their images disjoint |
| KeySpace.KeyTexts | internal/repository/cache/user_cache.go:16-21 | the text of each of the three keys |
| KeySpace.UuidDigits | internal/repository/cache/user_cache.go:194-196 | where the two digits of each byte stand in the text of a UUID |
| KeySpace.UuidTextInjective | internal/repository/cache/user_cache.go:194-196 | the hex-and-dash text of a UUID determines it |
| KeySpace.CommandsRepresented | internal/repository/cache/user_cache.go:194-204 | SET and DEL on key texts act as update and removal on keys |
| Database.UserRepository.Create | internal/repository/database/user_repository.go:24-50 | insert, or the error of the first violated constraint, leaving the table |
| Database.UserRepository.GetByID | internal/repository/database/user_repository.go:52-62 | the row of the id, not found, or a database error |
| Database.UserRepository.GetByEmail | internal/repository/database/user_repository.go:64-74 | the row with the email, not found, or a database error |
| Database.UserRepository.GetByNickname | internal/repository/database/user_repository.go:76-86 | the row with the nickname, not found, or a database error |
| Database.UserRepository.Update | internal/repository/database/user_repository.go:88-121 | rewrites all but id and created_at, stamps updated_at, and reports conflicts and missing rows |
| Database.UserRepository.Delete | internal/repository/database/user_repository.go:123-138 | removes the row or reports that there is none |
| Database.InsertAdmitsExactly | migrations/000001_create_users_table.up.sql:2-7 | an insert is admitted exactly when ids, emails and nicknames stay unique |
| Database.UpdateAdmitsExactly | migrations/000001_create_users_table.up.sql:2-7 | an update is admitted exactly when the row exists and emails and nicknames stay unique |
| Service.UserService.CreateUser | internal/domain/user/service.go:29-60 | hash, id and timestamps, two lookups, the insert, the event, and every early return |
| Service.UserService.GetUser | internal/domain/user/service.go:62-68 | the lookup by id |
| Service.UserService.UpdateUser | internal/domain/user/service.go:70-110 | read, patch of non-empty fields, guard on a changed email, write, event |
| Service.UserService.PatchNames | internal/domain/user/service.go:79-90 | first name, last name, nickname and country are the patch's where it has them and the user's where not; nothing else changes |
| Service.UserService.DeleteUser | internal/domain/user/service.go:112-133 | read, delete, event |
| Promises.CreateUserStores | internal/domain/user/service.go:29-60 | over any cache and with any faults, a created user has the fields sent, the new id, the hash and the timestamps; so it is stored and so it is announced, without its password |
| Promises.CreateUserAdmits | internal/domain/user/service.go:40-50 | whatever happens to the two lookups, a creation succeeds exactly when email and nickname are free, and says truly which is taken |
| Promises.CreateUserReports | internal/domain/user/service.go:48-50 | a fill that fails after the insert and an insert that fails are reported as such |
| Promises.GetUserSound | internal/domain/user/service.go:62-68 | over any sound cache and with any faults, the user of the id as a live entry or else the table has it, or the error of the call that failed; table and log stay |
| Promises.GetUserExact | internal/domain/user/service.go:62-68 | from a coherent cache: the row up to its password, or not found |
| Promises.UpdateUserStores | internal/domain/user/service.go:79-98 | over any sound cache and with any faults, an update that commits stores each field its patch names, shows it in the response, keeps id and created_at, stamps updated_at and touches no other row |
| Promises.UpdateUserKeeps | internal/domain/user/service.go:79-98 | from a coherent cache the fields that the patch leaves empty stay, in the row and in the response |
| Promises.UpdateUserPublishes | internal/domain/user/service.go:102-107 | an update announces exactly the user it returns, without password, and nothing if it fails |
| Promises.UpdateUserAdmits | internal/domain/user/service.go:91-100 | whatever happens to the lookup of the email, an update succeeds exactly when the row is there and no other row has the email or nickname, and else says truly why |
| Promises.OwnEmailIsFree | internal/domain/user/service.go:91-96 | over any sound cache nobody is refused an email for having it |
| Promises.UpdateUserFails | internal/domain/user/service.go:71-77 | a user that cannot be read ends the request with that error, and nothing is written |
| Promises.UpdateUserReports | internal/domain/user/service.go:71-100 | over any sound cache, each failing call of an update, those after the commit included, is reported as what it is |
| Promises.DeleteUserSound | internal/domain/user/service.go:112-133 | over any sound cache and with any faults, done means that the row was there, is gone and was announced; anything else announces nothing |
| Promises.DeleteUserExact | internal/domain/user/service.go:112-133 | from a coherent cache and without faults: not found, or done, with row and copies gone and the event showing the row |
| Promises.DeleteUserReports | internal/domain/user/service.go:112-124 | over any sound cache and for any faults: the response, and that the row is gone exactly if it is done or the invalidation failed |
| Promises.WaitingForgets | internal/repository/cache/user_cache.go:155-158 | a ttl without requests empties any sound cache |
| Service.StepHeals | internal/domain/user/service.go:29-133 | every request keeps entries current or expiring by the horizon |
| Service.UpdateUserWrites | internal/domain/user/service.go:70-110 | an update rewrites the row of its own id or nothing, and announces exactly a committed rewrite |
| Service.CreateUserWrites | internal/domain/user/service.go:29-60 | a creation inserts a new row or nothing, and announces only an inserted row |
| Service.DeleteUserWrites | internal/domain/user/service.go:112-133 | a deletion removes the row of its own id or nothing, and announces only a removed row |
| Events.UserEventPublisher.Publish | internal/events/publisher.go:64-80 | appends one event, or none on failure |
| Events.UserEventPublisher.PublishCreatedUser | internal/events/publisher.go:48-51 | announces a created event with the user as JSON keeps it |
| Events.UserEventPublisher.PublishUpdatedUser | internal/events/publisher.go:53-56 | announces an updated event |
| Events.UserEventPublisher.PublishDeletedUser | internal/events/publisher.go:58-61 | announces a deleted event |
| EventHistory.EventLifecycle | internal/domain/user/service.go:52-126 | in every run, with stale entries and any faults, each id's events are a subsequence of created, updated, ..., deleted |
| EventHistory.StepKeepsLifecycle | internal/domain/user/service.go:29-133 | one request keeps that order, given a fresh id |
| EventHistory.EventReplay | internal/domain/user/service.go:48-126 | folding the log rebuilds the table except password and updated_at, if nothing fails after a commit |
| EventHistory.StepReplaysExactly | internal/domain/user/service.go:52-126 | a coherent service stays replayable exactly when it announces what it visibly changes |
| Retelling.LogTellsLastEvent | internal/domain/user/service.go:52-126 | over every run, with stale copies, lost events and any other faults, the log tells at each id what the table showed right after the last event about it, and so is right there exactly if nothing visible changed since |
| Retelling.StepTells | internal/domain/user/service.go:52-126 | an announced event is the truth about its id even if the log was wrong before, and changes what is told of no other id |
| Retelling.StepKeepsTraceable | internal/repository/cache/user_cache.go:38-141 | every request with a fresh id keeps the creation dates of copies, stale ones included, equal to their rows' |
| Transparency.CacheTransparency | internal/repository/cache/user_cache.go:38-147 | over every run with working pipelines and SELECTs, cached and bare service give the same responses, rows and events up to passwords |
| Transparency.StepAgrees | internal/domain/user/service.go:29-133 | one request keeps the bisimulation and answers alike |
| Transparency.GetByAgrees | internal/repository/cache/user_cache.go:50-99 | a lookup answers alike with and without the cache, expired or failing GETs included |
| ListTransparency.ListingAgrees | internal/repository/cache/user_cache.go:143-147 | lists of tables that differ in passwords only agree row by row, with the same total and hasMore |
| Requests.CreateUserSound | internal/domain/user/service.go:40-50 | from any cache and with any faults, a created user had an unused email and nickname |
| Requests.CreateUserExact | internal/domain/user/service.go:40-50 | without faults and with a coherent cache: email taken, then nickname taken, exactly when a row has them |
| Requests.CreateUserRejectsTruly | internal/domain/user/service.go:40-46 | from a coherent cache a rejection is true whatever faults occur |
| Requests.RunKeepsTableOk | internal/repository/database/user_repository.go:24-138 | over every run, from any cache and with any faults, emails and nicknames stay unique |
| Requests.EmptySystemStarts | migrations/000001_create_users_table.up.sql:1-11 | the freshly migrated, empty system meets what the theorems about runs ask of their first state |
| Requests.RunningSystemStarts | cmd/server/main.go:87-94 | so does a process wired over a table and a Redis in use: healing within a ttl over any sound store, coherent from the start over a coherent one |
| Requests.UpdateUserExact | internal/domain/user/service.go:70-110 | without faults: which error, or which row, by the table alone |
| Requests.PatchComposition | internal/domain/user/service.go:79-100 | two successful patches in sequence equal one patch that combines them |
| Requests.PatchIdentity | internal/domain/user/service.go:79-100 | a patch that asks for what is there, the empty one included, succeeds and changes nothing visible |
| Requests.PatchIdempotence | internal/domain/user/service.go:79-100 | applying a patch again succeeds and changes nothing visible |
| Overwrites.UpdateStoresCopy | internal/domain/user/service.go:71-98 | over any sound cache and with any faults, an update that commits rewrites its row with the user it read, patched |
| Overwrites.UpdateKeepsPasswordExactly | internal/domain/user/service.go:71-98 | over any sound cache and with any faults, an update that commits keeps the password hash exactly when it did not read from the cache, or there was none |
| Overwrites.UpdatePatchesExactly | internal/domain/user/service.go:79-98 | such an update leaves the fields its patch does not name as they were exactly when the copy it read agrees with the row on them |
| Overwrites.UpdateIsUndone | internal/domain/user/service.go:71-98 | from the empty system: a creation, an update whose invalidation fails, and an update that asks for nothing; the cache is wrong after the second, and after the third the table has lost the second's change |
| Overwrites.UpdateResponseShows | internal/domain/user/service.go:98-109 | from a coherent cache the response shows the row as stored, but with the old updated_at |
| Overwrites.CreatedIsServed | internal/repository/cache/user_cache.go:38-48 | after a successful creation the user is cached, without password, under all three keys for a full ttl |
| Overwrites.UpdateAfterCreateErasesPassword | internal/domain/user/user.go:14 | an update within a ttl of the creation, if it commits, erases the hash, whatever faults follow |
| Overwrites.PasswordIsLost | internal/domain/user/service.go:29-110 | on the empty system a creation with a hash and then an update both succeed, and the stored hash is empty |
| Concurrent.ConcurrentCoherence | internal/repository/cache/user_cache.go:50-141 | in every interleaving without intrusions and spoilt invalidations each entry is current or a writer of its id is about to delete it |
| Concurrent.QuiescentCoherence | internal/repository/cache/user_cache.go:50-141 | hence with no invalidation in flight the whole cache agrees with the table |
| Concurrent.CommitKeepsInv | internal/repository/cache/user_cache.go:107-113 | a commit that intrudes on nobody makes stale only entries that its own request will delete |
| Concurrent.TableStaysOk | internal/repository/database/user_repository.go:24-138 | in all interleavings with any faults emails and nicknames stay unique |
| Interleavings.AnswersAreHistory | internal/repository/cache/user_cache.go:50-99 | in all interleavings with any faults, a lookup returns an owner of its key, and a version of the row that the table held |
| Discipline.HarmExactly | internal/repository/cache/user_cache.go:50-192 | a step makes it possible that orderly steps end, with no request in flight, with a stale entry, exactly when it intrudes or spoils an invalidation |
| Discipline.OrderlyExactly | internal/repository/cache/user_cache.go:50-192 | a run has no such step exactly when at no moment orderly steps could have ended with a stale entry |
| Discipline.IntrusionSpoils | internal/repository/cache/user_cache.go:60-82 | any write that changes the row a fill is about to set can be driven to a stale entry that nobody will delete |
| Discipline.OverlappingUpdatesSpoil | internal/repository/cache/user_cache.go:101-141 | any write that renames the row under a pending update or deletion can be driven to a stale entry under the new name |
| Discipline.SpoiltPurgeSpoils | internal/repository/cache/user_cache.go:181-192 | dropping the last pending deletion of a stale entry can be driven to that entry staying |
| Mishaps.FillOvertaken | internal/repository/cache/user_cache.go:50-124 | from an empty cache and without faults: a lookup reads, any update or deletion that visibly changes the row runs from start to end, the lookup fills, and a stale entry stays |
| Mishaps.WriterOvertaken | internal/repository/cache/user_cache.go:101-141 | from an empty cache and without faults: a write reads, an update gives the row a new key and ends, the write ends, and the entry under that key stays |
| Mishaps.DeletionLost | internal/repository/cache/user_cache.go:181-192 | from an empty cache and with one request at a time, one lost DEL of a cached key of a changed row leaves a stale entry |
| Mishaps.FaultlessHarmIntrudes | internal/repository/cache/user_cache.go:50-192 | a run without faults that ends with a stale entry contains an intrusion |
| Timed.SetLivesExactly | internal/repository/cache/user_cache.go:155-158 | what a SET leaves lives for exactly a ttl if nobody touches it |
| Timed.BoundedStaleness | internal/repository/cache/user_cache.go:149-165 | in all interleavings with any faults, entries and answers are versions that the table held less than a ttl plus the longest fill ago |
| Sequential.Begins | internal/repository/cache/user_cache.go:38-141 | a request of any kind starts where another has ended |
| Sequential.SoloLookup | internal/repository/cache/user_cache.go:50-65 | under any faults and delays, the sequential lookup is a run of the lookup's steps while other requests stand still |
| Sequential.SoloChange | internal/repository/cache/user_cache.go:101-124 | the same for an update, whatever fails and whatever the pipelines lose |
| Sequential.SoloCreate | internal/repository/cache/user_cache.go:38-48 | the same for a creation |
| Sequential.SoloRemove | internal/repository/cache/user_cache.go:126-141 | the same for a deletion |
| Ilike.SubstringSearch | internal/repository/database/user_repository.go:145-148 | for a value without wildcards the pattern accepts exactly the fields that contain it, ignoring case |
| Ilike.SubstringSearchExactly | internal/repository/database/user_repository.go:147 | and for no other value |
| Ilike.LettersAlike | internal/repository/database/user_repository.go:146 | letters that differ only in ASCII case match, and no other two characters do |
| Ilike.WildcardsMean | internal/repository/database/user_repository.go:146 | what percent, underscore, backslash and any other character of a pattern accept |
| Sql.BuildConditions | internal/repository/database/user_repository.go:141-149 | one numbered condition and one wrapped argument per filter |
| Sql.BuildQueries | internal/repository/database/user_repository.go:150-171 | the texts of the two queries and their arguments |
| Sql.CountMeans | internal/repository/database/user_repository.go:151-155 | the count text reads back as the filters, condition i on placeholder i |
| Sql.SelectMeans | internal/repository/database/user_repository.go:162-171 | the select text reads back as the same conditions, the order, LIMIT on the next placeholder and OFFSET on the one after; without a column it does not read back |
| Sql.SelectTextForOne | internal/repository/database/user_repository.go:145-171 | the very text of the page query for one filter, in both directions |
| Listing.ValidFilters | internal/domain/user/service.go:136-149 | keeps the filters on allowed fields, in order |
| Listing.ListUsers | internal/domain/user/service.go:135-168 | the queries sent, and users, hasMore and total from the replies |
| Listing.WhitelistKeepsOrder | internal/domain/user/service.go:144-149 | valid filters keep their order and number |
| Listing.FilterPerField | internal/domain/user/service.go:136-149 | filters on the five fields look at those fields, and a filter on anything else says nothing |
| Listing.FiltersConjoin | internal/repository/database/user_repository.go:151-153 | several filters select the rows that satisfy them all, none selects every row |
| Listing.OrderPerName | internal/domain/user/service.go:150-154 | the column ordered by, per name asked for; any other name means created_at |
| Listing.WhereMeans | internal/repository/database/user_repository.go:145-153 | the compiled conditions under their arguments are the conjunction of the filters |
| Listing.ListMeans | internal/repository/database/user_repository.go:155-179 | a list is answered exactly by the selected rows, counted, sorted and cut, and only if it names an order |
| Listing.FilterOrderIndependence | internal/api/rest/handlers.go:181-191 | reordering or repeating filters changes neither total nor page |
| Listing.SortedUnique | internal/repository/database/user_repository.go:162-168 | sorted by a unique column, an arrangement of the rows is unique, under any collation |
| Listing.DescendingIsReverse | internal/repository/database/user_repository.go:164-168 | descending order on a unique column is ascending order reversed |
| Listing.NegativeOffsetRefused | internal/repository/database/user_repository.go:170-177 | a request with a negative offset gets no answer |
| Paging.QueriesAnswer | internal/repository/database/user_repository.go:155-179 | the replies to the two queries of a request are exactly the page answers that carry the total of the selection |
| Paging.CrawlStops | internal/domain/user/service.go:162-165 | asking for pages while hasMore takes at most the least number of requests, and is told to stop after exactly that many if the last page ends within 64 bits, else never |
| Paging.CrawlContinues | internal/domain/user/service.go:162-165 | a client told that there is more gets an answer to its next request exactly when a page is left |
| Paging.CrawlFinishesExactly | internal/domain/user/service.go:162-165 | a listing can be read to its end exactly when it names an order and its last page ends within 64 bits |
| Paging.PaginationPartition | internal/domain/user/service.go:162-165 | the pages asked for hold the first rows of the selection, once each and in order, and at the end all of them, in the least number of requests |
| Paging.UniqueOrderPagination | migrations/000001_create_users_table.up.sql:5-7 | ordered by email or nickname this needs no assumption on ties |
| Handlers.RestListParams | internal/api/rest/handlers.go:149-191 | page, limit, offset, order and filters from the query string, with the defaults |
| Handlers.RestSelects | internal/api/rest/handlers.go:181-191 | rows are selected by the allowed parameters alone; page, limit and order never become conditions |
| Handlers.RestControls | internal/api/rest/handlers.go:156-179 | order, direction and page size as the query string names them; without them, created_at, descending, ten rows |
| Handlers.PositiveExactly | internal/api/rest/handlers.go:149-161 | positive 64-bit decimal numbers are taken, anything else gives the default |
| Handlers.LookupMeans | internal/api/rest/handlers.go:149-176 | a parameter has the value it was given, and none if it was not |
| Handlers.GrpcSelects | internal/api/grpc/handlers.go:150-177 | rows are selected by every filter with a value on an allowed field; order and direction are those asked for, and so is a positive page size, else ten |
| Handlers.NonEmptyKeepsOrder | internal/api/grpc/handlers.go:170-177 | filters keep their order |
| Handlers.GrpcListParams | internal/api/grpc/handlers.go:150-177 | the same from a gRPC request |
| Handlers.GrpcArithmetic | internal/api/grpc/handlers.go:150-163 | no page and limit overflow, and hasMore compares the exact product |
| Handlers.RestArithmeticExactly | internal/api/rest/handlers.go:163-165 | a wrapped negative offset is refused; otherwise hasMore is exact for every total exactly when page times limit stays below 2^63 or wraps to the largest value |
| Handlers.RestAlwaysMore | internal/api/rest/handlers.go:163-165 | a second page of 2^62 rows has a legal offset and an answer, and hasMore is true for every total |
| Handlers.RestAlwaysMoreQuery | internal/api/rest/handlers.go:149-161 | the query string that asks for it |
| Crawls.WithPageMeans | internal/api/rest/handlers.go:149-191 | naming another page changes the offset and neither limit, order nor selection |
| Crawls.RestCrawlStops | internal/api/rest/handlers.go:149-201 | a REST client that asks for pages 1, 2, ... while hasMore is told to stop after the last page exactly when that page ends within 64 bits |
| Crawls.RestCrawlFinishesExactly | internal/api/rest/handlers.go:149-201 | and it can reach that end exactly then |
| Crawls.RestPagination | internal/api/rest/handlers.go:149-201 | the pages of a REST client hold the first of the rows asked for, once each and in order, and in the end all of them |
| Crawls.GrpcPagination | internal/api/grpc/handlers.go:150-187 | the same for a gRPC client |
| Crawls.GrpcCrawlStops | internal/api/grpc/handlers.go:150-187 | a gRPC client is told to stop after the last page and not before |
| Crawls.GrpcCrawlFinishesExactly | internal/api/grpc/handlers.go:150-187 | and it can reach that end exactly when it names an order and an int32 numbers the last page |
| Handlers.AnswerableExactly | internal/api/grpc/handlers.go:164 | a list can be answered exactly when order_by is not empty |

## Left out

- CacheTransparency: says nothing of runs in which a pipeline or a SELECT fails, since the two services then answer differently by design; those runs are covered by SelfHealing.
- ConcurrentCoherence: steps are those of the repository operations; the several lookups of one service request appear as separate operations, and expiry may strike any entry at any moment.
- PaginationPartition: assumes an unchanged table, a count within 64 bits and, for columns that are not unique, that the database keeps one arrangement of ties between requests.
- RestPagination: assumes, as PaginationPartition does, an unchanged table and one arrangement of ties; so does GrpcPagination.
- BoundedStaleness: takes the longest time from a fill's read to its last SET as a parameter; every run has one (EveryRunIsPrompt), and what bounds it in practice is not part of this model.
- EventReplay: leaves out password and updated_at, which events do not carry faithfully.
- ListMeans: takes non-negative limit and offset; NegativeOffsetRefused covers the rest.
- SubstringSearchExactly: folds ASCII letters only; case folding of other letters depends on the database's locale.
- UserService.CreateUser: the source writes id, hash and timestamps into the caller's struct; the model returns a new value, so that aliasing is not captured.
- UserRepository.Create: which constraint failed is a tag and not the text of the driver's message, and constraints are taken in the order in which their indexes are created.
- A statement that commits although its error says otherwise, and a failing RowsAffected.
- Asynchronous delivery, partitions and retries of Kafka; the log is what the broker accepted.
- The bytes of JSON: encoding and decoding are the identity except for the erased password.
- Column lengths, CHAR padding and timestamp precision of the table.
- Concurrent writes to one id: nothing guards them, so no claim that updates are not lost.
- Routing, request binding and validation, conversion to protobuf, error-to-status mapping, middleware, interceptors, rate limiting, tracing, logging, health checks, configuration, start and shutdown.
