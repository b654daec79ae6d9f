# NFC tag ownership, token authentication and plant lookups — a Dafny model

This project models the core of a Django backend in which users own NFC tags.

A tag is a record with:
- a unique chip `uid` of at most 32 characters;
- a unique `uuid`;
- an optional owner;
- an `active` flag;
- an optional attachment (content type plus object id), which is integer-keyed or UUID-keyed depending on the concrete model.

The model covers these parts of the system:
- **The tag record** (`Tags`, nfctags_models.dfy). This covers the record, its availability test (`is_available_to_register`) and its ordering by `uid`. It also covers what `full_clean()` checks before a save, the `SET_NULL` rule that applies when a user is deleted, and the table itself (`TagStore`, a class over a `map` from primary key to row, whose invariant keeps `uid` and `uuid` unique).
- **The query-set filters** (`Managers`). These are `available`, `assigned`, `linked` and `unlinked`, plus the manager that delegates to them.
- **The ownership service** (`Services`). `NFCTagService` is a class whose methods `CreateTag`, `RegisterUser`, `DisconnectTag` and `DeactivateTag` update the table in place. Each method is proved to save exactly what a pure outcome function describes. Lemmas then state what those outcomes mean: the invariant is kept, disconnect frees the tag, deactivate is idempotent, and a tag can be handed over from one user to another.
- **The selectors** (`Selectors`). These model visibility (active tags owned by the caller), the caller's query set, and the lookup of a scanned tag by uid.
- **The REST controller** (`Api`). Each handler is a function from (table, caller, request) to (status and body, new table). The lemmas state when register answers 201, 200, 409, 400 or 500, what each by-uuid route does to a tag the caller can see, the single 404 of scan lookup, the fact that update writes only the label, the fact that mutations reach only the caller's visible tags, and the newest-uuid-first order of the list.
- **The JWT bearer authenticator** (`Auth`). The claim handling and the failure mapping form a pure function, `Authentication`. The user table (`UserTable`) and the backend (`JWTAuthenticationBackend`) are classes, and `Authenticate` is proved to follow `Authentication`. The JWT library is a decoder that is passed in.
- **The `migrate_nfctag_data` command** (`Migration`). `Handle` is a loop with the created/existing counters. It commits all inserts or, when an insert raises, none.
- **The plant helpers** (`BotanyUtils`, `BotanyServices`). These are `unslugify`, `resolve_gbif_id`, the GBIF details/occurrences/summary shaping and the Kindwise suggestion parsing. Every network call is a function passed in.

Python values that reach the code from tokens and web services are modelled as `Values.Json`. The model includes Python's truth test on them (`Truthy`) and `str()` (`Str`).

Behaviour of the code worth noting, which the model keeps:
- `create_tag` makes the caller the owner of the new tag.
- `full_clean()` accepts an empty uid: the uid column is not editable, so its blank check is skipped, and its validators do not run on an empty value.
- `register` answers 409 for every tag that is not available. That includes the caller's own tag and an inactive tag.
- `register_user` and `get_or_create` take no row lock. The model is sequential: each request sees the table as the previous request left it.
- The user model is not part of this model. The model allows several users with one e-mail; then `get_or_create` raises `MultipleObjectsReturned` and authentication returns `None`. If e-mail is unique, as the authenticator's comment says, that branch is never taken.
- Authentication failures are not told apart. Every failure, including a missing key or a missing e-mail claim, returns `None`.
- The scan lookup parses the counter but never compares it with anything.

## Model

| member | source | states |
|---|---|---|
| Values.Str | config/auth.py:73 | `str()` of a string claim is the string itself; `str()` of a non-negative integer claim is a digit string that reads back as the same integer |
| Values.DecimalRoundTrip | botany/utils.py:15-16 | `int(str(n)) == n` for every natural number |
| Tags.NewTag | nfctags/models.py:11-41 | a new record carries the given uuid, uid and owner; it is active, unattached and has the configured model's shape |
| Tags.NewTagAvailability | nfctags/models.py:58-63 | a freshly built tag is available to register iff it was built without an owner |
| Tags.IsAvailableToRegister | nfctags/models.py:58-63 | `is_available_to_register`: active and without owner; its consequences are stated by `NewTagAvailability`, `Managers.Available` and `Services.RegisterOutcome` |
| Tags.DefaultModelShape | nfctags/models.py:80-110 | every row of the shipped `NFCTag` model uses the integer attachment variant and has no label |
| Tags.StrLessTrichotomy | nfctags/models.py:46-50 | Python string `<` is total and asymmetric: for any two uids exactly one of equal, less or greater holds |
| Tags.StrLessTransitive | nfctags/models.py:46-50 | Python string `<` is transitive |
| Tags.Lt | nfctags/models.py:49-50 | `__lt__` compares uids only; `TagOrderIsUidOrder` states that it is the string order and agrees with `Gt` |
| Tags.Gt | nfctags/models.py:46-47 | `__gt__` compares uids only; `TagOrderIsUidOrder` states that `a > b` iff `b < a` |
| Tags.TagOrderIsUidOrder | nfctags/models.py:46-50 | `a < b` iff `b > a`; never both; neither iff the uids are equal |
| Tags.DefaultOrderIsStrict | nfctags/models.py:54 | a listing ordered by `uid` is strictly increasing pairwise, so it shows no uid twice |
| Tags.TableInvariant | nfctags/models.py:12-24 | the `unique=True` constraints on `uid` and `uuid`, keys below the next key, every row in the model's shape; kept by `SaveKeepsInvariant`, `Services.CreateKeepsInvariant`, `Api.HandleKeepsInvariant` and `Migration.Migrate` |
| Tags.FullClean | nfctags/models.py:18-24 | `full_clean()`: an empty uid is not validated, any other uid is at most 32 characters and accepted by the validator, and no other row has the uid or the uuid; `SaveKeepsInvariant` and `Services.EmptyUidIsCreated` state its consequences |
| Tags.SaveKeepsInvariant | nfctags/models.py:12-24 | saving a record that passed `full_clean` keeps `uid` and `uuid` unique and keeps every row in the model's shape |
| Tags.OnUserDeleted | nfctags/models.py:25-31 | deleting a user clears the owner of exactly that user's tags; no tag is deleted and nothing else changes |
| Tags.OnUserDeletedKeepsInvariant | nfctags/models.py:25-31 | the SET_NULL cascade keeps the table invariant |
| Tags.TagStore.constructor | nfctags/models.py:11-24 | an empty table satisfies the invariant |
| Tags.TagStore.Delete | domain/api.py:148 | `tag.delete()` removes exactly that row and keeps the invariant |
| Managers.Available | nfctags/managers.py:5-9 | `available()` keeps exactly the rows that are available to register, unchanged |
| Managers.Assigned | nfctags/managers.py:11-15 | `assigned()` keeps exactly the active rows that have an owner |
| Managers.Linked | nfctags/managers.py:17-21 | `linked()` keeps exactly the active rows with both content type and object id set |
| Managers.Unlinked | nfctags/managers.py:23-27 | `unlinked()` keeps exactly the active rows with both content type and object id null |
| Managers.AvailableAssignedPartition | nfctags/managers.py:5-15 | `available` and `assigned` are disjoint, and together they are all the active tags |
| Managers.LinkedUnlinkedDisjoint | nfctags/managers.py:17-27 | `linked` and `unlinked` are disjoint; a half-set attachment is in neither |
| Managers.FiltersExcludeInactive | nfctags/managers.py:9-27 | no inactive tag passes any of the four filters |
| Managers.ManagerFilter | nfctags/managers.py:30-44 | a manager method selects exactly the rows of the whole table that its filter's condition accepts (available to register; active and owned; active and attached; active and unattached), unchanged |
| Services.CreateOutcome | domain/services.py:20-28 | `create_tag` saves a tag with that uid, the service's user as owner, active and unattached; it fails with a validation error iff a non-empty uid is too long or refused by the validator, or the uid or uuid is taken |
| Services.EmptyUidIsCreated | domain/services.py:20-28 | `create_tag("")` succeeds whenever no row has an empty uid or the drawn uuid, because an empty value of the non-editable uid column is never validated |
| Services.RegisterOutcome | domain/services.py:30-40 | `register_user` raises, saving nothing, unless the tag is available; otherwise it sets the owner to the service's user and changes nothing else |
| Services.DisconnectOutcome | domain/services.py:42-49 | `disconnect_tag` raises unless the caller owns the tag; otherwise it clears the owner and keeps every other field, `active` included |
| Services.DeactivateOutcome | domain/services.py:51-59 | `deactivate_tag` clears `active` whatever the state and keeps the owner |
| Services.CreateKeepsInvariant | domain/services.py:20-28 | a created tag takes a fresh key, and the table invariant holds after the save |
| Services.TransitionsKeepInvariant | domain/services.py:30-59 | register, disconnect and deactivate keep the table invariant, whether they succeed or fail |
| Services.DisconnectFreesActiveTag | domain/services.py:42-49 | after the owner disconnects, `active` is unchanged, and the tag is available again iff it is active |
| Services.DeactivateIdempotent | domain/services.py:51-59 | deactivating twice leaves the same table as deactivating once |
| Services.HandOverScenario | domain/services.py:30-49 | register by A; refused register and refused disconnect by B; disconnect by A; register by B: B owns the tag and nothing else changed |
| Services.NFCTagService.constructor | domain/services.py:17-18 | the service is bound to its user (possibly nobody) and its table |
| Services.NFCTagService.CreateTag | domain/services.py:20-28 | inserts exactly the record of `CreateOutcome` under the next key, or inserts nothing |
| Services.NFCTagService.RegisterUser | domain/services.py:30-40 | saves exactly what `RegisterOutcome` gives, or nothing on error |
| Services.NFCTagService.DisconnectTag | domain/services.py:42-49 | saves exactly what `DisconnectOutcome` gives, or nothing on error |
| Services.NFCTagService.DeactivateTag | domain/services.py:51-59 | saves exactly what `DeactivateOutcome` gives, or nothing on error |
| Selectors.VisibleFor | domain/selectors.py:39-48 | nothing is visible to an anonymous caller; for a user, the visible ids are exactly the active tags that user owns |
| Selectors.TagsFor | domain/selectors.py:51-53 | the caller's query set is exactly the visible rows, unchanged, each owned by the caller and active |
| Selectors.VisibilityIsolation | domain/selectors.py:39-53 | two different callers never see the same tag, and nobody sees an inactive tag |
| Selectors.GetOne | domain/selectors.py:29-36 | `get()` is `DoesNotExist` iff no row matches, and finds a row iff exactly one matches |
| Selectors.UniqueUidLookup | domain/selectors.py:30 | under the unique-uid constraint, `get(uid=...)` never raises `MultipleObjectsReturned` |
| Selectors.UniqueUuidLookup | domain/api.py:53 | under the unique-uuid constraint, `get(uuid=...)` on a query set never raises `MultipleObjectsReturned` |
| Selectors.ByScan | domain/selectors.py:12-36 | a scan that does not parse raises; otherwise the result is the tag whose uid is the parsed uid, or `None` iff no tag has it |
| Selectors.ScanIgnoresUserAndCounter | domain/selectors.py:27-34 | the scan lookup depends on the parsed uid alone: not on the caller, not on the counter |
| Selectors.ScanFindsTagByUid | domain/selectors.py:27-36 | in a valid table a parsed scan returns the one tag with that uid, whoever owns it and whether it is active |
| Api.GreatestUuidExists | domain/api.py:47 | every non-empty query set has a row with the greatest uuid |
| Api.NewestFirstIsOrdered | domain/api.py:47 | `order_by("-uuid")` lists every row of the query set exactly once, by descending uuid |
| Api.PrependNewest | domain/api.py:47 | the newest row followed by a descending listing of the rest is a descending listing of all |
| Api.First | domain/api.py:82 | `first()` is `None` iff nothing matches, and otherwise returns a matching row |
| Api.ListTags | domain/api.py:43-47 | `list_tags` never writes; `ListTagsIsVisibleNewestFirst` states what it lists and in what order |
| Api.Retrieve | domain/api.py:49-53 | `retrieve` never writes; `VisibleTagIsFound` states that it answers 200 with the row for every tag the caller can see, `HiddenTagIsNotFound` that it answers 404 for every other uuid |
| Api.ScanLookup | domain/api.py:55-69 | `scan_lookup` never writes; `ScanDisclosesOnlyVisible` states its 200/404 answers |
| Api.Register | domain/api.py:71-93 | `register` never removes a row nor lowers the next key; `RegisterUnknownUid` states that it answers 201 exactly when `full_clean()` accepts the new tag (else 500), `RegisterAvailableTag` 200 exactly when it accepts the registered tag (else 400), `RegisterUnavailableTag` 409 otherwise |
| Api.Update | domain/api.py:95-114 | `update` keeps the set of rows and the next key; `UpdateWritesOnlyLabel` states that only the label can change, `UpdateVisibleTag` when it is saved |
| Api.Disconnect | domain/api.py:116-128 | `disconnect` keeps the set of rows and the next key; `DisconnectVisibleTag` states the 200/400 answer and the row it saves |
| Api.Deactivate | domain/api.py:130-138 | `deactivate` keeps the set of rows and the next key; `DeactivateVisibleTag` states the 200/500 answer and the row it saves |
| Api.Delete | domain/api.py:140-151 | `delete` removes at most rows and changes no remaining row; `RequestsTouchOnlyVisibleTags` states that only the caller's named visible tag can go, `DeleteVisibleTag` that it does go |
| Api.Handle | domain/api.py:43-151 | the controller answers 401 to an anonymous caller and never lowers the next key; `HandleKeepsInvariant` and `RequestsTouchOnlyVisibleTags` state the rest |
| Api.VisibleLookup | domain/api.py:52-53 | `get_object_or_404` on the caller's query set finds a tag exactly when the caller can see one with the requested uuid, finds only that tag, and never finds two |
| Api.VisibleTagLookup | domain/api.py:52-53 | every tag the caller can see is the one its own uuid finds |
| Api.VisibleTagIsFound | domain/api.py:49-53 | `retrieve` of a tag the caller can see answers 200 with that row and writes nothing |
| Api.UpdateVisibleTag | domain/api.py:95-114 | `update` of a visible tag with a payload label on a model with the attribute saves the new label (200) exactly when `full_clean()` accepts it, else 500 saving nothing; otherwise 200 with the tag unchanged |
| Api.DisconnectVisibleTag | domain/api.py:116-128 | `disconnect` of a visible tag answers 200 exactly when `full_clean()` accepts it, clearing the owner so that the tag is available again; otherwise 400 saving nothing |
| Api.DeactivateVisibleTag | domain/api.py:130-138 | `deactivate` of a visible tag answers 200 exactly when `full_clean()` accepts it, clearing `active` so the tag leaves the caller's visible set; otherwise 500 saving nothing |
| Api.DeleteVisibleTag | domain/api.py:140-151 | `delete` of a visible tag removes exactly that row (200) unless the database refuses (400, nothing removed); afterwards `retrieve` of its uuid answers 404 |
| Api.HandleKeepsInvariant | domain/api.py:43-151 | every request keeps the table invariant |
| Api.RequestsTouchOnlyVisibleTags | domain/api.py:43-151 | an anonymous caller gets 401; list and scan lookup never write; a request naming a uuid changes or deletes at most the caller's visible tag with that uuid, and every other row survives unchanged |
| Api.HiddenTagIsNotFound | domain/api.py:49-53 | retrieve, update, disconnect, deactivate and delete on a uuid outside the caller's visible set answer 404 and change nothing |
| Api.RegisterUnknownUid | domain/api.py:82-85 | register with an unknown uid answers 201 exactly when the uid is empty or valid and the drawn uuid is unused, saving only the new caller-owned tag under the next key, which the caller can see; otherwise 500 changing nothing |
| Api.RegisterAvailableTag | domain/api.py:87-93 | register on an available tag answers 200 exactly when `full_clean()` accepts the tag, making the caller its owner and changing nothing else; otherwise 400 changing nothing |
| Api.RegisterUnavailableTag | domain/api.py:88-91 | register on an unavailable tag answers 409 and changes nothing, even when the caller owns it |
| Api.ScanDisclosesOnlyVisible | domain/api.py:55-69 | scan lookup answers 200 iff the scanned uid belongs to a tag the caller can see; otherwise it gives the same 404 whether the uid is unknown or hidden; it never writes |
| Api.UpdateWritesOnlyLabel | domain/api.py:95-114 | update keeps every row and every column except the label; without a payload label, or without a label attribute, it writes nothing |
| Api.ListTagsIsVisibleNewestFirst | domain/api.py:43-47 | the list shows each of the caller's visible tags exactly once, only those, by strictly descending uuid |
| Api.CreatedTagIsListed | domain/tests.py:40-60 | a tag created through a user's service appears in that user's list |
| Api.RegisteredTagIsListed | domain/api.py:82-85 | a tag the caller registers under a new uid appears in the caller's list |
| Auth.Subject | config/auth.py:63 | the subject is the `uuid` claim when it is truthy, else the `sub` claim |
| Auth.Provision | config/auth.py:70-76 | `get_or_create` by e-mail returns a row with that e-mail; it fails or finds an existing row without writing; it keeps usernames unique |
| Auth.Authentication | config/auth.py:35-99 | `authenticate` keeps the user table valid and returns only a user of the table; the lemmas below state each branch |
| Auth.NoKeyFailsClosed | config/auth.py:48-49 | with no key or an empty key, every token yields `None` and the user table is unchanged, whatever the decoder |
| Auth.DecodeFailureIsNone | config/auth.py:85-99 | every kind of decode error yields `None` and leaves the user table unchanged |
| Auth.MissingEmailCreatesNoUser | config/auth.py:62-66 | a missing or falsy `email` claim yields `None` and creates no user |
| Auth.AuthenticationKeepsTable | config/auth.py:70-83 | authentication keeps the table invariant; it fails or returns an existing user without writing, or adds exactly the returned row under the next key |
| Auth.NewUserFixupIsNoOp | config/auth.py:78-81 | the username written after creation is the one the user was created with, so that write changes nothing |
| Auth.ExistingUserReturnedUnchanged | config/auth.py:70-83 | the only user with the token's e-mail is returned and nothing is written |
| Auth.NewUserShape | config/auth.py:70-81 | a new user has the token's e-mail, is active, and has username `str(uuid)`, else `str(sub)`, else the e-mail |
| Auth.TakenUsernameFails | config/auth.py:70-76 | when a new user's username is already taken, the insert fails and `None` is returned with no user added |
| Auth.AuthenticatedUserIsUnique | config/auth.py:70-76 | after a successful authentication, the returned user is the only one with the token's e-mail |
| Auth.UserTable.GetOrCreate | config/auth.py:70-76 | performs `Provision` on the table |
| Auth.UserTable.SaveUsername | config/auth.py:80-81 | writes exactly the username of one row |
| Auth.JWTAuthenticationBackend.Authenticate | config/auth.py:35-99 | returns the user, and leaves the table, as `Authentication` says |
| Migration.Step | nfctags/management/commands/migrate_nfctag_data.py:21-31 | one `get_or_create` by uid keeps the target's invariant |
| Migration.Migrate | nfctags/management/commands/migrate_nfctag_data.py:17-31 | the loop keeps the target's invariant |
| Migration.MigrateCounts | nfctags/management/commands/migrate_nfctag_data.py:14-31 | `created + existing` grows by the number of source rows; each created row uses up one key |
| Migration.MigrateKeepsRows | nfctags/management/commands/migrate_nfctag_data.py:21-27 | existing target rows are never changed; every other row is a fresh-key copy of a source row whose uid was absent |
| Migration.MigrateCopiesSource | nfctags/management/commands/migrate_nfctag_data.py:19-27 | afterwards every source uid is in the target, and an absent one was copied with its uid, uuid and owner |
| Migration.PresentCountAgrees | nfctags/management/commands/migrate_nfctag_data.py:28-31 | the count of source uids already present depends only on which of them the table holds |
| Migration.MigrateExistingCount | nfctags/management/commands/migrate_nfctag_data.py:21-31 | `existing` counts exactly the source uids already in the target, and `created` counts the rest |
| Migration.MigrateFailsOnlyOnUuidClash | nfctags/management/commands/migrate_nfctag_data.py:17-27 | the command fails only when a source row with a new uid brings a uuid that is already used |
| Migration.MigrateSucceedsWithoutClash | nfctags/management/commands/migrate_nfctag_data.py:17-27 | without such a clash the command succeeds |
| Migration.MigrateAllPresent | nfctags/management/commands/migrate_nfctag_data.py:21-31 | when every source uid is present, nothing is written and every row counts as existing |
| Migration.MigrateRerun | nfctags/management/commands/migrate_nfctag_data.py:13-31 | a second run creates nothing and reports every source row as existing |
| Migration.Handle | nfctags/management/commands/migrate_nfctag_data.py:13-31 | the counters start at 0; the method leaves the table and returns the counters as `Migrate` says, and on failure restores the table |
| BotanyUtils.ReplaceDashes | botany/utils.py:5 | every `-` becomes a space and every other character is kept |
| BotanyUtils.TitleFromPointwise | botany/utils.py:5 | `title()` keeps the length and decides each character from itself and its left neighbour |
| BotanyUtils.TitlePointwise | botany/utils.py:5 | `title()` keeps the length and decides each character from itself and its left neighbour |
| BotanyUtils.Unslugify | botany/utils.py:4-5 | `unslugify` keeps the length and leaves no `-`; `UnslugifyShape` and `UnslugifyIdempotent` state the title-casing |
| BotanyUtils.UnslugifyShape | botany/utils.py:4-5 | `unslugify` keeps the length, leaves no `-`, and title-cases each position |
| BotanyUtils.UnslugifyIdempotent | botany/utils.py:4-5 | unslugifying an unslugified name changes nothing |
| BotanyUtils.ResolveGbifId | botany/utils.py:8-23 | `None` raises `ValueError` and nothing else does; a looked-up id is always truthy |
| BotanyUtils.DigitsNeedNoLookup | botany/utils.py:15-16 | an all-digit identifier resolves to its integer value, whatever the backbone answers |
| BotanyUtils.DecimalIdResolves | botany/utils.py:15-16 | the decimal spelling of an id resolves to that id |
| BotanyUtils.SlugLooksUpUnslugified | botany/utils.py:18-19 | any other identifier is answered from the lookup of its unslugified form alone |
| BotanyUtils.FalsyUsageKeyIsNone | botany/utils.py:21-23 | a missing, null or `0` `usageKey` resolves to `None` |
| BotanyUtils.TruthyUsageKeyIsReturned | botany/utils.py:21-22 | a truthy `usageKey` is returned as is |
| BotanyServices.GetPlantDetails | botany/services.py:19-39 | an identifier error propagates; details are returned only for an identifier that resolves |
| BotanyServices.DetailsNotFoundBeforeCall | botany/services.py:29-31 | an unresolvable identifier is not found, whatever the details service would answer |
| BotanyServices.DetailsCallOutcome | botany/services.py:33-39 | an exception from the details call becomes `GBIFError`; an answer is returned unchanged |
| BotanyServices.OccurrenceFields | botany/services.py:60 | the given fields are used when non-empty; the result is never empty |
| BotanyServices.ResultsOf | botany/services.py:74 | a missing or null `results` is the empty list |
| BotanyServices.GetPlantOccurrences | botany/services.py:42-79 | a successful call returns a non-empty list; identifier errors propagate |
| BotanyServices.OccurrencesDefaultFields | botany/services.py:60 | no fields, or an empty list, searches the six default fields |
| BotanyServices.OccurrencesFromResults | botany/services.py:74-79 | a missing, null or empty result list is not found; otherwise the list is returned unchanged |
| BotanyServices.CountWithMedia | botany/services.py:127 | the count of entries with truthy media is at most the number of entries; 0 iff none has media, and full iff all do |
| BotanyServices.Summarize | botany/services.py:116-128 | `numOccurrences` is the list length and `numWithMedia <= numOccurrences` |
| BotanyServices.GetPlantSummary | botany/services.py:82-134 | a summary counts at least one occurrence, as many as it returns, and no more with media; `SummaryCounts` and `SummaryErrorsPropagate` state how it combines the two calls, with a default occurrence limit of 300 |
| BotanyServices.SummaryCounts | botany/services.py:116-134 | a summary combines the details and the occurrences the two calls return, counts at least one occurrence, and no more with media than occurrences |
| BotanyServices.SummaryErrorsPropagate | botany/services.py:101-114 | a details error surfaces first, then an occurrences error (not-found included) exactly as raised; the summary fails iff one of them does |
| BotanyServices.ParseSuggestions | botany/services.py:179-192 | no suggestions raises `IndexError`; a missing `gbif_id` raises `KeyError`; otherwise entries are keyed 0..n-1 in input order and the top match is entry 0 |
| BotanyServices.ParseIdentification | botany/services.py:162-177 | the payload echoes the access token, the input and the is-plant probability, merged with the parsed suggestions; parse errors propagate |
| BotanyServices.IdentifyPlant | botany/services.py:148-160 | an identify failure is re-raised; otherwise the result is the parsed identification |
| BotanyServices.IdentifyTopMatch | botany/services.py:179-192 | a successful identification names the first suggestion, with its GBIF id, as the top match and lists every suggestion |

## Left out

- The uid validator (`validate_ascii_mirror_uid`) and the scan parser (`parse_ascii_mirror`) are not part of this model. They are parameters: `validUid` on the table, and `parse` in the API environment.
- Concurrency is not modelled: `transaction.atomic`, row locks and races between requests. The model reads requests one after another, and each service method works on the row as it is in the table when it runs (no stale in-memory instance).
- `full_clean()` is modelled only as the uid's length and validator checks (which Django skips for an empty uid, the column being non-editable) plus `validate_unique` on `uid` and `uuid`. The foreign-key existence check of `user` and the validation of a concrete model's label are not modelled.
- `created_at`/`updated_at` timestamps, pagination (`limit`/`offset`) and the exact JSON shape of response bodies are not modelled.
- `jwt.decode` (signature, algorithm, issuer, audience and expiry checks) is a decoder passed in, which returns claims or an error kind.
- The maximum length of the `email` and `username` columns is not modelled.
- `uuid.uuid4()` is a parameter: the uuid a new tag would get.
- Character cases: `title()`, `isdigit()` and `int()` are modelled for ASCII only. A non-ASCII letter counts as uncased and a non-ASCII digit as a non-digit.
- All network calls are functions passed in: `species.name_backbone`, `species.name_usage`, `occurrences.search` and `PlantApi.identify`. `None` from such a function means the call raised.
- `KindwiseService.__init__` is not modelled (API key, language, details list, classification level). Those settings travel inside the `identify` function.
- Probabilities and coordinates are copied, never computed with.
- The migration command's summary output on stdout is not modelled.
- BotanyServices.ParseIdentification: the in-place `payload.update(...)` of a dict is modelled as one record holding both parts; the two key sets are disjoint, so the merge loses nothing.
- Auth.UserTable.SaveUsername: a username clash on that save is not modelled. Its one caller writes the username the row was just created with.
- Migration.Handle: key values taken from the sequence during a transaction that is rolled back are given back. A database sequence would not give them back; no model property depends on those key values.
- HTML views, forms, URL routing, schemas, the declarative botany and domain models, the botany API layer and the browser script are not part of this model.
