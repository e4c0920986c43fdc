# Credential service: a verified model of its core

The service keeps one MongoDB collection, `credentials`, that holds one
record per person who may log in to the school's applications: a
`userId`, a plain-text `password`, the school `url`, profile names, a
`title`, and the list `appId` of applications the person is entitled to.
The records reach the collection in three ways, and this project models
each of them and what they do together:

- `migration_parents.js` copies every child record that is not on leave
  into a guardian credential. The key is `parentId ?? childID`, and each
  credential is entitled to `'ParentApp'`. The copy is one idempotent
  `bulkWrite` of upserts: `$set` the profile, `$addToSet` the entitlement,
  `$setOnInsert` the `userId`. A clean-up then keeps one credential per
  `userId`, and a validation counts what arrived.
- `migration_emp.js` does the same for staff records whose `title` is not
  `'Left'`. The key is `employeeID ?? null`, and `$set` overwrites the
  whole mapped document, including `appId: ['MENTOR_APP', 'InstituteApp']`.
- The webhook route first runs `extractCredentialsFromBody`. That
  middleware validates `userId`, `password` and `url` and forwards six
  trimmed fields. `receiveCredentialWebhook` then derives `appId` from the
  title and always creates a new `Credential`: it never updates one.

`loginWithCredential` reads the collection. It resolves
`employeeID || parentID || childID` and runs its 400 guards. It then looks
up the first credential that `findOne({ userId })` selects, and answers
401 on a missing credential or a wrong password and 403 on a missing
entitlement. Otherwise it signs a token whose claims carry the stored
title as `role` and the requested application as `appId`.

Before the lookup, mongoose casts the query value to the schema type of
`userId`, a `String` with `trim: true`:

- a string is trimmed;
- a number or boolean becomes its text;
- an array becomes `$in` over its cast elements;
- an array inside that array fails the cast, and the query rejects.

The migrations write through the driver and keep each identity's type.
So a credential whose `userId` is stored as a number is never found, and
never logs anyone in (`Login.NumericUserIdNeverGranted`).

Module layout:

- `values.dfy` (`Values`): JavaScript values and the operators the code
  uses. These are `??`, `||`, `===`, `includes`, `trim`, `filter`, `map`,
  `flatMap` and `new Set`.
- `collection.dfy` (`Collection`): records, MongoDB equality matching, the
  upsert semantics, `bulkWrite` and `deleteMany`. It also holds the
  `CredentialStore` class, whose methods update the collection in place.
- `fieldmap.dfy` (`FieldMap`): the `fieldMapping` projection loop shared
  by both scripts.
- `upsert.dfy` (`Upsert`): what an upsert batch does, its idempotence, and
  which entitlements it keeps or grants.
- `dedup.dfy` (`Dedup`): the `$group` aggregate and the duplicate clean-up
  loop.
- `parents.dfy` (`ParentMigration`) and `employees.dfy`
  (`EmployeeMigration`): the two scripts.
- `middleware.dfy` (`Middleware`), `login.dfy` (`Login`) and `webhook.dfy`
  (`Webhook`): the request handlers. `Webhook` also holds the lemmas that
  connect the webhook to the clean-up and to login.

## Model

| member | source | states |
|---|---|---|
| Values.TrimSpec | src/middleware/auth.js:18-23 | `trim` keeps the longest infix that neither starts nor ends with white space, and everything it cuts is white space |
| Values.TrimEmpty | src/middleware/auth.js:5 | `!v.trim()` holds exactly when the string is nothing but white space |
| Values.TrimOfTrimmed | src/models/Credential.js:5-9 | a string with nothing to trim is stored by a `trim: true` path unchanged |
| Values.TrimIdempotent | src/models/Credential.js:14-18 | trimming twice gives what trimming once gives |
| Values.NumberTextTrimmed | src/models/Credential.js:5-9 | the text a number is cast to is non-empty and has nothing to trim |
| Values.Filter | src/scripts/migration_parents.js:84 | `filter` keeps exactly the elements that pass, and never adds any |
| Values.FilterAll | src/scripts/migration_parents.js:93 | `filter` drops nothing exactly when every element passes |
| Values.Map | src/scripts/migration_parents.js:98 | `map` keeps the length and puts `f(xs[i])` at index `i` |
| Values.FlatMapSingletons | src/scripts/migration_parents.js:91 | `flatMap` with a callback returning one element, as `createDocsForApps` does, is `map` |
| Values.SetSpread | src/scripts/migration_parents.js:218 | `[...new Set(xs)]` has the same values as `xs`, and no two of its elements are the same under SameValueZero: equal primitives, never two array occurrences |
| Values.SetSpreadKeepsArrays | src/scripts/migration_parents.js:218 | every array occurrence of `xs` is kept, in order, since each array is a distinct object |
| Values.SetSpreadSize | src/scripts/migration_parents.js:218 | its length is the number of distinct primitive values of `xs` plus the number of array occurrences |
| Values.DistinctCount | src/scripts/migration_parents.js:230 | a list has as many distinct values as elements exactly when no value repeats, and never more |
| Collection.Matches | src/scripts/migration_parents.js:100 | MongoDB equality on `userId`: equal values, `null` against a missing field, or an array holding the value; its agreement with `$group` is `MatchesIsSameGroup` |
| Collection.MatchesIsSameGroup | src/scripts/migration_parents.js:137 | for a scalar `userId`, the filter `{ userId: k }` selects exactly the documents that `$group` puts in group `k` |
| Collection.UpdateDoc | src/scripts/migration_parents.js:101-120 | an update fails exactly when it adds to an `appId` that is present and not an array; otherwise every field is kept and each `$set` field holds its new value |
| Collection.ApplyOp | src/scripts/migration_parents.js:98-122 | an upsert inserts exactly when nothing matches, growing the collection by one; a failed update leaves the collection unchanged |
| Collection.FirstMatch | src/scripts/migration_parents.js:100 | the filter `{ userId: key }` selects the first record in natural order whose `userId` matches; no earlier record matches; none is returned only when no record matches |
| Collection.AddEach | src/scripts/migration_parents.js:113-115 | `$addToSet` with `$each` keeps the old list as a prefix; the result holds exactly the old and the added values; nothing appended repeats |
| Collection.ApplyBatch | src/scripts/migration_parents.js:125 | with `ordered: false`, every operation is counted once as upserted, matched or failed; modified never exceeds matched; the collection grows by the upserted count |
| Collection.RemoveIds | src/scripts/migration_parents.js:156 | `deleteMany({ _id: { $in: ids } })` leaves exactly the records whose `_id` is not in `ids` |
| Collection.ApplyBatchKeepsOrder | src/scripts/migration_parents.js:125 | a bulk write keeps the `_id`s increasing along the natural order and below the next `_id`: updates keep `_id`, upserts take a fresh one |
| Collection.RemoveIdsKeepsOrder | src/scripts/migration_parents.js:156 | deleting keeps the `_id`s ordered and below the next `_id` |
| Collection.CredentialStore.constructor | src/models/Credential.js:46 | the store starts as the given collection |
| Collection.CredentialStore.Insert | src/controllers/webhookController.js:18 | `create` appends one record with a fresh `_id` and both timestamps `now`; nothing else changes |
| Collection.CredentialStore.UpdateOneUpsert | src/scripts/migration_parents.js:98-122 | one `updateOne` with `upsert: true` moves the store to the state `ApplyOp` gives |
| Collection.CredentialStore.BulkWrite | src/scripts/migration_parents.js:125 | the store and report are exactly those of `ApplyBatch` on the old state |
| Collection.CredentialStore.DeleteMany | src/scripts/migration_parents.js:155-158 | the records become `RemoveIds` of the old ones, and `deletedCount` is the number removed |
| FieldMap.ProjectKeys | src/scripts/migration_parents.js:28-35 | the projection has exactly the target fields of `fieldMapping` |
| FieldMap.ProjectAt | src/scripts/migration_parents.js:29-34 | a target field holds its source property when the source has it, and `null` otherwise |
| FieldMap.MapFields | src/scripts/migration_parents.js:26-35 | the loop builds the projection |
| Upsert.AddEachIdempotent | src/scripts/migration_parents.js:113-115 | adding the same `$each` list twice adds nothing the second time |
| Upsert.ApplyAllAccumulates | src/scripts/migration_parents.js:101-119 | a run of `$addToSet` updates on one document unions all their lists into `appId` and leaves the last `$set` values |
| Upsert.ApplyAllFails | src/scripts/migration_parents.js:113-115 | on a document whose `appId` is present and not an array, every `$addToSet` fails and the document is unchanged |
| Upsert.ApplyAllAbsorbs | src/scripts/migration_parents.js:96 | applying the same updates to a document a second time changes nothing |
| Upsert.FirstMatchIsFirstOfGroup | src/scripts/migration_parents.js:100 | for scalar ids, the record an `updateOne` selects is the first of its key's group, and nothing is selected when the group is empty |
| Upsert.FirstMatchExtend | src/scripts/migration_parents.js:100 | appending records does not change a match already found |
| Upsert.FirstMatchAppended | src/scripts/migration_parents.js:100 | when no record matched, an appended matching record is the one found |
| Upsert.BatchCharacterized | src/scripts/migration_parents.js:125 | after a batch, the old records keep their place, `_id`, `createdAt` and group; every key has a record; each record holds exactly the operations that reached it |
| Upsert.UpsertBatchIdempotent | src/scripts/migration_parents.js:96-125 | running the same upsert batch twice, at any two times, leaves what one run left, apart from `updatedAt` |
| Upsert.ApplyOpKeepsEntitlements | src/scripts/migration_parents.js:113-115 | an operation that only adds to `appId` keeps every record in place, with every entitlement it had |
| Upsert.AccumulatingBatchKeepsEntitlements | src/scripts/migration_parents.js:125 | a batch of such operations never removes or reorders an entitlement |
| Upsert.AccumulatingBatchGrants | src/scripts/migration_parents.js:98-125 | after the batch, the record each filter selects holds every entitlement its operation adds, unless its `appId` is a value that is not an array |
| Upsert.GrantsStep | src/scripts/migration_parents.js:98-122 | an `$addToSet` upsert of `e` that does not fail leaves its filter selecting a record holding `e`, and every scalar filter that selected such a record still does |
| Upsert.UnfailedBatchGrants | src/scripts/migration_parents.js:98-125 | when no operation of a batch of `$addToSet` upserts of `e` fails, every operation's filter selects a record holding `e` afterwards |
| Upsert.UnreachedKeepsOrigin | src/scripts/migration_parents.js:125 | a record whose key no operation names keeps its old document, or, when the batch appended it, has no `appId` |
| Upsert.ReplacingBatchSets | src/scripts/migration_emp.js:89-105 | after a batch without `$addToSet` that `$set`s field `f` to `v`, every selected record holds `v` in `f` |
| Dedup.Members | src/scripts/migration_parents.js:136-139 | the members of a `$group` group are exactly the records with that key, in natural order |
| Dedup.Keys | src/scripts/migration_parents.js:137 | the group keys are exactly the keys present, each once |
| Dedup.Pushes | src/scripts/migration_parents.js:138 | a group's `docs` hold `{ _id, appId }` for each member, in order |
| Dedup.Aggregate | src/scripts/migration_parents.js:133-144 | the aggregation's output is one possible order of the groups `Aggregated` allows |
| Dedup.AggregateIsAggregated | src/scripts/migration_parents.js:133-144 | the aggregate holds exactly the keys with more than one record, each with its pushed members |
| Dedup.GroupsOfSound | src/scripts/migration_parents.js:142 | every group output has `count > 1` and the pushed members of its key |
| Dedup.GroupsOfComplete | src/scripts/migration_parents.js:142 | every key with more than one record has a group |
| Dedup.GroupsOfDistinct | src/scripts/migration_parents.js:136-137 | no two groups share a key |
| Dedup.FindArray | src/scripts/migration_parents.js:149 | `docs.find(d => Array.isArray(d.appId))` gives the first entry with an array `appId`, or none when no entry has one |
| Dedup.SurvivorAt | src/scripts/migration_parents.js:149-150 | a non-empty group's survivor is its first array entry, else its first entry |
| Dedup.KeepId | src/scripts/migration_parents.js:150 | `keepId` exists exactly when the group has entries |
| Dedup.ToDelete | src/scripts/migration_parents.js:151-153 | `toDelete` is exactly the `_id`s of the entries other than `keepId` |
| Dedup.Survivors | src/scripts/migration_parents.js:146-159 | keeps exactly the records that are the survivor of their own group |
| Dedup.Resolved | src/scripts/migration_parents.js:146-159 | the collection after the clean-up holds exactly the records that survive in their group |
| Dedup.ResolvedOnePerKey | src/scripts/migration_parents.js:146-159 | after the clean-up each key has exactly one record, and every key that had a record still has one |
| Dedup.SurvivorRule | src/scripts/migration_parents.js:149-150 | a group member survives exactly when it sits at the survivor index of its group |
| Dedup.ResolveIdempotent | src/scripts/migration_parents.js:146-159 | cleaning up a cleaned collection changes nothing |
| Dedup.NoGroupsAfterResolve | src/scripts/migration_parents.js:142 | after the clean-up, the aggregate finds no group |
| Dedup.DoomedIff | src/scripts/migration_parents.js:151-156 | a record's `_id` is deleted by the loop exactly when it is not its group's survivor |
| Dedup.DoomedAreTheOthers | src/scripts/migration_parents.js:146-159 | deleting every `_id` the loop deletes leaves exactly the survivors |
| Dedup.ResolveDuplicates | src/scripts/migration_parents.js:146-159 | the loop leaves the survivors in natural order, keeps the next `_id`, and `deletedDuplicates` counts the records removed |
| Dedup.MembersHead | src/scripts/migration_parents.js:136-138 | a record with no earlier record of its key heads its group's pushed members |
| Dedup.FirstArraySurvives | src/scripts/migration_parents.js:149-150 | the first record of a group survives the clean-up when its `appId` is an array |
| Dedup.CountByKeys | src/scripts/migration_parents.js:221-224 | with one record per key, the records a filter counts are as many as their distinct keys |
| Dedup.EmptyArraySurvives | src/scripts/migration_parents.js:149 | a credential with `appId: []` is kept over a later one holding `'ParentApp'` |
| ParentMigration.MapDocument | src/scripts/migration_parents.js:25-45 | `mapDocument` builds the projection, then the overrides |
| ParentMigration.OverriddenFields | src/scripts/migration_parents.js:37-42 | the overrides add six fields with their constants and the identity, and leave every other field alone |
| ParentMigration.IdentityChain | src/scripts/migration_parents.js:37 | `userId` is `parentId`, else `childID`, else `null` |
| ParentMigration.MappedDocumentOverrides | src/scripts/migration_parents.js:25-45 | a mapped document has exactly ten fields; `title` is `'Parent'` and `appId` is `['ParentApp']` whatever the source held |
| ParentMigration.ProjectedKeys | src/scripts/migration_parents.js:11-18 | the projection has the six `fieldMapping` targets |
| ParentMigration.MappedDocumentProjected | src/scripts/migration_parents.js:11-15 | the four profile fields hold the father's names, the password and the parent e-mail, or `null` |
| ParentMigration.SourceOperationShape | src/scripts/migration_parents.js:98-123 | a source's operation filters and inserts on its identity, `$set`s the eight profile fields (never `userId` or `appId`), and adds exactly `'ParentApp'` |
| ParentMigration.OperationFor | src/scripts/migration_parents.js:98-123 | the inserted `userId` is the filter key; `$set` never names `userId` or `appId`; every operation adds to `appId` |
| ParentMigration.Operations | src/scripts/migration_parents.js:84-123 | at most one operation per source, each with a key that is not `null` or missing and an `$addToSet` |
| ParentMigration.OneOperationPerContributor | src/scripts/migration_parents.js:84-98 | exactly one operation per source that is not on leave and has an identity, in source order |
| ParentMigration.UpsertInsertsMappedDocument | src/scripts/migration_parents.js:116-121 | with no credential for the identity, one record holding the mapped document is appended |
| ParentMigration.InsertedIsMapped | src/scripts/migration_parents.js:116-119 | the document the upsert inserts is the mapped document |
| ParentMigration.UpsertUpdatesMatch | src/scripts/migration_parents.js:100-115 | an existing credential keeps `_id`, `createdAt` and `userId`, takes the profile fields, and gains `'ParentApp'` unless it had it; other records are unchanged |
| ParentMigration.UpdatedGuardianFields | src/scripts/migration_parents.js:102-115 | the updated document keeps every field `$set` does not name, and every entitlement |
| ParentMigration.UpsertFailsOnScalarAppId | src/scripts/migration_parents.js:113-115 | an existing credential whose `appId` is not an array makes the operation fail and the collection unchanged |
| ParentMigration.OperationsWellFormed | src/scripts/migration_parents.js:98-123 | the operations agree with their filter on `userId`, all add to `appId`, and none `$set`s it |
| ParentMigration.ParentUpsertsIdempotent | src/scripts/migration_parents.js:96 | running the guardian upserts twice leaves what one run left, apart from `updatedAt` |
| ParentMigration.ParentUpsertsKeepEntitlements | src/scripts/migration_parents.js:113-115 | the guardian upserts never remove an entitlement |
| ParentMigration.ParentUpsertsGrant | src/scripts/migration_parents.js:98-125 | after the upserts, each contributing identity has a credential, and the first holds `'ParentApp'` unless its `appId` is not an array |
| ParentMigration.MigrateData | src/scripts/migration_parents.js:54-175 | an empty source changes nothing; an empty batch is rejected; a failed operation stops before the clean-up; otherwise the store is the batch's result cleaned up, with the counts reported; with scalar identities and `userId`s, a migration then passes `validateMigration` |
| ParentMigration.UniqueUserIds | src/scripts/migration_parents.js:212-218 | no two of the ids to count are the same `Set` element, and none is `null` or missing |
| ParentMigration.CountEntitled | src/scripts/migration_parents.js:221-224 | the found count never exceeds the number of credentials, and is zero exactly when no credential has one of the ids and `'ParentApp'` |
| ParentMigration.ValidateMigration | src/scripts/migration_parents.js:210-230 | the found count never exceeds the number of credentials; the expected count is `ExpectedIsDistinctIdentities`; success is `Succeeded` |
| ParentMigration.UniqueUserIdsOfContributors | src/scripts/migration_parents.js:212-218 | the ids to count are `new Set` over the identities of the contributing sources |
| ParentMigration.ExpectedIsDistinctIdentities | src/scripts/migration_parents.js:215-218 | the expected count is the number of distinct non-array identities plus the number of contributing sources whose identity is an array |
| ParentMigration.ExpectedForScalarIdentities | src/scripts/migration_parents.js:215-218 | with no array identity, the expected count is the number of distinct identities |
| ParentMigration.ArrayIdentitiesKeptApart | src/scripts/migration_parents.js:215-218 | two sources whose `parentId` is the same array value give two ids to count |
| ParentMigration.ScalarIdentitiesOf | src/scripts/migration_parents.js:216-218 | the non-array ids are the non-array identities of the contributing sources |
| ParentMigration.IdentitiesOf | src/scripts/migration_parents.js:216 | `parentId ?? childID` of a contributing source is its identity, source by source |
| ParentMigration.ContributorIdsAreKeys | src/scripts/migration_parents.js:98-100 | with scalar identities, the ids of the contributing sources are, one by one, the scalar filter keys of the upserts |
| ParentMigration.UniqueIdsAreKeys | src/scripts/migration_parents.js:215-218 | with scalar identities, the ids to count are exactly the upserts' filter keys, scalar and pairwise different |
| ParentMigration.ScalarIdsDistinct | src/scripts/migration_parents.js:218 | `new Set` values none of which is an array are as many as their distinct values |
| ParentMigration.GrantedSurvives | src/scripts/migration_parents.js:146-159 | an id whose filter selects a record holding `'ParentApp'` keeps, after the clean-up, a counted credential with that key |
| ParentMigration.EntitledKey | src/scripts/migration_parents.js:221-224 | a counted credential's `userId` is one of the ids |
| ParentMigration.EntitledKeys | src/scripts/migration_parents.js:221-224 | when every id selects a record holding `'ParentApp'`, the counted survivors have exactly the ids as keys |
| ParentMigration.UniqueIdsGranted | src/scripts/migration_parents.js:98-125 | after upserts that all succeed, every id to count selects a record holding `'ParentApp'` |
| ParentMigration.MigratedValidates | src/scripts/migration_parents.js:230-234 | with scalar identities and `userId`s, a migration whose upserts all succeed passes the validation: found equals expected |
| EmployeeMigration.MapDocument | src/scripts/migration_emp.js:25-44 | `mapDocument` builds the projection, then the overrides |
| EmployeeMigration.OverriddenFields | src/scripts/migration_emp.js:37-41 | the overrides add five fields and leave every other field, including `title`, as projected |
| EmployeeMigration.IdentityIsEmployeeId | src/scripts/migration_emp.js:37 | `userId` is `employeeID` unless that is `null` or missing, and `null` then; never undefined |
| EmployeeMigration.ProjectedKeys | src/scripts/migration_emp.js:11-18 | the projection has the six `fieldMapping` targets |
| EmployeeMigration.MappedDocumentOverrides | src/scripts/migration_emp.js:25-44 | a mapped document has exactly ten fields; `deviceId` is one space and `appId` is the staff pair whatever the source held |
| EmployeeMigration.MappedDocumentProjected | src/scripts/migration_emp.js:11-16 | the profile fields and `title` hold the source attribute of the same name, or `null` |
| EmployeeMigration.SourceOperationShape | src/scripts/migration_emp.js:89-103 | a source's operation filters on its identity, `$set`s the whole mapped document, adds nothing to `appId` and inserts nothing else |
| EmployeeMigration.NotLeft | src/scripts/migration_emp.js:71 | `$ne: 'Left'` passes a missing `title`, and a string `title` exactly when it is not `'Left'` |
| EmployeeMigration.OperationFor | src/scripts/migration_emp.js:89-103 | the operation for a mapped document; its shape is `SourceOperationShape` |
| EmployeeMigration.Operations | src/scripts/migration_emp.js:81-103 | one operation per fetched record, none adding to `appId` or inserting anything beyond the document |
| EmployeeMigration.OneOperationPerFetched | src/scripts/migration_emp.js:81-89 | exactly one operation per record whose `title` does not match `'Left'`, in source order |
| EmployeeMigration.NullIdentityIsUpserted | src/scripts/migration_emp.js:85-91 | a record without `employeeID` still yields an operation, and its `{ userId: null }` filter also selects credentials with no `userId` |
| EmployeeMigration.UpsertInsertsMappedDocument | src/scripts/migration_emp.js:89-102 | with no credential for the identity, one record holding the mapped document is appended |
| EmployeeMigration.UpsertReplacesMatch | src/scripts/migration_emp.js:91-96 | an existing credential keeps `_id` and `createdAt` and has every mapped field overwritten; other records are unchanged |
| EmployeeMigration.ReplacedFields | src/scripts/migration_emp.js:93-96 | the mapped fields come from the mapped document, so `appId` is exactly the staff pair; other fields are kept |
| EmployeeMigration.StaffUpsertDropsParentApp | src/scripts/migration_emp.js:93-96 | when the identity selects a guardian credential holding `'ParentApp'`, the upsert removes it |
| EmployeeMigration.StaffUpsertDropsParentAppExample | src/scripts/migration_emp.js:39 | such a credential exists |
| EmployeeMigration.OperationsWellFormed | src/scripts/migration_emp.js:89-103 | for scalar identities, the operations agree with their filter on `userId` and none adds to `appId` |
| EmployeeMigration.StaffUpsertsIdempotent | src/scripts/migration_emp.js:87 | running the staff upserts twice leaves what one run left, apart from `updatedAt` |
| EmployeeMigration.ReplacingBatchNeverFails | src/scripts/migration_emp.js:105 | a batch without `$addToSet` has no failed operation |
| EmployeeMigration.StaffUpsertsGrant | src/scripts/migration_emp.js:89-105 | after the upserts, every fetched identity selects a credential whose `appId` is exactly the staff pair |
| EmployeeMigration.MigrateData | src/scripts/migration_emp.js:53-155 | nothing fetched changes nothing; otherwise the batch never fails and the store is its result cleaned up, with the counts reported; from a collection with no `'MENTOR_APP'` credential and scalar identities, `validateMigration` then succeeds exactly when no two fetched records share an identity |
| EmployeeMigration.ValidateMigration | src/scripts/migration_emp.js:190-197 | the expected count is at most the sources and the found count at most the credentials |
| EmployeeMigration.ValidationCounts | src/scripts/migration_emp.js:190-197 | the expected count is the fetched records; the found count is at most the credentials, and equal exactly when all hold `'MENTOR_APP'` |
| EmployeeMigration.UnreachedNotCounted | src/scripts/migration_emp.js:89-105 | from a collection where no credential holds `'MENTOR_APP'`, a credential that holds it after the upserts has a fetched identity as key |
| EmployeeMigration.UpsertedKeyCounted | src/scripts/migration_emp.js:89-155 | every fetched identity keeps, after the clean-up, a credential holding `'MENTOR_APP'` |
| EmployeeMigration.CountedIsFetched | src/scripts/migration_emp.js:191 | from such a collection, a credential the validation counts has a fetched identity as key |
| EmployeeMigration.CountedKeys | src/scripts/migration_emp.js:191 | from such a collection, the keys of the counted survivors are exactly the fetched identities |
| EmployeeMigration.MigratedValidatesIff | src/scripts/migration_emp.js:197-201 | from such a collection, with scalar identities and `userId`s, the migration passes the validation exactly when no two fetched records share an identity |
| Login.ResolveUserId | src/controllers/authController.js:29 | the `userId` is `employeeID`, else `parentID`, else `childID`, and truthy exactly when one of them is |
| Login.TokenClaims | src/controllers/authController.js:4-23 | the requested application replaces the stored list as `appId`, and the subject is the record's `_id` |
| Login.TokenClaimsFields | src/controllers/authController.js:11-20 | the claims carry the stored title as role, the stored ids and names, the requested application as `appId`, and the `_id` as subject |
| Login.CastScalar | src/models/Credential.js:5-9 | the cast of a query value fails exactly on an array; what it gives is never a number, boolean or array, and a string has nothing to trim |
| Login.CastEach | src/models/Credential.js:5-9 | an array's elements cast one by one, failing exactly when one of them is an array |
| Login.CastFilter | src/controllers/authController.js:39 | `{ userId }` casts to `$in` exactly for an array, fails exactly for an array holding an array, and compares only with cast values |
| Login.FirstSelected | src/controllers/authController.js:39 | the first record in natural order the filter selects; no earlier record is selected; none only when no record is |
| Login.FindOne | src/controllers/authController.js:39 | `findOne` rejects exactly when the cast fails; otherwise it returns the first selected record, or nothing when no record is selected |
| Login.FirstSelectedEquals | src/controllers/authController.js:39 | an equality filter finds what the stored-key match finds |
| Login.ScalarQuery | src/controllers/authController.js:39 | a query value that is not an array is looked up as its cast: trimmed, or as its text |
| Login.NeverFound | src/models/Credential.js:5-9 | a stored `userId` that is a number, a boolean or an untrimmed string is never found |
| Login.FirstSelectedExtend | src/controllers/authController.js:39 | appending records does not change a record already found |
| Login.FirstSelectedAppended | src/controllers/authController.js:39 | when nothing was selected, an appended record the filter selects is the one found |
| Login.FindOneExtend | src/controllers/authController.js:39 | appended records change a lookup only when it found nothing |
| Login.FindOneAppended | src/controllers/authController.js:39 | a lookup that found nothing finds an appended record it selects |
| Login.LoginWithCredential | src/controllers/authController.js:26-60 | 400 exactly when a request guard fails; the lookup fails exactly on a failed cast; 401 always says `Invalid credentials`; a token is signed only for a found credential, with the requested `appId` |
| Login.BadRequestIff | src/controllers/authController.js:31-37 | 400 exactly when a request guard fails, with the password and `userId` message taking precedence |
| Login.BadRequestBeforeLookup | src/controllers/authController.js:31-39 | a 400 does not depend on the stored credentials |
| Login.LookupFailedIff | src/controllers/authController.js:39 | the lookup rejects exactly when the request is complete and the resolved `userId` is an array holding an array |
| Login.UnauthorizedIff | src/controllers/authController.js:41-48 | 401 exactly when the request is complete, the cast succeeds, and no credential is selected or the first selected holds another password |
| Login.ForbiddenIff | src/controllers/authController.js:50-52 | 403 exactly when the first selected credential has the password but no array `appId` including the application |
| Login.GrantedIff | src/controllers/authController.js:54-59 | success exactly when every guard passes; the token and `url` then come from the first selected credential |
| Login.GrantedIsEntitled | src/controllers/authController.js:39-52 | a granted login proves a stored credential that the cast `userId` selects, with that password and that application |
| Login.GuardOrder | src/controllers/authController.js:31-52 | a request guard hides the lookup, and a missing credential or wrong password hides the entitlement check |
| Login.NumericUserIdNeverGranted | src/controllers/authController.js:39 | a credential with a numeric `userId` never yields a token; a token comes from another credential, and with that credential alone none is granted |
| Login.GuardianLoginAfterMigration | src/controllers/authController.js:39-59 | after the guardian upserts, a contributing guardian whose submitted id casts to its identity logs in to `'ParentApp'` with the stored password, unless its `appId` is not an array |
| Middleware.CredentialsObjectFields | src/middleware/auth.js:17-24 | the credentials object has exactly the six fields given |
| Middleware.NormalisedFields | src/middleware/auth.js:17-24 | `userId`, `url` and the three names are trimmed, with the name fallbacks; the password is kept |
| Middleware.ExtractCredentials | src/middleware/auth.js:4-27 | a 400 carries one of the three messages; what `next()` receives has exactly the six forwarded fields and the submitted password |
| Middleware.RejectedIff | src/middleware/auth.js:5-15 | the checks run in the order `userId`, `password`, `url`, and the first failing one decides the 400 |
| Middleware.BlankIff | src/middleware/auth.js:5 | a blank value is missing, not a string, or white space only |
| Middleware.CrashedIff | src/middleware/auth.js:21-23 | `trim` throws exactly when the checks pass and a name field chosen for trimming is not a string |
| Middleware.NextIff | src/middleware/auth.js:26 | `next()` is called exactly when every check passes and no name makes `trim` throw, forwarding the normalised object |
| Middleware.TrimmedFromBlank | src/middleware/auth.js:18-20 | a non-blank `userId` or `url` is forwarded trimmed and non-empty |
| Middleware.ForwardedCredentials | src/middleware/auth.js:17-24 | exactly six fields are forwarded, never `email`, `schoolGroupId` or `schoolId`; the password is a non-empty string |
| Middleware.NameFallbacks | src/middleware/auth.js:21-23 | `firstName` falls back to `fname`, and an absent or empty name to `''` |
| Middleware.NormalisedShaped | src/middleware/auth.js:17-24 | whatever passes is forwarded in the credentials shape |
| Middleware.FnameNotForwarded | src/middleware/auth.js:17-26 | whenever `next()` is called, the credentials it receives hold no `fname` field |
| Middleware.ShapedPasses | src/middleware/auth.js:5-15 | credentials of that shape pass every check |
| Middleware.ShapedFixed | src/middleware/auth.js:17-24 | normalising credentials of that shape changes nothing |
| Middleware.ExtractIdempotent | src/middleware/auth.js:17-26 | the forwarded credentials, sent through again, are forwarded unchanged |
| Webhook.AppIdsFor | src/controllers/webhookController.js:11-16 | the list is empty exactly when the title is neither `'Teacher'` nor `'Parent'`, and holds only the three configured application ids |
| Webhook.AppIdsForTitle | src/controllers/webhookController.js:11-16 | with distinct ids, a `'Teacher'` gets the institute then mentor app, a `'Parent'` the scholar app, anyone else nothing; no id twice |
| Webhook.CreatePaths | src/controllers/webhookController.js:18-29 | when `create` succeeds, `userId`, `password` and `url` are present and non-empty, and `appId` is the derived list |
| Webhook.CreateDoc | src/controllers/webhookController.js:18-29 | the stored document has only schema paths, and `appId` as an array of the derived list |
| Webhook.Stored | src/controllers/webhookController.js:11-29 | the stored `appId` is the list derived from the submitted title |
| Webhook.CreateFailsIff | src/models/Credential.js:5-30 | `create` throws exactly when a string path holds an array, or a required path is missing, `null`, empty or white space only |
| Webhook.StoredFields | src/models/Credential.js:3-41 | the stored document has only schema paths, keeps the password, holds the derived `appId` and default `deviceId`, and non-empty required paths |
| Webhook.StoredTrimmed | src/models/Credential.js:8 | a `trim: true` path stores a submitted string trimmed and any other value as given |
| Webhook.CreatedEcho | src/controllers/webhookController.js:31-46 | the 201 echo carries the new `_id` and derived `appId`, no `email` or `schoolGroupId`, and one timestamp twice |
| Webhook.ReceiveCredentialWebhook | src/controllers/webhookController.js:4-47 | an incomplete payload answers 400 and a failing `create` answers 500, neither changing the store; otherwise exactly one record is appended and echoed |
| Webhook.CastTrimmed | src/models/Credential.js:5-9 | a string with nothing to trim is stored as given |
| Webhook.CreateTrimmed | src/models/Credential.js:3-41 | a payload of trimmed strings with the required fields present is stored field for field |
| Webhook.ShapedStored | src/routes/webhookRoutes.js:7 | credentials in the forwarded shape pass the handler's guard, and their six fields are stored as forwarded |
| Webhook.ThroughMiddleware | src/routes/webhookRoutes.js:7 | whatever the middleware forwards passes the guard and is stored without error |
| Webhook.MembersAppend | src/controllers/webhookController.js:18 | appending a record puts it at the end of its own `$group` group, after the members it already had |
| Webhook.AppendMakesDuplicate | src/models/Credential.js:43-44 | with no unique index, a webhook for an existing `userId` makes a duplicate group |
| Webhook.AppendedDistinct | src/controllers/webhookController.js:18 | the appended record has a fresh `_id` |
| Webhook.NoArrayInGroup | src/scripts/migration_parents.js:149 | the survivor search finds no array in a group exactly when no member has an array `appId` |
| Webhook.LastSurvivorIff | src/scripts/migration_parents.js:149-150 | the last member of a group survives exactly when no earlier member has an array `appId` |
| Webhook.AppendedSurvivesIff | src/scripts/migration_parents.js:146-159 | the webhook's record survives the clean-up exactly when no older record of its `userId` has an array `appId` |
| Webhook.AppendedHiddenFromLogin | src/controllers/authController.js:39 | when the lookup already finds a credential, or fails its cast, appending another record does not change the login |
| Webhook.GrantedAppsEntitled | src/controllers/webhookController.js:11-16 | a requested app among those granted for the title is found in the stored `appId` |
| Webhook.AppendedDecidesLogin | src/controllers/authController.js:39-59 | when no earlier credential is selected and the cast `userId` selects the appended record, login is decided by it |
| Webhook.FirstRecordLogsIn | src/controllers/authController.js:26-59 | a first credential created through the webhook logs in, under any truthy id that casts to its `userId`, to any app its title grants, with the title as role and its `_id` as subject |

## Left out

- I/O is not modelled. This covers MongoDB connections, `console` logging,
  `finally` blocks and process exit. The source documents and the target
  collection are parameters.
- `countDocuments()` before the guardian copy is modelled as "the source
  collection is empty". The undefined `SOURCE_DB_NAME` (used at
  `migration_parents.js:62` and `migration_emp.js:61`) is not modelled.
- The `error.code === 11000` branch only logs and then rethrows, so it has
  no state of its own. A failed bulk write is the `BulkWriteFailed`
  outcome.
- `jwt.sign` is not modelled: the secret, `JWT_SECRET`, `expiresIn` and the
  signature. `Login.TokenClaims` models only the claims and subject.
- `User.js`, `fix-indexes.js`, `index.js`, the route wiring and Express
  error handling are not part of this model. A thrown `TypeError` or
  validation error is modelled as `Crashed` or `CreateFailed`; the 500
  status given to it is an assumption.
- `config/constants.js` is not part of this model. `APP_IDS` is the
  parameter `Webhook.AppIds`, so the model does not fix whether
  `APP_IDS.MentorApp` equals the staff script's `'MENTOR_APP'`.
- Webhook.CreatePaths: mongoose would store a number or boolean submitted
  to a `String` path as its text. The model keeps such values as given.
  The middleware only forwards strings, so this does not affect the route.
- Login.LoginWithCredential: when the query cast fails, `findOne`
  rejects and the handler does not catch it. The model answers
  `LookupFailed`; its 500 status is an assumption about Express. The cast
  covers strings, integers, booleans, `null`, missing values and arrays;
  objects and query operators in the body are not modelled.
- Login.GuardianLoginAfterMigration: the guardian is promised a login
  only when the submitted id casts to the stored identity. A numeric
  identity is stored as a number, and `Login.NumericUserIdNeverGranted`
  shows that it never logs in.
- Login.LoginWithCredential reads stored fields directly. It does not
  model mongoose hydration or the `toObject` spread.
- The idempotence and one-per-key lemmas require scalar `userId`s
  (`ScalarIds`, `ScalarIdentities`). An array `userId` matches by element,
  and the model does not follow that case through the batch.
- Collection.ApplyBatch applies the operations one after the other,
  with one timestamp per batch. A server may apply an unordered bulk write
  in any order.
- Dedup.Aggregated: the `$push` members of a group are assumed to follow
  natural order. MongoDB does not promise that order without a `$sort`
  stage, and the order decides which credential survives the clean-up.
- Dedup.Aggregate: the order of `$group` output is left unspecified
  (`Aggregated`). The clean-up's result is proved not to depend on it.
- JavaScript numbers are modelled as integers. `_id` is a natural number,
  which stands for `ObjectId` and its `toString()`.
- The clean-up keeps the first member whose `appId` is an array, even an
  empty one (`Dedup.EmptyArraySurvives`). That is the code as written; a
  rule preferring a non-empty `appId` is not modelled.
- The validation helpers only compare counts and log the result. Their
  `try`/`catch` logging is not modelled.
- ParentMigration.MigratedValidates: the success of the guardian
  validation is proved only for scalar identities and scalar stored
  `userId`s. An array identity is expected once per occurrence, and its
  `$in` count matches by element; the model states that count
  (`ExpectedIsDistinctIdentities`) but not whether the two agree.
- EmployeeMigration.MigratedValidatesIff: the staff verdict is
  characterised only from a collection where no credential holds
  `'MENTOR_APP'`, with scalar identities and `userId`s. Credentials that
  already held it before the run would be counted too.
