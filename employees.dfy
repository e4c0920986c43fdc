/** The staff migration (`migration_emp.js`): every employee record whose
    `title` is not `'Left'` becomes one upsert of a staff credential keyed
    by `employeeID ?? null`, whose `$set` writes the whole mapped document;
    duplicates are then cleaned up, and a read-only validation compares two
    counts. */
module EmployeeMigration {
  import opened Values
  import opened Collection
  import opened FieldMap
  import opened Upsert
  import opened Dedup
  import ParentMigration

  // ---------------------------------------------------------------------
  // mapDocument
  // ---------------------------------------------------------------------

  /** `fieldMapping`: every target field from the source field of the same
      name. */
  const FieldMapping: seq<Rename> := [
    Rename("firstName", "firstName"),
    Rename("lastName", "lastName"),
    Rename("password", "password"),
    Rename("email", "email"),
    Rename("title", "title"),
    Rename("appId", "appId")
  ]

  const MentorApp: Json := Str("MENTOR_APP")
  const InstituteApp: Json := Str("InstituteApp")

  /** The entitlements every staff credential is given. */
  const StaffApps: Json := Arr([MentorApp, InstituteApp])

  /** `sourceDoc.employeeID ?? null` */
  function Identity(src: Document): Json {
    Coalesce(Get(src, "employeeID"), Null)
  }

  /** The fixed overrides `mapDocument` writes after the projection; the
      source's `title` is left as projected. */
  function Overridden(projected: Document, id: Json): Document {
    projected["userId" := id]["deviceId" := Str(" ")]["appId" := StaffApps]
      ["url" := SchoolUrl]["schoolId" := SchoolId]
  }

  /** The mapped document: the projection, then the fixed overrides. */
  function MappedDocument(src: Document): Document {
    Overridden(Project(src, FieldMapping), Identity(src))
  }

  /** `mapDocument(sourceDoc)` */
  method MapDocument(src: Document) returns (mapped: Document)
    ensures mapped == MappedDocument(src)
  {
    mapped := MapFields(src, FieldMapping);
    mapped := mapped["userId" := Identity(src)];
    mapped := mapped["deviceId" := Str(" ")];
    mapped := mapped["appId" := StaffApps];
    mapped := mapped["url" := SchoolUrl];
    mapped := mapped["schoolId" := SchoolId];
  }

  /** The fields the overrides write. */
  const OverrideFields: set<string> := {"userId", "deviceId", "appId", "url", "schoolId"}

  /** The overrides add their five fields and leave every other field of
      the projection alone. */
  lemma OverriddenFields(p: Document, id: Json)
    ensures Overridden(p, id).Keys == p.Keys + OverrideFields
    ensures forall f :: f in p && f !in OverrideFields ==> Overridden(p, id)[f] == p[f]
    ensures Overridden(p, id)["userId"] == id
    ensures Overridden(p, id)["deviceId"] == Str(" ") && Overridden(p, id)["appId"] == StaffApps
    ensures Overridden(p, id)["url"] == SchoolUrl && Overridden(p, id)["schoolId"] == SchoolId
  {
  }

  /** The fields of a mapped staff document. */
  const MappedFields: set<string> :=
    {"firstName", "lastName", "password", "email", "title", "appId", "userId", "deviceId", "url", "schoolId"}

  /** `userId` is `employeeID` unless that is `null` or missing, and `null`
      then. */
  lemma IdentityIsEmployeeId(src: Document)
    ensures Identity(src) == if IsNullish(Get(src, "employeeID")) then Null else Get(src, "employeeID")
    ensures Identity(src) != Undefined
  {
  }

  lemma ProjectedKeys(src: Document)
    ensures Project(src, FieldMapping).Keys == {"firstName", "lastName", "password", "email", "title", "appId"}
  {
    ProjectKeys(src, FieldMapping);
    assert Targets(FieldMapping) == {"firstName", "lastName", "password", "email", "title", "appId"};
  }

  /** A mapped document has exactly the ten target fields; `userId` is the
      identity, `deviceId` is one space, `appId` is the staff pair whatever
      the source held, and `url` and `schoolId` take their constants. */
  lemma MappedDocumentOverrides(src: Document)
    ensures MappedDocument(src).Keys == MappedFields
    ensures MappedDocument(src)["userId"] == Identity(src)
    ensures MappedDocument(src)["deviceId"] == Str(" ") && MappedDocument(src)["appId"] == StaffApps
    ensures MappedDocument(src)["url"] == SchoolUrl && MappedDocument(src)["schoolId"] == SchoolId
  {
    ProjectedKeys(src);
    OverriddenFields(Project(src, FieldMapping), Identity(src));
  }

  /** Each of the first five mapped fields (the profile fields and `title`)
      holds the source attribute of the same name, or `null` when the source
      lacks it. */
  lemma MappedDocumentProjected(src: Document, i: nat)
    requires i < 5
    ensures Get(MappedDocument(src), FieldMapping[i].target) == Pick(src, FieldMapping[i])
    ensures FieldMapping[i].target == FieldMapping[i].source
  {
    var fm := FieldMapping;
    var p := Project(src, fm);
    assert fm[i].target !in OverrideFields;
    ProjectAt(src, fm, i);
    OverriddenFields(p, Identity(src));
  }

  /** `createDocsForApps(sourceDoc)` */
  function CreateDocsForApps(src: Document): seq<Document> {
    [MappedDocument(src)]
  }

  // ---------------------------------------------------------------------
  // From source records to upsert operations
  // ---------------------------------------------------------------------

  /** The query `{ title: { $ne: 'Left' } }`: a missing `title` passes, and
      an array passes unless it holds `'Left'`. */
  predicate NotLeft(src: Document)
    ensures Get(src, "title") == Undefined ==> NotLeft(src)
    ensures Get(src, "title").Str? ==> (NotLeft(src) <==> Get(src, "title").s != "Left")
  {
    !Matches(Get(src, "title"), Str("Left"))
  }

  /** The source documents `find({ title: { $ne: 'Left' } })` returns. */
  function Fetched(sources: seq<Document>): seq<Document> {
    Filter(sources, NotLeft)
  }

  /** The `updateOne` built for a mapped document: filter on `userId` and
      `$set` the whole document; `$setOnInsert` adds only `createdAt`. */
  function OperationFor(d: Document): UpdateOne {
    UpdateOne(Get(d, "userId"), d, None, map[])
  }

  /** `flatMap(createDocsForApps)` → `operations`: no filter on `userId`. */
  function Operations(sources: seq<Document>): (ops: seq<UpdateOne>)
    ensures |ops| == |Fetched(sources)| <= |sources|
    ensures forall k :: 0 <= k < |ops| ==> ops[k].addToAppId.None? && ops[k].setOnInsert == map[]
  {
    FlatMapSingletons(Fetched(sources), CreateDocsForApps, MappedDocument);
    Map(FlatMap(Fetched(sources), CreateDocsForApps), OperationFor)
  }

  function SourceOperation(src: Document): UpdateOne {
    OperationFor(MappedDocument(src))
  }

  /** The operation a source yields: keyed by its identity, `$set` the
      mapped document, nothing added to `appId`, nothing else on insert. */
  lemma SourceOperationShape(src: Document)
    ensures SourceOperation(src).key == Identity(src)
    ensures SourceOperation(src).setFields == MappedDocument(src)
    ensures SourceOperation(src).addToAppId.None? && SourceOperation(src).setOnInsert == map[]
  {
    MappedDocumentOverrides(src);
  }

  /** Every fetched record yields exactly one operation, in source order,
      keyed by its `employeeID ?? null`; a record with `title: 'Left'`
      yields none. */
  lemma OneOperationPerFetched(sources: seq<Document>)
    ensures |Operations(sources)| == |Fetched(sources)|
    ensures forall i :: 0 <= i < |Operations(sources)| ==>
      Operations(sources)[i] == SourceOperation(Fetched(sources)[i])
      && Operations(sources)[i].key == Identity(Fetched(sources)[i])
    ensures forall s :: s in Fetched(sources) <==> s in sources && !Matches(Get(s, "title"), Str("Left"))
  {
    var fetched := Fetched(sources);
    FlatMapSingletons(fetched, CreateDocsForApps, MappedDocument);
    var ops := Operations(sources);
    forall i | 0 <= i < |ops| ensures ops[i] == SourceOperation(fetched[i]) && ops[i].key == Identity(fetched[i]) {
      SourceOperationShape(fetched[i]);
    }
  }

  /** A fetched record without `employeeID` still yields an operation, and
      its filter is `{ userId: null }`, which also selects credentials with
      no `userId` at all. */
  lemma NullIdentityIsUpserted(sources: seq<Document>, i: nat)
    requires i < |Fetched(sources)| && IsNullish(Get(Fetched(sources)[i], "employeeID"))
    ensures i < |Operations(sources)| && Operations(sources)[i].key == Null
    ensures forall d: Document :: UserIdOf(d) == Undefined ==> Matches(UserIdOf(d), Operations(sources)[i].key)
  {
    OneOperationPerFetched(sources);
  }

  // ---------------------------------------------------------------------
  // What one operation does
  // ---------------------------------------------------------------------

  /** No staff credential is there yet: one record is appended, holding
      exactly the mapped document, with both timestamps set. */
  lemma UpsertInsertsMappedDocument(c: Snapshot, src: Document, now: Time)
    requires FirstMatch(c.records, Identity(src)).None?
    ensures ApplyOp(c, SourceOperation(src), now) ==
      Step(Snapshot(c.records + [Record(c.nextId, MappedDocument(src), now, now)], c.nextId + 1), Inserted)
  {
    var d := MappedDocument(src);
    SourceOperationShape(src);
    MappedDocumentOverrides(src);
    assert InsertDoc(SourceOperation(src)) == (map["userId" := Identity(src)] + map[]) + d;
    KeyAbsorbed(d, Identity(src));
  }

  lemma KeyAbsorbed(d: Document, k: Json)
    requires "userId" in d && d["userId"] == k
    ensures (map["userId" := k] + map[]) + d == d
  {
  }

  /** A staff credential is there: that record keeps its `_id` and
      `createdAt`, every mapped field is overwritten (`appId` included),
      fields the mapped document lacks are kept, and every other record
      stays as it was. */
  lemma UpsertReplacesMatch(c: Snapshot, src: Document, now: Time, i: nat)
    requires FirstMatch(c.records, Identity(src)) == Some(i)
    ensures ApplyOp(c, SourceOperation(src), now).outcome != Failed
    ensures ApplyOp(c, SourceOperation(src), now).after.nextId == c.nextId
    ensures |ApplyOp(c, SourceOperation(src), now).after.records| == |c.records|
    ensures forall j :: 0 <= j < |c.records| && j != i ==>
      ApplyOp(c, SourceOperation(src), now).after.records[j] == c.records[j]
    ensures ApplyOp(c, SourceOperation(src), now).after.records[i] ==
      c.records[i].(doc := c.records[i].doc + MappedDocument(src), updatedAt := now)
  {
    SourceOperationShape(src);
    ApplyOpMatched(c, SourceOperation(src), now, i);
  }

  /** The document of a replaced staff credential: the mapped fields come
      from the mapped document, so `appId` is exactly the staff pair; other
      fields are kept. */
  lemma ReplacedFields(d: Document, src: Document)
    ensures (d + MappedDocument(src)).Keys == d.Keys + MappedFields
    ensures forall f :: f in MappedFields ==> Get(d + MappedDocument(src), f) == Get(MappedDocument(src), f)
    ensures forall f :: f !in MappedFields ==> Get(d + MappedDocument(src), f) == Get(d, f)
    ensures AppIdOf(d + MappedDocument(src)) == StaffApps
  {
    MappedDocumentOverrides(src);
  }

  /** The staff upsert is not monotone in entitlements: when the identity
      selects a guardian credential holding `'ParentApp'`, that credential
      loses `'ParentApp'`. */
  lemma StaffUpsertDropsParentApp(c: Snapshot, src: Document, now: Time, i: nat)
    requires FirstMatch(c.records, Identity(src)) == Some(i)
    requires AppIdOf(c.records[i].doc).Arr? && ParentMigration.ParentApp in AppIdOf(c.records[i].doc).items
    ensures AppIdOf(ApplyOp(c, SourceOperation(src), now).after.records[i].doc) == StaffApps
    ensures !EntitlementsKept(c.records, ApplyOp(c, SourceOperation(src), now).after.records)
  {
    UpsertReplacesMatch(c, src, now, i);
    ReplacedFields(c.records[i].doc, src);
    var after := ApplyOp(c, SourceOperation(src), now).after.records;
    assert ParentMigration.ParentApp !in AppIdOf(after[i].doc).items;
  }

  /** Such a guardian credential exists: one sharing its `userId` with an
      employee record. */
  lemma StaffUpsertDropsParentAppExample()
    ensures var c := Snapshot([Record(0, map["userId" := Str("u1"), "appId" := Arr([ParentMigration.ParentApp])], 0, 0)], 1);
      !EntitlementsKept(c.records, ApplyOp(c, SourceOperation(map["employeeID" := Str("u1")]), 1).after.records)
  {
    var c := Snapshot([Record(0, map["userId" := Str("u1"), "appId" := Arr([ParentMigration.ParentApp])], 0, 0)], 1);
    var src: Document := map["employeeID" := Str("u1")];
    assert Identity(src) == Str("u1");
    assert FirstMatch(c.records, Identity(src)) == Some(0);
    StaffUpsertDropsParentApp(c, src, 1, 0);
  }

  // ---------------------------------------------------------------------
  // What the batch does
  // ---------------------------------------------------------------------

  /** No fetched identity is an array. */
  ghost predicate ScalarIdentities(sources: seq<Document>) {
    forall s :: s in sources ==> !Identity(s).Arr?
  }

  lemma OperationsWellFormed(sources: seq<Document>)
    requires ScalarIdentities(sources)
    ensures AllWellFormed(Operations(sources)) && Uniform(Operations(sources))
    ensures forall i :: 0 <= i < |Operations(sources)| ==> Operations(sources)[i].addToAppId.None?
    ensures forall i :: 0 <= i < |Operations(sources)| ==>
      "appId" in Operations(sources)[i].setFields && Operations(sources)[i].setFields["appId"] == StaffApps
  {
    OneOperationPerFetched(sources);
    var fetched := Fetched(sources);
    var ops := Operations(sources);
    forall i | 0 <= i < |ops|
      ensures WellFormedOp(ops[i]) && ops[i].addToAppId.None?
      ensures "appId" in ops[i].setFields && ops[i].setFields["appId"] == StaffApps
    {
      assert fetched[i] in fetched;
      IdentityIsEmployeeId(fetched[i]);
      SourceOperationShape(fetched[i]);
      MappedDocumentOverrides(fetched[i]);
    }
  }

  /** Running the staff upserts twice gives the collection one run gives,
      apart from `updatedAt`. */
  lemma StaffUpsertsIdempotent(c: Snapshot, sources: seq<Document>, t1: Time, t2: Time)
    requires ScalarIds(c.records) && ScalarIdentities(sources)
    ensures SameExceptUpdatedAt(ApplyBatch(ApplyBatch(c, Operations(sources), t1).after, Operations(sources), t2).after,
                                ApplyBatch(c, Operations(sources), t1).after)
  {
    OperationsWellFormed(sources);
    UpsertBatchIdempotent(c, Operations(sources), t1, t2);
  }

  /** A batch without `$addToSet` never fails. */
  lemma {:induction false} ReplacingBatchNeverFails(c: Snapshot, ops: seq<UpdateOne>, now: Time)
    requires forall i :: 0 <= i < |ops| ==> ops[i].addToAppId.None?
    ensures ApplyBatch(c, ops, now).report.failed == 0
    decreases |ops|
  {
    if ops != [] {
      ReplacingBatchNeverFails(c, ops[..|ops| - 1], now);
    }
  }

  /** After the staff upserts, every fetched record's identity selects a
      credential whose `appId` is exactly the staff pair. */
  lemma StaffUpsertsGrant(c: Snapshot, sources: seq<Document>, now: Time, s: Document)
    requires ScalarIds(c.records) && ScalarIdentities(sources) && s in Fetched(sources)
    ensures FirstMatch(ApplyBatch(c, Operations(sources), now).after.records, Identity(s)).Some?
    ensures var rs := ApplyBatch(c, Operations(sources), now).after.records;
      AppIdOf(rs[FirstMatch(rs, Identity(s)).value].doc) == StaffApps
  {
    OneOperationPerFetched(sources);
    OperationsWellFormed(sources);
    var fetched := Fetched(sources);
    var x :| 0 <= x < |fetched| && fetched[x] == s;
    ReplacingBatchSets(c, Operations(sources), now, x, "appId", StaffApps);
  }

  // ---------------------------------------------------------------------
  // migrateData
  // ---------------------------------------------------------------------

  /** How `migrateData` ends: nothing fetched, or the upserts and the
      clean-up ran. */
  datatype MigrationResult =
    | NothingToMigrate
    | Migrated(report: BatchReport, deletedDuplicates: nat)

  /** `migrateData` against the target collection `store`, given the source
      collection's documents. */
  method MigrateData(sources: seq<Document>, store: CredentialStore, now: Time) returns (result: MigrationResult)
    requires store.Valid()
    modifies store
    ensures store.Valid()
    ensures Fetched(sources) == [] ==> result == NothingToMigrate && store.Value() == old(store.Value())
    ensures Fetched(sources) != [] ==>
      && result.Migrated?
      && result.report == ApplyBatch(old(store.Value()), Operations(sources), now).report
      && result.report.failed == 0
      && store.records == Resolved(ApplyBatch(old(store.Value()), Operations(sources), now).after.records)
      && store.nextId == ApplyBatch(old(store.Value()), Operations(sources), now).after.nextId
      && result.deletedDuplicates == |ApplyBatch(old(store.Value()), Operations(sources), now).after.records| - |store.records|
    ensures result.Migrated? && ScalarIds(old(store.records)) && ScalarIdentities(sources)
            && (forall r :: r in old(store.records) ==> !HoldsMentorApp(r)) ==>
      (ParentMigration.Succeeded(ValidateMigration(sources, store.records)) <==>
       forall i, j :: 0 <= i < j < |Fetched(sources)| ==> Identity(Fetched(sources)[i]) != Identity(Fetched(sources)[j]))
  {
    var totalDocs := |Filter(sources, NotLeft)|;
    if totalDocs == 0 {
      return NothingToMigrate;
    }
    var sourceDocs := Filter(sources, NotLeft);
    var mappedDocs := FlatMap(sourceDocs, CreateDocsForApps);
    var operations := Map(mappedDocs, OperationFor);
    assert operations == Operations(sources);
    ghost var batch := ApplyBatch(store.Value(), operations, now);
    var report := store.BulkWrite(operations, now);
    assert store.Value() == batch.after && report == batch.report;
    assert report.failed == 0 by {
      forall i | 0 <= i < |operations| ensures operations[i].addToAppId.None? { }
      ReplacingBatchNeverFails(old(store.Value()), operations, now);
    }
    var groups := Aggregate(store.records);
    var deleted := ResolveDuplicates(store, groups);
    assert store.records == Resolved(batch.after.records);
    result := Migrated(report, deleted);
    if ScalarIds(old(store.records)) && ScalarIdentities(sources) && forall r :: r in old(store.records) ==> !HoldsMentorApp(r) {
      MigratedValidatesIff(old(store.Value()), sources, now);
    }
  }

  // ---------------------------------------------------------------------
  // validateMigration
  // ---------------------------------------------------------------------

  /** `countDocuments({ appId: 'MENTOR_APP' })` counts this credential. */
  predicate HoldsMentorApp(r: Record) {
    Matches(AppIdOf(r.doc), MentorApp)
  }

  /** The two counts `validateMigration` compares: fetched sources, and
      target credentials entitled to `'MENTOR_APP'`. */
  function ValidateMigration(sources: seq<Document>, target: seq<Record>): (v: ParentMigration.Validation)
    ensures v.expected <= |sources| && v.found <= |target|
  {
    ParentMigration.Validation(|Fetched(sources)|, |Filter(target, HoldsMentorApp)|)
  }

  /** The expected count is the number of fetched records; the found count
      is at most the number of credentials and reaches it exactly when every
      credential holds `'MENTOR_APP'`. */
  lemma ValidationCounts(sources: seq<Document>, target: seq<Record>)
    ensures ValidateMigration(sources, target).expected == |Fetched(sources)|
    ensures ValidateMigration(sources, target).found <= |target|
    ensures ValidateMigration(sources, target).found == |target| <==>
      forall i :: 0 <= i < |target| ==> HoldsMentorApp(target[i])
  {
    FilterAll(target, HoldsMentorApp);
  }

  /** A credential that no staff upsert reached keeps the `appId` it had
      before the batch, so it is counted only if it was counted before. */
  lemma UnreachedNotCounted(c: Snapshot, sources: seq<Document>, now: Time, j: nat)
    requires ScalarIds(c.records) && ScalarIdentities(sources)
    requires forall r :: r in c.records ==> !HoldsMentorApp(r)
    requires j < |ApplyBatch(c, Operations(sources), now).after.records|
    ensures var rs := ApplyBatch(c, Operations(sources), now).after.records;
      HoldsMentorApp(rs[j]) ==> exists x :: 0 <= x < |Operations(sources)| && Operations(sources)[x].key == KeyOf(rs[j])
  {
    var ops := Operations(sources);
    var rs := ApplyBatch(c, ops, now).after.records;
    if forall x :: 0 <= x < |ops| ==> ops[x].key != KeyOf(rs[j]) {
      OperationsWellFormed(sources);
      UnreachedKeepsOrigin(c, ops, now, j);
      if j < |c.records| {
        assert c.records[j] in c.records;
      }
    }
  }

  /** Every fetched identity keeps, after the clean-up, a credential that
      `countDocuments({ appId: 'MENTOR_APP' })` counts. */
  lemma UpsertedKeyCounted(c: Snapshot, sources: seq<Document>, now: Time, x: nat)
    requires IdsOrdered(c) && ScalarIds(c.records) && ScalarIdentities(sources) && x < |Fetched(sources)|
    ensures var rs := ApplyBatch(c, Operations(sources), now).after.records;
      exists r :: r in Resolved(rs) && HoldsMentorApp(r) && KeyOf(r) == Identity(Fetched(sources)[x])
  {
    var ops := Operations(sources);
    var s := ApplyBatch(c, ops, now).after;
    var src := Fetched(sources)[x];
    OneOperationPerFetched(sources);
    OperationsWellFormed(sources);
    assert WellFormedOp(ops[x]);
    BatchCharacterized(c, ops, now);
    ApplyBatchKeepsOrder(c, ops, now);
    OrderedIdsDistinct(s);
    assert src in Fetched(sources);
    StaffUpsertsGrant(c, sources, now, src);
    FirstMatchIsFirstOfGroup(s.records, ops[x].key);
    var j := FirstMatch(s.records, ops[x].key).value;
    FirstArraySurvives(s.records, j);
    assert s.records[j] in Resolved(s.records) && HoldsMentorApp(s.records[j]);
  }

  /** The keys of the credentials `countDocuments` counts after the
      clean-up are exactly the fetched identities. */
  lemma CountedKeys(c: Snapshot, sources: seq<Document>, now: Time)
    requires IdsOrdered(c) && ScalarIds(c.records) && ScalarIdentities(sources)
    requires forall r :: r in c.records ==> !HoldsMentorApp(r)
    ensures KeysPassing(Resolved(ApplyBatch(c, Operations(sources), now).after.records), HoldsMentorApp)
      == set k | k in Map(Fetched(sources), Identity)
  {
    var out := Resolved(ApplyBatch(c, Operations(sources), now).after.records);
    var ids := Map(Fetched(sources), Identity);
    forall k | k in ids ensures k in KeysPassing(out, HoldsMentorApp) {
      var x :| 0 <= x < |ids| && ids[x] == k;
      UpsertedKeyCounted(c, sources, now, x);
    }
    forall r | r in out && HoldsMentorApp(r) ensures KeyOf(r) in ids {
      CountedIsFetched(c, sources, now, r);
    }
  }

  lemma CountedIsFetched(c: Snapshot, sources: seq<Document>, now: Time, r: Record)
    requires ScalarIds(c.records) && ScalarIdentities(sources)
    requires forall r :: r in c.records ==> !HoldsMentorApp(r)
    requires r in ApplyBatch(c, Operations(sources), now).after.records && HoldsMentorApp(r)
    ensures KeyOf(r) in Map(Fetched(sources), Identity)
  {
    var ops := Operations(sources);
    var rs := ApplyBatch(c, ops, now).after.records;
    var j :| 0 <= j < |rs| && rs[j] == r;
    UnreachedNotCounted(c, sources, now, j);
    var x :| 0 <= x < |ops| && ops[x].key == KeyOf(r);
    OneOperationPerFetched(sources);
    assert Map(Fetched(sources), Identity)[x] == KeyOf(r);
  }

  /** From a collection where no credential holds `'MENTOR_APP'`, a
      migration passes `validateMigration` exactly when no two fetched
      records share an `employeeID ?? null`: records that share one are
      upserted into one credential, and the check counts them apart. */
  lemma MigratedValidatesIff(c: Snapshot, sources: seq<Document>, now: Time)
    requires IdsOrdered(c) && ScalarIds(c.records) && ScalarIdentities(sources)
    requires forall r :: r in c.records ==> !HoldsMentorApp(r)
    ensures ParentMigration.Succeeded(ValidateMigration(sources, Resolved(ApplyBatch(c, Operations(sources), now).after.records)))
      <==> forall i, j :: 0 <= i < j < |Fetched(sources)| ==> Identity(Fetched(sources)[i]) != Identity(Fetched(sources)[j])
  {
    var after := ApplyBatch(c, Operations(sources), now).after;
    var ids := Map(Fetched(sources), Identity);
    ApplyBatchKeepsOrder(c, Operations(sources), now);
    OrderedIdsDistinct(after);
    ResolvedOnePerKey(after.records);
    CountByKeys(Resolved(after.records), HoldsMentorApp);
    CountedKeys(c, sources, now);
    DistinctCount(ids);
  }
}
