/** The guardian migration (`migration_parents.js`): every child record of
    the source collection that is not on leave becomes one upsert of a
    guardian credential keyed by `parentId ?? childID`, entitled to
    `'ParentApp'`; duplicates are then cleaned up, and a read-only
    validation counts what arrived. */
module ParentMigration {
  import opened Values
  import opened Collection
  import opened FieldMap
  import opened Upsert
  import opened Dedup

  // ---------------------------------------------------------------------
  // mapDocument
  // ---------------------------------------------------------------------

  /** `fieldMapping`: target field from source field. */
  const FieldMapping: seq<Rename> := [
    Rename("firstName", "firstNameFather"),
    Rename("lastName", "lastNameFather"),
    Rename("password", "password"),
    Rename("email", "emailAddressOfAParent"),
    Rename("title", "title"),
    Rename("appId", "appId")
  ]

  const ParentApp: Json := Str("ParentApp")

  /** `sourceDoc.parentId ?? sourceDoc.childID ?? null` */
  function Identity(src: Document): Json {
    Coalesce(Coalesce(Get(src, "parentId"), Get(src, "childID")), Null)
  }

  /** The fixed overrides `mapDocument` writes after the projection. */
  function Overridden(projected: Document, id: Json): Document {
    projected["userId" := id]["deviceId" := Str("")]["appId" := Arr([ParentApp])]
      ["title" := Str("Parent")]["url" := SchoolUrl]["schoolId" := SchoolId]
  }

  /** The mapped document: the projection, then the fixed overrides. */
  function MappedDocument(src: Document): Document {
    Overridden(Project(src, FieldMapping), Identity(src))
  }

  /** `mapDocument(sourceDoc)` */
  method MapDocument(src: Document) returns (mapped: Document)
    ensures mapped == MappedDocument(src)
  {
    mapped := MapFields(src, FieldMapping);
    mapped := mapped["userId" := Identity(src)];
    mapped := mapped["deviceId" := Str("")];
    mapped := mapped["appId" := Arr([ParentApp])];
    mapped := mapped["title" := Str("Parent")];
    mapped := mapped["url" := SchoolUrl];
    mapped := mapped["schoolId" := SchoolId];
  }

  /** The fields the overrides write. */
  const OverrideFields: set<string> := {"userId", "deviceId", "appId", "title", "url", "schoolId"}

  /** The overrides add their six fields with their constants (and the
      identity) and leave every other field of the projection alone. */
  lemma OverriddenFields(p: Document, id: Json)
    ensures Overridden(p, id).Keys == p.Keys + OverrideFields
    ensures forall f :: f in p && f !in OverrideFields ==> Overridden(p, id)[f] == p[f]
    ensures Overridden(p, id)["userId"] == id
    ensures Overridden(p, id)["deviceId"] == Str("") && Overridden(p, id)["appId"] == Arr([ParentApp])
    ensures Overridden(p, id)["title"] == Str("Parent")
    ensures Overridden(p, id)["url"] == SchoolUrl && Overridden(p, id)["schoolId"] == SchoolId
  {
  }

  /** The fields of a mapped guardian document. */
  const MappedFields: set<string> :=
    {"firstName", "lastName", "password", "email", "title", "appId", "userId", "deviceId", "url", "schoolId"}

  /** `userId` is `parentId`, else `childID`, else `null`. */
  lemma IdentityChain(src: Document)
    ensures Identity(src) ==
      if !IsNullish(Get(src, "parentId")) then Get(src, "parentId")
      else if !IsNullish(Get(src, "childID")) then Get(src, "childID")
      else Null
  {
  }

  /** A mapped document has exactly the ten target fields; `userId` is the
      identity, and `deviceId`, `appId`, `title`, `url` and `schoolId` take
      their constants, so the source's own `title` and `appId` never
      survive. */
  lemma MappedDocumentOverrides(src: Document)
    ensures MappedDocument(src).Keys == MappedFields
    ensures MappedDocument(src)["userId"] == Identity(src)
    ensures MappedDocument(src)["deviceId"] == Str("") && MappedDocument(src)["appId"] == Arr([ParentApp])
    ensures MappedDocument(src)["title"] == Str("Parent")
    ensures MappedDocument(src)["url"] == SchoolUrl && MappedDocument(src)["schoolId"] == SchoolId
  {
    ProjectedKeys(src);
    OverriddenFields(Project(src, FieldMapping), Identity(src));
  }

  lemma ProjectedKeys(src: Document)
    ensures Project(src, FieldMapping).Keys == {"firstName", "lastName", "password", "email", "title", "appId"}
  {
    ProjectKeys(src, FieldMapping);
    assert Targets(FieldMapping) == {"firstName", "lastName", "password", "email", "title", "appId"};
  }

  /** A mapped profile field holds the source attribute its entry names, or
      `null` when the source lacks it. */
  lemma MappedDocumentProjected(src: Document, i: nat)
    requires i < 4
    ensures Get(MappedDocument(src), FieldMapping[i].target) == Pick(src, FieldMapping[i])
  {
    var fm := FieldMapping;
    var p := Project(src, fm);
    assert fm[i].target !in OverrideFields;
    ProjectAt(src, fm, i);
    OverriddenFields(p, Identity(src));
  }

  /** `createDocsForApps(sourceDoc)` */
  function CreateDocsForApps(src: Document): seq<Document> {
    [MappedDocument(src)]
  }

  // ---------------------------------------------------------------------
  // From source records to upsert operations
  // ---------------------------------------------------------------------

  /** `doc.isLeave !== true` */
  predicate NotOnLeave(src: Document) {
    !StrictEquals(Get(src, "isLeave"), Bool(true))
  }

  /** `doc.userId != null` */
  predicate HasUserId(d: Document) {
    !IsNullish(Get(d, "userId"))
  }

  predicate HasIdentity(src: Document) {
    !IsNullish(Identity(src))
  }

  /** The eight fields `$set` overwrites. */
  const ProfileFields: set<string> :=
    {"firstName", "lastName", "password", "email", "title", "deviceId", "url", "schoolId"}

  /** The `updateOne` built for a mapped document: filter on `userId`, `$set`
      the eight profile fields, `$addToSet` each `appId`, and `$setOnInsert`
      the `userId`. */
  function OperationFor(d: Document): (u: UpdateOne)
    ensures u.setOnInsert == map["userId" := u.key]
    ensures "userId" !in u.setFields && "appId" !in u.setFields
    ensures u.addToAppId.Some?
  {
    UpdateOne(Get(d, "userId"), map f | f in ProfileFields :: Get(d, f), Some(ItemsOf(d)), map["userId" := Get(d, "userId")])
  }

  /** `notLeft` → `flatMap(createDocsForApps)` → `validDocs` → `operations`. */
  function Operations(sources: seq<Document>): (ops: seq<UpdateOne>)
    ensures |ops| <= |sources|
    ensures forall k :: 0 <= k < |ops| ==> !IsNullish(ops[k].key) && ops[k].addToAppId.Some?
  {
    var notLeft := Filter(sources, NotOnLeave);
    var mappedDocs := FlatMap(notLeft, CreateDocsForApps);
    FlatMapSingletons(notLeft, CreateDocsForApps, MappedDocument);
    var validDocs := Filter(mappedDocs, HasUserId);
    assert forall k :: 0 <= k < |validDocs| ==> validDocs[k] in validDocs;
    Map(validDocs, OperationFor)
  }

  /** A source record yields an operation when it is not on leave and has a
      `parentId` or `childID`. */
  predicate Contributes(src: Document) {
    NotOnLeave(src) && HasIdentity(src)
  }

  function Contributors(sources: seq<Document>): seq<Document> {
    Filter(sources, Contributes)
  }

  function SourceOperation(src: Document): UpdateOne {
    OperationFor(MappedDocument(src))
  }

  /** The operation a source yields: keyed and inserted under its identity,
      `$set` the eight profile fields of the mapped document (never `userId`
      or `appId`), and `$addToSet` exactly `'ParentApp'`. */
  lemma SourceOperationShape(src: Document)
    ensures SourceOperation(src).key == Identity(src)
    ensures SourceOperation(src).setOnInsert == map["userId" := Identity(src)]
    ensures SourceOperation(src).addToAppId == Some([ParentApp])
    ensures SourceOperation(src).setFields.Keys == ProfileFields
    ensures "userId" !in SourceOperation(src).setFields && "appId" !in SourceOperation(src).setFields
    ensures forall f :: f in ProfileFields ==> SourceOperation(src).setFields[f] == Get(MappedDocument(src), f)
  {
    MappedDocumentOverrides(src);
  }

  /** The pipeline yields exactly one operation per contributing source, in
      source order, keyed by that source's `parentId ?? childID`; a source
      with `isLeave === true` or with neither id yields none. */
  lemma OneOperationPerContributor(sources: seq<Document>)
    ensures |Operations(sources)| == |Contributors(sources)|
    ensures forall i :: 0 <= i < |Operations(sources)| ==>
      Operations(sources)[i] == SourceOperation(Contributors(sources)[i])
      && Operations(sources)[i].key == Identity(Contributors(sources)[i])
    ensures forall s :: s in Contributors(sources) <==>
      s in sources && Get(s, "isLeave") != Bool(true) && !IsNullish(Identity(s))
  {
    var notLeft := Filter(sources, NotOnLeave);
    FlatMapSingletons(notLeft, CreateDocsForApps, MappedDocument);
    forall s ensures HasUserId(MappedDocument(s)) == HasIdentity(s) {
      MappedDocumentOverrides(s);
    }
    FilterMap(notLeft, MappedDocument, HasUserId, HasIdentity);
    FilterFilter(sources, NotOnLeave, HasIdentity, Contributes);
    var cs := Contributors(sources);
    var ops := Operations(sources);
    forall i | 0 <= i < |ops| ensures ops[i] == SourceOperation(cs[i]) && ops[i].key == Identity(cs[i]) {
      SourceOperationShape(cs[i]);
    }
  }

  // ---------------------------------------------------------------------
  // What one operation does
  // ---------------------------------------------------------------------

  /** No guardian credential is there yet: one record is appended, holding
      exactly the mapped document (its `userId`, the profile fields and
      `appId: ['ParentApp']`), with both timestamps set. */
  lemma UpsertInsertsMappedDocument(c: Snapshot, src: Document, now: Time)
    requires HasIdentity(src) && FirstMatch(c.records, Identity(src)).None?
    ensures ApplyOp(c, SourceOperation(src), now) ==
      Step(Snapshot(c.records + [Record(c.nextId, MappedDocument(src), now, now)], c.nextId + 1), Inserted)
  {
    InsertedIsMapped(src);
  }

  /** The document the upsert inserts is the mapped document. */
  lemma InsertedIsMapped(src: Document)
    ensures InsertDoc(SourceOperation(src)) == MappedDocument(src)
  {
    var d := MappedDocument(src);
    var u := SourceOperation(src);
    MappedDocumentOverrides(src);
    SourceOperationShape(src);
    assert AddEach([], [ParentApp]) == [ParentApp];
    assert InsertDoc(u) == map["userId" := Identity(src)]["appId" := Arr([ParentApp])] + u.setFields;
    Reassembled(d, Identity(src));
  }

  /** A document with the ten mapped fields is its `userId` and `appId`
      plus its eight profile fields. */
  lemma Reassembled(d: Document, k: Json)
    requires d.Keys == MappedFields && d["userId"] == k && d["appId"] == Arr([ParentApp])
    ensures map["userId" := k]["appId" := Arr([ParentApp])] + (map f | f in ProfileFields :: Get(d, f)) == d
  {
    assert MappedFields == ProfileFields + {"userId", "appId"};
  }

  /** A guardian credential is there and its `appId` can take `$addToSet`:
      that record keeps its `_id`, `createdAt` and `userId`, gets the eight
      profile fields of the mapped document, and its `appId` gains
      `'ParentApp'` at the end unless it already held it; its other fields
      and every other record stay as they were. */
  lemma UpsertUpdatesMatch(c: Snapshot, src: Document, now: Time, i: nat)
    requires HasIdentity(src) && FirstMatch(c.records, Identity(src)) == Some(i)
    requires AddableAppId(c.records[i].doc)
    ensures ApplyOp(c, SourceOperation(src), now).outcome != Failed
    ensures ApplyOp(c, SourceOperation(src), now).after.nextId == c.nextId
    ensures |ApplyOp(c, SourceOperation(src), now).after.records| == |c.records|
    ensures forall j :: 0 <= j < |c.records| && j != i ==>
      ApplyOp(c, SourceOperation(src), now).after.records[j] == c.records[j]
    ensures ApplyOp(c, SourceOperation(src), now).after.records[i] ==
      c.records[i].(doc := UpdatedGuardian(c.records[i].doc, src), updatedAt := now)
  {
    var u := SourceOperation(src);
    var d := c.records[i].doc;
    SourceOperationShape(src);
    ApplyOpMatched(c, u, now, i);
    ApplyAdds(d, u);
    assert AddEach(ItemsOf(d), [ParentApp]) == AppendIfAbsent(ItemsOf(d), ParentApp);
    assert UpdateDoc(d, u).Updated?;
  }

  /** `xs` with `x` appended unless it is already there. */
  function AppendIfAbsent(xs: seq<Json>, x: Json): seq<Json> {
    if x in xs then xs else xs + [x]
  }

  /** The document of an updated guardian credential. */
  function UpdatedGuardian(old_: Document, src: Document): Document {
    old_["appId" := Arr(AppendIfAbsent(ItemsOf(old_), ParentApp))] + SourceOperation(src).setFields
  }

  /** `UpdatedGuardian` keeps `userId` and every field `$set` does not name,
      takes the profile fields from the mapped document, and keeps every
      entitlement. */
  lemma UpdatedGuardianFields(d: Document, src: Document)
    ensures UpdatedGuardian(d, src).Keys == d.Keys + ProfileFields + {"appId"}
    ensures Get(UpdatedGuardian(d, src), "userId") == Get(d, "userId")
    ensures forall f :: f in ProfileFields ==> UpdatedGuardian(d, src)[f] == Get(MappedDocument(src), f)
    ensures forall f :: f in d && f !in ProfileFields && f != "appId" ==> UpdatedGuardian(d, src)[f] == d[f]
    ensures AppIdOf(UpdatedGuardian(d, src)).Arr?
    ensures ItemsOf(d) <= AppIdOf(UpdatedGuardian(d, src)).items
    ensures ParentApp in AppIdOf(UpdatedGuardian(d, src)).items
  {
    SourceOperationShape(src);
  }

  /** A guardian credential whose `appId` is a value that is not an array
      makes the operation fail, and the collection is left as it is. */
  lemma UpsertFailsOnScalarAppId(c: Snapshot, src: Document, now: Time, i: nat)
    requires FirstMatch(c.records, Identity(src)) == Some(i)
    requires !AddableAppId(c.records[i].doc)
    ensures ApplyOp(c, SourceOperation(src), now) == Step(c, Failed)
  {
    SourceOperationShape(src);
  }

  // ---------------------------------------------------------------------
  // What the batch does
  // ---------------------------------------------------------------------

  /** No source identity is an array (an array in a `userId` filter matches
      by element, which the consolidation does not intend). */
  ghost predicate ScalarIdentities(sources: seq<Document>) {
    forall s :: s in sources ==> !Identity(s).Arr?
  }

  lemma OperationsWellFormed(sources: seq<Document>)
    requires ScalarIdentities(sources)
    ensures AllWellFormed(Operations(sources)) && Uniform(Operations(sources))
    ensures forall i :: 0 <= i < |Operations(sources)| ==> Accumulating(Operations(sources)[i])
  {
    OneOperationPerContributor(sources);
    var cs := Contributors(sources);
    var ops := Operations(sources);
    forall i | 0 <= i < |ops| ensures WellFormedOp(ops[i]) && Accumulating(ops[i]) && ops[i].addToAppId.Some? {
      assert cs[i] in cs;
      SourceOperationShape(cs[i]);
    }
  }

  /** Running the guardian upserts twice gives the collection one run
      gives, apart from `updatedAt`. */
  lemma ParentUpsertsIdempotent(c: Snapshot, sources: seq<Document>, t1: Time, t2: Time)
    requires ScalarIds(c.records) && ScalarIdentities(sources)
    ensures SameExceptUpdatedAt(ApplyBatch(ApplyBatch(c, Operations(sources), t1).after, Operations(sources), t2).after,
                                ApplyBatch(c, Operations(sources), t1).after)
  {
    OperationsWellFormed(sources);
    UpsertBatchIdempotent(c, Operations(sources), t1, t2);
  }

  /** The guardian upserts never remove an entitlement from a credential
      that was already there. */
  lemma ParentUpsertsKeepEntitlements(c: Snapshot, sources: seq<Document>, now: Time)
    ensures EntitlementsKept(c.records, ApplyBatch(c, Operations(sources), now).after.records)
  {
    var ops := Operations(sources);
    OneOperationPerContributor(sources);
    forall i | 0 <= i < |ops| ensures Accumulating(ops[i]) {
      SourceOperationShape(Contributors(sources)[i]);
    }
    AccumulatingBatchKeepsEntitlements(c, ops, now);
  }

  /** After the guardian upserts, every contributing source's identity has a
      credential, and the first one holds `'ParentApp'` unless its `appId`
      is a value that is not an array. */
  lemma ParentUpsertsGrant(c: Snapshot, sources: seq<Document>, now: Time, s: Document)
    requires ScalarIds(c.records) && ScalarIdentities(sources) && s in Contributors(sources)
    ensures FirstMatch(ApplyBatch(c, Operations(sources), now).after.records, Identity(s)).Some?
    ensures var rs := ApplyBatch(c, Operations(sources), now).after.records;
      var d := rs[FirstMatch(rs, Identity(s)).value].doc;
      AddableAppId(d) ==> AppIdOf(d).Arr? && ParentApp in AppIdOf(d).items
  {
    OneOperationPerContributor(sources);
    OperationsWellFormed(sources);
    var cs := Contributors(sources);
    var x :| 0 <= x < |cs| && cs[x] == s;
    SourceOperationShape(s);
    AccumulatingBatchGrants(c, Operations(sources), now, x);
  }

  // ---------------------------------------------------------------------
  // migrateData
  // ---------------------------------------------------------------------

  /** How `migrateData` ends. `EmptyBatch` is the driver rejecting
      `bulkWrite([])`; `BulkWriteFailed` is a bulk write error after every
      operation was attempted; both are rethrown. */
  datatype MigrationResult =
    | NothingToMigrate
    | EmptyBatch
    | BulkWriteFailed(report: BatchReport)
    | Migrated(report: BatchReport, deletedDuplicates: nat)

  /** `migrateData` against the target collection `store`, given the source
      collection's documents. */
  method MigrateData(sources: seq<Document>, store: CredentialStore, now: Time) returns (result: MigrationResult)
    requires store.Valid()
    modifies store
    ensures store.Valid()
    ensures sources == [] ==> result == NothingToMigrate && store.Value() == old(store.Value())
    ensures sources != [] && Operations(sources) == [] ==>
      result == EmptyBatch && store.Value() == old(store.Value())
    ensures sources != [] && Operations(sources) != [] && ApplyBatch(old(store.Value()), Operations(sources), now).report.failed > 0 ==>
      && result == BulkWriteFailed(ApplyBatch(old(store.Value()), Operations(sources), now).report)
      && store.Value() == ApplyBatch(old(store.Value()), Operations(sources), now).after
    ensures sources != [] && Operations(sources) != [] && ApplyBatch(old(store.Value()), Operations(sources), now).report.failed == 0 ==>
      && result.Migrated?
      && result.report == ApplyBatch(old(store.Value()), Operations(sources), now).report
      && store.records == Resolved(ApplyBatch(old(store.Value()), Operations(sources), now).after.records)
      && store.nextId == ApplyBatch(old(store.Value()), Operations(sources), now).after.nextId
      && result.deletedDuplicates == |ApplyBatch(old(store.Value()), Operations(sources), now).after.records| - |store.records|
    ensures result.Migrated? && ScalarIds(old(store.records)) && ScalarIdentities(sources) ==>
      Succeeded(ValidateMigration(sources, store.records))
  {
    if |sources| == 0 {
      return NothingToMigrate;
    }
    var notLeft := Filter(sources, NotOnLeave);
    var mappedDocs := FlatMap(notLeft, CreateDocsForApps);
    var validDocs := Filter(mappedDocs, HasUserId);
    var operations := Map(validDocs, OperationFor);
    if |operations| == 0 {
      return EmptyBatch;
    }
    assert operations == Operations(sources);
    ghost var batch := ApplyBatch(store.Value(), operations, now);
    var report := store.BulkWrite(operations, now);
    assert store.Value() == batch.after && report == batch.report;
    if report.failed > 0 {
      return BulkWriteFailed(report);
    }
    var groups := Aggregate(store.records);
    var deleted := ResolveDuplicates(store, groups);
    assert store.records == Resolved(batch.after.records);
    result := Migrated(report, deleted);
    if ScalarIds(old(store.records)) && ScalarIdentities(sources) {
      MigratedValidates(old(store.Value()), sources, now);
    }
  }

  // ---------------------------------------------------------------------
  // validateMigration
  // ---------------------------------------------------------------------

  /** The two numbers `validateMigration` compares. */
  datatype Validation = Validation(expected: nat, found: nat)

  /** `validateMigration` reports success when it finds as many credentials
      as it expects. */
  predicate Succeeded(v: Validation) {
    v.found == v.expected
  }

  /** `doc.parentId ?? doc.childID` */
  function ValidUserId(src: Document): Json {
    Coalesce(Get(src, "parentId"), Get(src, "childID"))
  }

  predicate NonNull(v: Json) { !IsNullish(v) }

  /** `uniqueUserIds`: the non-null ids of the sources not on leave, as
      `[...new Set(...)]` keeps them. */
  function UniqueUserIds(sources: seq<Document>): (ids: seq<Json>)
    ensures forall i, j :: 0 <= i < j < |ids| ==> !StrictEquals(ids[i], ids[j])
    ensures forall k :: 0 <= k < |ids| ==> !IsNullish(ids[k])
  {
    var ids := SetSpread(Filter(Map(Filter(sources, NotOnLeave), ValidUserId), NonNull));
    assert forall k :: 0 <= k < |ids| ==> ids[k] in ids;
    ids
  }

  /** `countDocuments({ userId: { $in: ids }, appId: 'ParentApp' })` counts
      this credential. */
  predicate Entitled(ids: seq<Json>, r: Record) {
    (exists k :: k in ids && Matches(UserIdOf(r.doc), k)) && Matches(AppIdOf(r.doc), ParentApp)
  }

  /** `countDocuments({ userId: { $in: ids }, appId: 'ParentApp' })` */
  function CountEntitled(target: seq<Record>, ids: seq<Json>): (n: nat)
    ensures n <= |target|
    ensures n == 0 <==> forall r :: r in target ==> !Entitled(ids, r)
  {
    var counted := Filter(target, (r: Record) => Entitled(ids, r));
    assert counted != [] ==> counted[0] in counted;
    |counted|
  }

  function ValidateMigration(sources: seq<Document>, target: seq<Record>): (v: Validation)
    ensures v.found <= |target|
  {
    var ids := UniqueUserIds(sources);
    Validation(|ids|, CountEntitled(target, ids))
  }

  /** `uniqueUserIds` is `new Set` over the ids of the contributing
      sources. */
  lemma UniqueUserIdsOfContributors(sources: seq<Document>)
    ensures UniqueUserIds(sources) == SetSpread(Map(Contributors(sources), ValidUserId))
  {
    var notLeft := Filter(sources, NotOnLeave);
    forall s ensures NonNull(ValidUserId(s)) == HasIdentity(s) { }
    FilterMap(notLeft, ValidUserId, NonNull, HasIdentity);
    FilterFilter(sources, NotOnLeave, HasIdentity, Contributes);
  }

  predicate HasArrayIdentity(src: Document) { Identity(src).Arr? }

  /** The expected number: one for each distinct identity that is not an
      array, and one for each array identity, since `new Set` tells arrays
      apart by reference. */
  lemma ExpectedIsDistinctIdentities(sources: seq<Document>)
    ensures ValidateMigration(sources, []).expected ==
      |set s | s in Contributors(sources) && !Identity(s).Arr? :: Identity(s)|
      + |Filter(Contributors(sources), HasArrayIdentity)|
  {
    var cs := Contributors(sources);
    UniqueUserIdsOfContributors(sources);
    SetSpreadSize(Map(cs, ValidUserId));
    ScalarIdentitiesOf(cs);
    FilterMap(cs, ValidUserId, IsArray, HasArrayIdentity);
  }

  lemma ScalarIdentitiesOf(cs: seq<Document>)
    requires forall s :: s in cs ==> Contributes(s)
    ensures (set x | x in Map(cs, ValidUserId) && !x.Arr?) == (set s | s in cs && !Identity(s).Arr? :: Identity(s))
  {
    var ids := Map(cs, ValidUserId);
    IdentitiesOf(cs);
    forall x | x in ids && !x.Arr? ensures x in (set s | s in cs && !Identity(s).Arr? :: Identity(s)) {
      var i :| 0 <= i < |ids| && ids[i] == x;
      assert cs[i] in cs;
    }
    forall s | s in cs && !Identity(s).Arr? ensures Identity(s) in ids {
      var i :| 0 <= i < |cs| && cs[i] == s;
      assert ids[i] == Identity(s);
    }
  }

  /** For identities that are not arrays, the expected number is the number
      of distinct identities among the contributing sources. */
  lemma ExpectedForScalarIdentities(sources: seq<Document>)
    requires ScalarIdentities(sources)
    ensures ValidateMigration(sources, []).expected == |set s | s in Contributors(sources) :: Identity(s)|
  {
    var cs := Contributors(sources);
    ExpectedIsDistinctIdentities(sources);
    FilterNone(cs, HasArrayIdentity);
    assert (set s | s in cs && !Identity(s).Arr? :: Identity(s)) == (set s | s in cs :: Identity(s));
  }

  /** Two guardians whose `parentId` is an array, even the same array
      value, are two `Set` elements and two expected credentials. */
  lemma ArrayIdentitiesKeptApart()
    ensures var s: Document := map["parentId" := Arr([Num(1)])];
      |UniqueUserIds([s, s])| == 2
  {
    var s: Document := map["parentId" := Arr([Num(1)])];
    assert NotOnLeave(s) && ValidUserId(s) == Arr([Num(1)]);
    assert Filter([s, s], NotOnLeave) == [s, s];
    assert Map([s, s], ValidUserId) == [Arr([Num(1)]), Arr([Num(1)])];
    assert Filter([Arr([Num(1)]), Arr([Num(1)])], NonNull) == [Arr([Num(1)]), Arr([Num(1)])];
    assert SetSpread([Arr([Num(1)])]) == [Arr([Num(1)])];
  }

  /** For sources that have an identity, `parentId ?? childID` is it. */
  lemma IdentitiesOf(cs: seq<Document>)
    requires forall s :: s in cs ==> Contributes(s)
    ensures forall i :: 0 <= i < |cs| ==> Map(cs, ValidUserId)[i] == Identity(cs[i])
    ensures (set x | x in Map(cs, ValidUserId)) == (set s | s in cs :: Identity(s))
  {
    var ids := Map(cs, ValidUserId);
    forall i | 0 <= i < |cs| ensures ids[i] == Identity(cs[i]) {
      assert cs[i] in cs && HasIdentity(cs[i]);
    }
    forall x | x in ids ensures x in (set s | s in cs :: Identity(s)) {
      var i :| 0 <= i < |ids| && ids[i] == x;
      assert cs[i] in cs;
    }
    forall s | s in cs ensures Identity(s) in ids {
      var i :| 0 <= i < |cs| && cs[i] == s;
      assert ids[i] == Identity(s);
    }
  }

  /** Under scalar identities the ids of the contributing sources are the
      keys of the upsert operations, one by one, and each is a scalar. */
  lemma ContributorIdsAreKeys(sources: seq<Document>)
    requires ScalarIdentities(sources)
    ensures |Map(Contributors(sources), ValidUserId)| == |Operations(sources)|
    ensures forall i :: 0 <= i < |Operations(sources)| ==>
      Map(Contributors(sources), ValidUserId)[i] == Operations(sources)[i].key
      && ScalarKey(Operations(sources)[i].key)
  {
    var cs := Contributors(sources);
    OneOperationPerContributor(sources);
    IdentitiesOf(cs);
    forall i | 0 <= i < |cs| ensures !Identity(cs[i]).Arr? {
      assert cs[i] in cs;
    }
  }

  /** Under scalar identities the unique ids are scalar keys, pairwise
      different, and exactly the keys of the upsert operations. */
  lemma UniqueIdsAreKeys(sources: seq<Document>)
    requires ScalarIdentities(sources)
    ensures forall k :: k in UniqueUserIds(sources) <==>
      exists x :: 0 <= x < |Operations(sources)| && Operations(sources)[x].key == k
    ensures forall k :: k in UniqueUserIds(sources) ==> ScalarKey(k)
    ensures |set k | k in UniqueUserIds(sources)| == |UniqueUserIds(sources)|
  {
    var ops := Operations(sources);
    var keys := Map(Contributors(sources), ValidUserId);
    UniqueUserIdsOfContributors(sources);
    ContributorIdsAreKeys(sources);
    assert forall k :: k in UniqueUserIds(sources) <==> k in keys;
    forall k | k in keys ensures exists x :: 0 <= x < |ops| && ops[x].key == k {
      var i :| 0 <= i < |keys| && keys[i] == k;
    }
    ScalarIdsDistinct(UniqueUserIds(sources));
  }

  /** `new Set` values none of which is an array are pairwise different, so
      there are as many as distinct values. */
  lemma ScalarIdsDistinct(ids: seq<Json>)
    requires forall i, j :: 0 <= i < j < |ids| ==> !StrictEquals(ids[i], ids[j])
    requires forall k :: k in ids ==> ScalarKey(k)
    ensures |set k | k in ids| == |ids|
  {
    forall i, j | 0 <= i < j < |ids| ensures ids[i] != ids[j] {
      assert ids[i] in ids;
    }
    DistinctCount(ids);
  }

  /** A record holding `'ParentApp'` that a scalar id's filter selects
      after the upserts is still there after the clean-up, and is counted. */
  lemma GrantedSurvives(rs: seq<Record>, ids: seq<Json>, k: Json) returns (r: Record)
    requires DistinctIds(rs) && ScalarIds(rs) && k in ids && ScalarKey(k) && Grants(rs, k, ParentApp)
    ensures r in Resolved(rs) && KeyOf(r) == k && Entitled(ids, r)
  {
    var j := FirstMatch(rs, k).value;
    FirstMatchIsFirstOfGroup(rs, k);
    FirstArraySurvives(rs, j);
    r := rs[j];
  }

  /** A counted credential's key is one of the ids. */
  lemma EntitledKey(rs: seq<Record>, ids: seq<Json>, r: Record)
    requires ScalarIds(rs) && r in rs && Entitled(ids, r)
    requires forall k :: k in ids ==> ScalarKey(k)
    ensures KeyOf(r) in ids
  {
    var k :| k in ids && Matches(UserIdOf(r.doc), k);
    var i :| 0 <= i < |rs| && rs[i] == r;
    MatchesIsSameGroup(r.doc, k);
  }

  /** When every id selects a record holding `'ParentApp'`, the credentials
      the clean-up leaves that `countDocuments` counts have exactly the ids
      as their keys. */
  lemma EntitledKeys(rs: seq<Record>, ids: seq<Json>)
    requires DistinctIds(rs) && ScalarIds(rs)
    requires forall k :: k in ids ==> ScalarKey(k) && Grants(rs, k, ParentApp)
    ensures KeysPassing(Resolved(rs), (r: Record) => Entitled(ids, r)) == set k | k in ids
  {
    var out := Resolved(rs);
    var p := (r: Record) => Entitled(ids, r);
    forall k | k in ids ensures k in KeysPassing(out, p) {
      var r := GrantedSurvives(rs, ids, k);
      assert r in out && p(r);
    }
    forall r | r in out && p(r) ensures KeyOf(r) in ids {
      EntitledKey(rs, ids, r);
    }
  }

  /** After upserts that all succeeded, every unique id selects a record
      holding `'ParentApp'`. */
  lemma UniqueIdsGranted(c: Snapshot, sources: seq<Document>, now: Time)
    requires ScalarIds(c.records) && ScalarIdentities(sources)
    requires ApplyBatch(c, Operations(sources), now).report.failed == 0
    ensures ScalarIds(ApplyBatch(c, Operations(sources), now).after.records)
    ensures forall k :: k in UniqueUserIds(sources) ==>
      ScalarKey(k) && Grants(ApplyBatch(c, Operations(sources), now).after.records, k, ParentApp)
  {
    var ops := Operations(sources);
    OperationsWellFormed(sources);
    OneOperationPerContributor(sources);
    forall i | 0 <= i < |ops| ensures ParentApp in ops[i].addToAppId.value {
      SourceOperationShape(Contributors(sources)[i]);
    }
    UnfailedBatchGrants(c, ops, now, ParentApp);
    UniqueIdsAreKeys(sources);
  }

  /** A migration whose upserts all succeeded passes `validateMigration`:
      each unique id keeps exactly one credential after the clean-up, and
      that credential holds `'ParentApp'`. */
  lemma MigratedValidates(c: Snapshot, sources: seq<Document>, now: Time)
    requires IdsOrdered(c) && ScalarIds(c.records) && ScalarIdentities(sources)
    requires ApplyBatch(c, Operations(sources), now).report.failed == 0
    ensures Succeeded(ValidateMigration(sources, Resolved(ApplyBatch(c, Operations(sources), now).after.records)))
  {
    var after := ApplyBatch(c, Operations(sources), now).after;
    var ids := UniqueUserIds(sources);
    UniqueIdsGranted(c, sources, now);
    ApplyBatchKeepsOrder(c, Operations(sources), now);
    OrderedIdsDistinct(after);
    ResolvedOnePerKey(after.records);
    UniqueIdsAreKeys(sources);
    CountByKeys(Resolved(after.records), (r: Record) => Entitled(ids, r));
    EntitledKeys(after.records, ids);
  }
}
