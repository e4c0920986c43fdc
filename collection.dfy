/** The shared `credentials` collection: its records, the MongoDB query and
    update semantics the scripts and controllers rely on (equality match,
    `updateOne` with `$set` / `$addToSet` / `$setOnInsert` and `upsert`,
    `bulkWrite`, `deleteMany`), and a store object holding the records. */
module Collection {
  import opened Values

  /** A timestamp (`new Date()`), kept opaque. */
  type Time = int

  /** A stored credential: its `_id`, its fields, and the two audit
      timestamps, which are kept apart from the fields. */
  datatype Record = Record(id: nat, doc: Document, createdAt: Time, updatedAt: Time)

  /** The whole collection: its records in natural order and the `_id` the
      next insert receives. */
  datatype Snapshot = Snapshot(records: seq<Record>, nextId: nat)

  function UserIdOf(d: Document): Json { Get(d, "userId") }

  function AppIdOf(d: Document): Json { Get(d, "appId") }

  /** `_id`s increase along the natural order and stay below `nextId`. */
  ghost predicate IdsOrdered(s: Snapshot) {
    && (forall i, j :: 0 <= i < j < |s.records| ==> s.records[i].id < s.records[j].id)
    && (forall i :: 0 <= i < |s.records| ==> s.records[i].id < s.nextId)
  }

  /** MongoDB equality query `{ field: q }` on a field whose value is `v`:
      equal values match, `null` also matches a missing field, and an array
      matches when one of its elements does. */
  predicate Matches(v: Json, q: Json) {
    v == q || (q == Null && v == Undefined) || (v.Arr? && q in v.items)
  }

  /** The `_id` that `$group: { _id: '$userId' }` gives a document: a missing
      `userId` groups with `null`. */
  function DocKey(d: Document): Json {
    var v := UserIdOf(d);
    if v == Undefined then Null else v
  }

  function KeyOf(r: Record): Json { DocKey(r.doc) }

  /** A query key that can be written as `{ userId: k }` and is not an array. */
  predicate ScalarKey(k: Json) { k != Undefined && !k.Arr? }

  /** No stored `userId` is an array. */
  ghost predicate ScalarIds(rs: seq<Record>) {
    forall i :: 0 <= i < |rs| ==> !UserIdOf(rs[i].doc).Arr?
  }

  /** For scalar identities, the equality query on `userId` selects exactly
      the documents of one `$group` group. */
  lemma MatchesIsSameGroup(d: Document, k: Json)
    requires !UserIdOf(d).Arr? && ScalarKey(k)
    ensures Matches(UserIdOf(d), k) <==> DocKey(d) == k
  {
  }

  /** The record an `updateOne` with the filter `{ userId: q }` selects,
      the driver sending `q` as it is: the first record in natural order
      whose `userId` matches. */
  function FirstMatch(rs: seq<Record>, q: Json): (r: Option<nat>)
    ensures r.Some? ==> r.value < |rs| && Matches(UserIdOf(rs[r.value].doc), q)
    ensures r.Some? ==> forall j :: 0 <= j < r.value ==> !Matches(UserIdOf(rs[j].doc), q)
    ensures r.None? ==> forall j :: 0 <= j < |rs| ==> !Matches(UserIdOf(rs[j].doc), q)
  {
    if rs == [] then None
    else if Matches(UserIdOf(rs[0].doc), q) then Some(0)
    else match FirstMatch(rs[1..], q)
      case None => None
      case Some(i) => Some(i + 1)
  }

  /** One `updateOne` of a `bulkWrite`: filter `{ userId: key }`, the `$set`
      fields, the optional `$addToSet: { appId: { $each: ... } }` and the
      `$setOnInsert` fields, with `upsert: true`. The `updatedAt` and
      `createdAt` timestamps the scripts add are carried by the batch. */
  datatype UpdateOne = UpdateOne(key: Json, setFields: Document, addToAppId: Option<seq<Json>>, setOnInsert: Document)

  /** `$addToSet` with `$each`: every element not yet present is appended, in
      order; elements already present, and repeats, are skipped. */
  function AddEach(xs: seq<Json>, each: seq<Json>): (r: seq<Json>)
    ensures |xs| <= |r| && r[..|xs|] == xs
    ensures forall x :: x in r <==> x in xs || x in each
    ensures forall i, j :: |xs| <= i < j < |r| ==> r[i] != r[j]
    ensures forall i, j :: 0 <= i < |xs| <= j < |r| ==> r[i] != r[j]
    decreases |each|
  {
    if each == [] then xs
    else
      var acc := AddEach(xs, each[..|each| - 1]);
      var x := each[|each| - 1];
      assert forall y :: y in each <==> y in each[..|each| - 1] || y == x;
      if x in acc then acc else acc + [x]
  }

  /** What one update does to a matched document. */
  datatype DocResult = Updated(doc: Document) | NonArrayAppId

  /** The effect of an update on a document it matched: `$addToSet` on a
      missing `appId` creates the array, on an array appends what is absent,
      and on any other value fails the operation; `$set` overwrites its
      fields. */
  function UpdateDoc(d: Document, u: UpdateOne): (r: DocResult)
    ensures r.NonArrayAppId? <==> u.addToAppId.Some? && AppIdOf(d) != Undefined && !AppIdOf(d).Arr?
    ensures r.Updated? ==> d.Keys <= r.doc.Keys && forall f :: f in u.setFields ==> f in r.doc && r.doc[f] == u.setFields[f]
  {
    match u.addToAppId
    case None => Updated(d + u.setFields)
    case Some(each) =>
      var cur := AppIdOf(d);
      if cur == Undefined then Updated(d["appId" := Arr(AddEach([], each))] + u.setFields)
      else if cur.Arr? then Updated(d["appId" := Arr(AddEach(cur.items, each))] + u.setFields)
      else NonArrayAppId
  }

  /** The document after the update, or unchanged when the update fails. */
  function Apply(d: Document, u: UpdateOne): Document {
    match UpdateDoc(d, u)
    case Updated(d') => d'
    case NonArrayAppId => d
  }

  /** The document an upsert inserts when nothing matches: the filter's
      equality field, `$setOnInsert`, then the update itself. */
  function InsertDoc(u: UpdateOne): Document {
    Apply(map["userId" := u.key] + u.setOnInsert, u)
  }

  datatype OpOutcome = Inserted | Modified | Unchanged | Failed

  datatype Step = Step(after: Snapshot, outcome: OpOutcome)

  /** One `updateOne` with `upsert: true` applied to the collection at time
      `now`: update the first matching record (bumping `updatedAt`), or
      append a new record (setting both timestamps), or fail and leave the
      collection as it is. */
  function ApplyOp(c: Snapshot, u: UpdateOne, now: Time): (st: Step)
    ensures st.outcome == Inserted <==> FirstMatch(c.records, u.key).None?
    ensures st.outcome == Failed ==> st.after == c
    ensures |st.after.records| == |c.records| + (if st.outcome == Inserted then 1 else 0)
  {
    match FirstMatch(c.records, u.key)
    case None =>
      Step(Snapshot(c.records + [Record(c.nextId, InsertDoc(u), now, now)], c.nextId + 1), Inserted)
    case Some(i) =>
      var r := c.records[i];
      match UpdateDoc(r.doc, u)
      case NonArrayAppId => Step(c, Failed)
      case Updated(d) =>
        var r' := r.(doc := d, updatedAt := now);
        Step(Snapshot(c.records[i := r'], c.nextId), if r' == r then Unchanged else Modified)
  }

  /** The counts `bulkWrite` reports, and how many operations failed. */
  datatype BatchReport = BatchReport(upserted: nat, matched: nat, modified: nat, failed: nat)

  function Tally(rep: BatchReport, o: OpOutcome): BatchReport {
    match o
    case Inserted => rep.(upserted := rep.upserted + 1)
    case Modified => rep.(matched := rep.matched + 1, modified := rep.modified + 1)
    case Unchanged => rep.(matched := rep.matched + 1)
    case Failed => rep.(failed := rep.failed + 1)
  }

  datatype BatchResult = BatchResult(after: Snapshot, report: BatchReport)

  /** `bulkWrite(ops, { ordered: false })`: every operation is attempted, one
      after the other, whatever happened to the others. */
  function ApplyBatch(c: Snapshot, ops: seq<UpdateOne>, now: Time): (res: BatchResult)
    ensures res.report.upserted + res.report.matched + res.report.failed == |ops|
    ensures res.report.modified <= res.report.matched
    ensures |res.after.records| == |c.records| + res.report.upserted
    ensures res.after.nextId == c.nextId + res.report.upserted
  {
    if ops == [] then BatchResult(c, BatchReport(0, 0, 0, 0))
    else
      var prev := ApplyBatch(c, ops[..|ops| - 1], now);
      var step := ApplyOp(prev.after, ops[|ops| - 1], now);
      BatchResult(step.after, Tally(prev.report, step.outcome))
  }

  /** A batch keeps `_id`s increasing along the natural order and below
      `nextId`: an update keeps the record's `_id`, an insert takes
      `nextId`. */
  lemma {:induction false} ApplyBatchKeepsOrder(c: Snapshot, ops: seq<UpdateOne>, now: Time)
    requires IdsOrdered(c)
    ensures IdsOrdered(ApplyBatch(c, ops, now).after)
    decreases |ops|
  {
    if ops != [] {
      ApplyBatchKeepsOrder(c, ops[..|ops| - 1], now);
      var s := ApplyBatch(c, ops[..|ops| - 1], now).after;
      var o := ops[|ops| - 1];
      match FirstMatch(s.records, o.key)
      case None =>
      case Some(i) =>
        assert forall j :: 0 <= j < |s.records| ==> ApplyOp(s, o, now).after.records[j].id == s.records[j].id;
    }
  }

  /** The records left by `deleteMany({ _id: { $in: ids } })`. */
  function RemoveIds(rs: seq<Record>, ids: set<nat>): (r: seq<Record>)
    ensures |r| <= |rs|
    ensures forall x :: x in r <==> x in rs && x.id !in ids
  {
    if rs == [] then []
    else (if rs[0].id in ids then [] else [rs[0]]) + RemoveIds(rs[1..], ids)
  }

  /** `deleteMany` keeps the `_id`s of what is left increasing along the
      natural order and below `nextId`. */
  lemma RemoveIdsKeepsOrder(rs: seq<Record>, ids: set<nat>, s: Snapshot)
    requires s.records == rs && IdsOrdered(s)
    ensures IdsOrdered(Snapshot(RemoveIds(rs, ids), s.nextId))
  {
    if rs != [] {
      RemoveIdsKeepsOrder(rs[1..], ids, Snapshot(rs[1..], s.nextId));
    }
  }

  /** The `credentials` collection, as one shared mutable store. */
  class CredentialStore {
    var records: seq<Record>
    var nextId: nat

    ghost predicate Valid()
      reads this
    {
      IdsOrdered(Snapshot(records, nextId))
    }

    function Value(): Snapshot
      reads this
    {
      Snapshot(records, nextId)
    }

    constructor (initial: Snapshot)
      requires IdsOrdered(initial)
      ensures Valid() && Value() == initial
    {
      records := initial.records;
      nextId := initial.nextId;
    }

    /** `insertOne` / `Model.create`: a new record at the end, with a fresh
        `_id`. */
    method Insert(doc: Document, now: Time) returns (id: nat)
      requires Valid()
      modifies this
      ensures Valid()
      ensures id == old(nextId) && nextId == old(nextId) + 1
      ensures records == old(records) + [Record(id, doc, now, now)]
    {
      id := nextId;
      records := records + [Record(id, doc, now, now)];
      nextId := nextId + 1;
    }

    /** One `updateOne` with `upsert: true`. */
    method UpdateOneUpsert(u: UpdateOne, now: Time) returns (outcome: OpOutcome)
      requires Valid()
      modifies this
      ensures Valid()
      ensures Step(Value(), outcome) == ApplyOp(old(Value()), u, now)
    {
      var step := ApplyOp(Value(), u, now);
      if FirstMatch(records, u.key).None? {
        var _ := Insert(InsertDoc(u), now);
      } else {
        assert forall j :: 0 <= j < |records| ==> step.after.records[j].id == records[j].id;
        records := step.after.records;
      }
      outcome := step.outcome;
    }

    /** `bulkWrite(ops, { ordered: false })`. */
    method BulkWrite(ops: seq<UpdateOne>, now: Time) returns (report: BatchReport)
      requires Valid()
      modifies this
      ensures Valid()
      ensures BatchResult(Value(), report) == ApplyBatch(old(Value()), ops, now)
    {
      report := BatchReport(0, 0, 0, 0);
      var i := 0;
      while i < |ops|
        invariant 0 <= i <= |ops|
        invariant Valid()
        invariant BatchResult(Value(), report) == ApplyBatch(old(Value()), ops[..i], now)
      {
        assert ops[..i + 1][..i] == ops[..i];
        var outcome := UpdateOneUpsert(ops[i], now);
        report := Tally(report, outcome);
        i := i + 1;
      }
      assert ops[..i] == ops;
    }

    /** `deleteMany({ _id: { $in: ids } })`, returning `deletedCount`. */
    method DeleteMany(ids: set<nat>) returns (deleted: nat)
      requires Valid()
      modifies this
      ensures Valid()
      ensures records == RemoveIds(old(records), ids) && nextId == old(nextId)
      ensures deleted == |old(records)| - |records|
    {
      RemoveIdsKeepsOrder(records, ids, Value());
      var before := |records|;
      records := RemoveIds(records, ids);
      deleted := before - |records|;
    }
  }
}
