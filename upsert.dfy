/** What an upsert batch does to the collection, and why running the same
    batch again changes nothing but `updatedAt`. */
module Upsert {
  import opened Values
  import opened Collection

  // ---------------------------------------------------------------------
  // $addToSet with $each
  // ---------------------------------------------------------------------

  /** Adding elements that are all present already changes nothing. */
  lemma {:induction false} AddEachPresent(xs: seq<Json>, each: seq<Json>)
    requires forall x :: x in each ==> x in xs
    ensures AddEach(xs, each) == xs
    decreases |each|
  {
    if each != [] {
      AddEachPresent(xs, each[..|each| - 1]);
    }
  }

  /** Two `$addToSet`s in a row add what one `$addToSet` of both lists adds. */
  lemma {:induction false} AddEachAppend(xs: seq<Json>, a: seq<Json>, b: seq<Json>)
    ensures AddEach(AddEach(xs, a), b) == AddEach(xs, a + b)
    decreases |b|
  {
    if b != [] {
      AddEachAppend(xs, a, b[..|b| - 1]);
      assert (a + b)[..|a + b| - 1] == a + b[..|b| - 1];
      assert (a + b)[|a + b| - 1] == b[|b| - 1];
    } else {
      assert a + b == a;
    }
  }

  /** `$addToSet` is idempotent: nothing is ever added twice. */
  lemma AddEachIdempotent(xs: seq<Json>, each: seq<Json>)
    ensures AddEach(AddEach(xs, each), each) == AddEach(xs, each)
  {
    AddEachPresent(AddEach(xs, each), each);
  }

  // ---------------------------------------------------------------------
  // A sequence of updates applied to one document
  // ---------------------------------------------------------------------

  /** The updates `us` applied to one document, in order. */
  function ApplyAll(d: Document, us: seq<UpdateOne>): Document
    decreases |us|
  {
    if us == [] then d else Apply(ApplyAll(d, us[..|us| - 1]), us[|us| - 1])
  }

  /** The shape the two migration scripts give every operation: the filter
      key is a scalar, `$set` and `$setOnInsert` agree with the filter on
      `userId`, `$setOnInsert` sets nothing else, and `$set` leaves `appId`
      alone when `$addToSet` adds to it. */
  ghost predicate WellFormedOp(u: UpdateOne) {
    && ScalarKey(u.key)
    && ("userId" in u.setFields ==> u.setFields["userId"] == u.key)
    && (forall f :: f in u.setOnInsert ==> f == "userId" && u.setOnInsert[f] == u.key)
    && (u.addToAppId.Some? ==> "appId" !in u.setFields)
  }

  ghost predicate AllWellFormed(us: seq<UpdateOne>) {
    forall i :: 0 <= i < |us| ==> WellFormedOp(us[i])
  }

  /** Every operation adds to `appId` (the guardian script) or none does
      (the staff script). */
  ghost predicate Uniform(us: seq<UpdateOne>) {
    (forall i :: 0 <= i < |us| ==> us[i].addToAppId.Some?)
    || (forall i :: 0 <= i < |us| ==> us[i].addToAppId.None?)
  }

  /** The `$set` fields of all updates, later ones winning. */
  function Flat(us: seq<UpdateOne>): Document
    decreases |us|
  {
    if us == [] then map[] else Flat(us[..|us| - 1]) + us[|us| - 1].setFields
  }

  /** All the `$each` lists, in order. */
  function Cat(us: seq<UpdateOne>): seq<Json>
    decreases |us|
  {
    if us == [] then []
    else Cat(us[..|us| - 1]) + (match us[|us| - 1].addToAppId case Some(e) => e case None => [])
  }

  lemma {:induction false} FlatHasNoAppId(us: seq<UpdateOne>)
    requires AllWellFormed(us) && forall i :: 0 <= i < |us| ==> us[i].addToAppId.Some?
    ensures "appId" !in Flat(us)
    decreases |us|
  {
    if us != [] {
      FlatHasNoAppId(us[..|us| - 1]);
    }
  }

  /** Updates without `$addToSet` only overwrite fields. */
  lemma {:induction false} ApplyAllOverwrites(d: Document, us: seq<UpdateOne>)
    requires forall i :: 0 <= i < |us| ==> us[i].addToAppId.None?
    ensures ApplyAll(d, us) == d + Flat(us)
    decreases |us|
  {
    if us != [] {
      ApplyAllOverwrites(d, us[..|us| - 1]);
      var f := Flat(us[..|us| - 1]);
      var u := us[|us| - 1];
      assert (d + f) + u.setFields == d + (f + u.setFields);
    }
  }

  /** A document whose `appId` `$addToSet` can work on. */
  predicate AddableAppId(d: Document) {
    AppIdOf(d) == Undefined || AppIdOf(d).Arr?
  }

  function ItemsOf(d: Document): seq<Json> {
    if AppIdOf(d).Arr? then AppIdOf(d).items else []
  }

  /** On a document whose `appId` is there and not an array, every
      `$addToSet` fails and the document stays as it is. */
  lemma {:induction false} ApplyAllFails(d: Document, us: seq<UpdateOne>)
    requires !AddableAppId(d)
    requires forall i :: 0 <= i < |us| ==> us[i].addToAppId.Some?
    ensures ApplyAll(d, us) == d
    decreases |us|
  {
    if us != [] {
      ApplyAllFails(d, us[..|us| - 1]);
    }
  }

  /** One `$addToSet` update on a document whose `appId` can take it. */
  lemma ApplyAdds(d: Document, u: UpdateOne)
    requires AddableAppId(d) && u.addToAppId.Some?
    ensures Apply(d, u) == d["appId" := Arr(AddEach(ItemsOf(d), u.addToAppId.value))] + u.setFields
  {
  }

  lemma ReplaceUnderUnion(d: Document, a: Json, b: Json, f: Document, g: Document)
    requires "appId" !in f
    ensures (d["appId" := a] + f)["appId" := b] + g == d["appId" := b] + (f + g)
  {
    var l := (d["appId" := a] + f)["appId" := b] + g;
    var r := d["appId" := b] + (f + g);
    assert l.Keys == r.Keys;
    forall k | k in l ensures l[k] == r[k] { }
  }

  /** On any other document, a non-empty run of `$addToSet` updates unions
      all their lists into `appId` and overwrites the `$set` fields. */
  lemma {:induction false} ApplyAllAccumulates(d: Document, us: seq<UpdateOne>)
    requires AddableAppId(d) && us != []
    requires AllWellFormed(us) && forall i :: 0 <= i < |us| ==> us[i].addToAppId.Some?
    ensures ApplyAll(d, us) == d["appId" := Arr(AddEach(ItemsOf(d), Cat(us)))] + Flat(us)
    decreases |us|
  {
    var init, u := us[..|us| - 1], us[|us| - 1];
    assert WellFormedOp(u) && u.addToAppId.Some?;
    if init == [] {
      assert Cat(us) == u.addToAppId.value;
      assert Flat(us) == u.setFields;
      ApplyAdds(d, u);
    } else {
      ApplyAllAccumulates(d, init);
      FlatHasNoAppId(init);
      var a := Arr(AddEach(ItemsOf(d), Cat(init)));
      var prev := d["appId" := a] + Flat(init);
      assert AppIdOf(prev) == a;
      ApplyAdds(prev, u);
      AddEachAppend(ItemsOf(d), Cat(init), u.addToAppId.value);
      var b := Arr(AddEach(ItemsOf(d), Cat(us)));
      ReplaceUnderUnion(d, a, b, Flat(init), u.setFields);
    }
  }

  /** Applying the same run of updates a second time changes nothing: the
      `$set` fields already hold the last values written, and every
      element `$addToSet` would add is already there. */
  lemma ApplyAllAbsorbs(d: Document, us: seq<UpdateOne>)
    requires AllWellFormed(us) && Uniform(us)
    ensures ApplyAll(ApplyAll(d, us), us) == ApplyAll(d, us)
  {
    if us == [] {
    } else if forall i :: 0 <= i < |us| ==> us[i].addToAppId.None? {
      ApplyAllOverwrites(d, us);
      ApplyAllOverwrites(d + Flat(us), us);
      assert (d + Flat(us)) + Flat(us) == d + Flat(us);
    } else if !AddableAppId(d) {
      ApplyAllFails(d, us);
    } else {
      AbsorbsAdding(d, us);
    }
  }

  lemma AbsorbsAdding(d: Document, us: seq<UpdateOne>)
    requires AllWellFormed(us) && us != [] && AddableAppId(d)
    requires forall i :: 0 <= i < |us| ==> us[i].addToAppId.Some?
    ensures ApplyAll(ApplyAll(d, us), us) == ApplyAll(d, us)
  {
    var items := AddEach(ItemsOf(d), Cat(us));
    var d1 := d["appId" := Arr(items)] + Flat(us);
    ApplyAllAccumulates(d, us);
    assert ApplyAll(d, us) == d1;
    SecondRunAdds(d, us, items);
  }

  /** A second run of the same `$addToSet` updates adds nothing new. */
  lemma SecondRunAdds(d: Document, us: seq<UpdateOne>, items: seq<Json>)
    requires AllWellFormed(us) && us != [] && items == AddEach(ItemsOf(d), Cat(us))
    requires forall i :: 0 <= i < |us| ==> us[i].addToAppId.Some?
    ensures ApplyAll(d["appId" := Arr(items)] + Flat(us), us) == d["appId" := Arr(items)] + Flat(us)
  {
    var d1 := d["appId" := Arr(items)] + Flat(us);
    assert AppIdOf(d1) == Arr(items) by { FlatHasNoAppId(us); }
    assert ApplyAll(d1, us) == d1["appId" := Arr(AddEach(items, Cat(us)))] + Flat(us) by {
      ApplyAllAccumulates(d1, us);
    }
    assert AddEach(items, Cat(us)) == items by { AddEachIdempotent(ItemsOf(d), Cat(us)); }
    assert d1["appId" := Arr(items)] + Flat(us) == d["appId" := Arr(items)] + (Flat(us) + Flat(us)) by {
      FlatHasNoAppId(us);
      ReplaceUnderUnion(d, Arr(items), Arr(items), Flat(us), Flat(us));
    }
    assert Flat(us) + Flat(us) == Flat(us);
  }

  // ---------------------------------------------------------------------
  // Which records a batch touches
  // ---------------------------------------------------------------------

  /** The document an insert starts from: just the filter's `userId`. */
  function Base(k: Json): Document { map["userId" := k] }

  /** A well-formed update keeps the identity of the document it matched. */
  lemma ApplyKeepsKey(d: Document, u: UpdateOne)
    requires WellFormedOp(u) && !UserIdOf(d).Arr? && DocKey(d) == u.key
    ensures DocKey(Apply(d, u)) == u.key && !UserIdOf(Apply(d, u)).Arr?
  {
  }

  lemma InsertDocIsBaseUpdated(u: UpdateOne)
    requires WellFormedOp(u)
    ensures InsertDoc(u) == ApplyAll(Base(u.key), [u])
    ensures DocKey(InsertDoc(u)) == u.key && !UserIdOf(InsertDoc(u)).Arr?
  {
    assert map["userId" := u.key] + u.setOnInsert == Base(u.key);
    assert [u][..0] == [];
    ApplyKeepsKey(Base(u.key), u);
  }

  /** The operations of `ops` whose filter is `k`, in order. */
  function OpsOn(ops: seq<UpdateOne>, k: Json): seq<UpdateOne>
    decreases |ops|
  {
    if ops == [] then []
    else OpsOn(ops[..|ops| - 1], k) + (if ops[|ops| - 1].key == k then [ops[|ops| - 1]] else [])
  }

  lemma {:induction false} OpsOnSelects(ops: seq<UpdateOne>, k: Json)
    ensures forall x :: x in OpsOn(ops, k) ==> x in ops && x.key == k
    decreases |ops|
  {
    if ops != [] {
      OpsOnSelects(ops[..|ops| - 1], k);
    }
  }

  lemma OpsOnAppend(ops: seq<UpdateOne>, o: UpdateOne, k: Json)
    ensures OpsOn(ops + [o], k) == OpsOn(ops, k) + (if o.key == k then [o] else [])
  {
    assert (ops + [o])[..|ops|] == ops;
  }

  lemma {:induction false} OpsOnAbsent(ops: seq<UpdateOne>, k: Json)
    requires forall x :: 0 <= x < |ops| ==> ops[x].key != k
    ensures OpsOn(ops, k) == []
    decreases |ops|
  {
    if ops != [] {
      OpsOnAbsent(ops[..|ops| - 1], k);
    }
  }

  /** Record `j` is the first of its `$group` group in natural order. */
  ghost predicate FirstOfGroup(rs: seq<Record>, j: nat)
    requires j < |rs|
  {
    forall i :: 0 <= i < j ==> KeyOf(rs[i]) != KeyOf(rs[j])
  }

  /** The operations that reach record `j`: an `updateOne` selects the first
      record of the group its filter names, so the first record of each
      group receives every operation on its key, and the others none. */
  ghost function Reaching(rs: seq<Record>, ops: seq<UpdateOne>, j: nat): seq<UpdateOne>
    requires j < |rs|
  {
    if FirstOfGroup(rs, j) then OpsOn(ops, KeyOf(rs[j])) else []
  }

  /** For scalar identities and keys, the record `updateOne` selects is the
      first of the key's group, and nothing is selected when no record is in
      that group. */
  lemma FirstMatchIsFirstOfGroup(rs: seq<Record>, k: Json)
    requires ScalarIds(rs) && ScalarKey(k)
    ensures FirstMatch(rs, k).Some? ==>
      KeyOf(rs[FirstMatch(rs, k).value]) == k && FirstOfGroup(rs, FirstMatch(rs, k).value)
    ensures FirstMatch(rs, k).None? ==> forall j :: 0 <= j < |rs| ==> KeyOf(rs[j]) != k
  {
    forall j | 0 <= j < |rs| ensures Matches(UserIdOf(rs[j].doc), k) <==> KeyOf(rs[j]) == k {
      MatchesIsSameGroup(rs[j].doc, k);
    }
  }

  /** What reaches a record depends only on the groups up to it. */
  lemma ReachingSameKeys(rs: seq<Record>, rs': seq<Record>, ops: seq<UpdateOne>, j: nat)
    requires j < |rs| && j < |rs'|
    requires forall m :: 0 <= m <= j ==> KeyOf(rs'[m]) == KeyOf(rs[m])
    ensures FirstOfGroup(rs', j) == FirstOfGroup(rs, j)
    ensures Reaching(rs', ops, j) == Reaching(rs, ops, j)
  {
  }

  /** The first match depends only on which records match. */
  lemma {:induction false} FirstMatchSameMatches(rs1: seq<Record>, rs2: seq<Record>, k: Json)
    requires |rs1| == |rs2|
    requires forall j :: 0 <= j < |rs1| ==>
      (Matches(UserIdOf(rs1[j].doc), k) <==> Matches(UserIdOf(rs2[j].doc), k))
    ensures FirstMatch(rs1, k) == FirstMatch(rs2, k)
  {
    if rs1 != [] {
      FirstMatchSameMatches(rs1[1..], rs2[1..], k);
    }
  }

  /** Two record lists of scalar identities whose records pairwise share a
      group select the same record for every scalar key. */
  lemma FirstMatchSameKeys(rs1: seq<Record>, rs2: seq<Record>, k: Json)
    requires |rs1| == |rs2| && ScalarIds(rs1) && ScalarIds(rs2) && ScalarKey(k)
    requires forall j :: 0 <= j < |rs1| ==> KeyOf(rs1[j]) == KeyOf(rs2[j])
    ensures FirstMatch(rs1, k) == FirstMatch(rs2, k)
  {
    forall j | 0 <= j < |rs1|
      ensures Matches(UserIdOf(rs1[j].doc), k) <==> Matches(UserIdOf(rs2[j].doc), k)
    {
      MatchesIsSameGroup(rs1[j].doc, k);
      MatchesIsSameGroup(rs2[j].doc, k);
    }
    FirstMatchSameMatches(rs1, rs2, k);
  }

  /** Appending records does not change a match found among the old ones. */
  lemma {:induction false} FirstMatchExtend(rs: seq<Record>, extra: seq<Record>, k: Json)
    requires FirstMatch(rs, k).Some?
    ensures FirstMatch(rs + extra, k) == FirstMatch(rs, k)
  {
    if !Matches(UserIdOf(rs[0].doc), k) {
      assert (rs + extra)[1..] == rs[1..] + extra;
      FirstMatchExtend(rs[1..], extra, k);
    }
  }

  lemma {:induction false} FirstMatchAppended(rs: seq<Record>, r: Record, k: Json)
    requires FirstMatch(rs, k).None? && Matches(UserIdOf(r.doc), k)
    ensures FirstMatch(rs + [r], k) == Some(|rs|)
  {
    if rs != [] {
      assert (rs + [r])[1..] == rs[1..] + [r];
      FirstMatchAppended(rs[1..], r, k);
    }
  }

  // ---------------------------------------------------------------------
  // The effect of a whole batch, record by record
  // ---------------------------------------------------------------------

  /** `s` is what the batch `ops` made of `c`: the old records keep their
      place, `_id`, `createdAt` and group, every operation's key has a
      record, nothing was inserted when every key already had one, and each
      record holds the operations that reached it applied to the document it
      started from (its old document, or just the `userId` of an insert). */
  ghost predicate Characterized(c: Snapshot, ops: seq<UpdateOne>, s: Snapshot) {
    && Carried(c, s)
    && AllMatched(s.records, ops)
    && (AllMatched(c.records, ops) ==> |s.records| == |c.records|)
    && Explained(c, ops, s)
  }

  /** The old records are still there, in place, with their `_id`,
      `createdAt` and group; the new ones have scalar identities. */
  ghost predicate Carried(c: Snapshot, s: Snapshot) {
    var n := |c.records|;
    && n <= |s.records|
    && s.nextId == c.nextId + (|s.records| - n)
    && ScalarIds(s.records)
    && (forall j :: 0 <= j < n ==>
          && s.records[j].id == c.records[j].id
          && s.records[j].createdAt == c.records[j].createdAt
          && KeyOf(s.records[j]) == KeyOf(c.records[j]))
    && (forall j :: n <= j < |s.records| ==> ScalarKey(KeyOf(s.records[j])))
  }

  /** Every operation's filter selects some record of `rs`. */
  ghost predicate AllMatched(rs: seq<Record>, ops: seq<UpdateOne>) {
    forall i :: 0 <= i < |ops| ==> FirstMatch(rs, ops[i].key).Some?
  }

  ghost predicate Explained(c: Snapshot, ops: seq<UpdateOne>, s: Snapshot) {
    forall j :: 0 <= j < |s.records| ==> ExplainedAt(c, ops, s, j)
  }

  ghost predicate ExplainedAt(c: Snapshot, ops: seq<UpdateOne>, s: Snapshot, j: nat) {
    j < |s.records| && s.records[j].doc == ApplyAll(Origin(c, s, j), Reaching(s.records, ops, j))
  }

  /** The document a record started from. */
  function Origin(c: Snapshot, s: Snapshot, j: nat): Document
    requires j < |s.records|
  {
    if j < |c.records| then c.records[j].doc else Base(KeyOf(s.records[j]))
  }

  /** What `ApplyOp` does when the filter selects record `i`. */
  lemma ApplyOpMatched(s: Snapshot, o: UpdateOne, now: Time, i: nat)
    requires FirstMatch(s.records, o.key) == Some(i)
    ensures var rs' := ApplyOp(s, o, now).after.records;
      && |rs'| == |s.records| && ApplyOp(s, o, now).after.nextId == s.nextId
      && rs'[i].doc == Apply(s.records[i].doc, o)
      && rs'[i].id == s.records[i].id && rs'[i].createdAt == s.records[i].createdAt
      && forall j :: 0 <= j < |rs'| && j != i ==> rs'[j] == s.records[j]
  {
  }

  /** What `ApplyOp` does when the filter selects nothing. */
  lemma ApplyOpInserted(s: Snapshot, o: UpdateOne, now: Time)
    requires FirstMatch(s.records, o.key).None?
    ensures ApplyOp(s, o, now).after
            == Snapshot(s.records + [Record(s.nextId, InsertDoc(o), now, now)], s.nextId + 1)
  {
  }

  /** Replacing a record by one of the same group changes no first match. */
  lemma SameGroupReplaced(rs: seq<Record>, rs': seq<Record>, i: nat)
    requires ScalarIds(rs) && i < |rs| && |rs'| == |rs|
    requires forall j :: 0 <= j < |rs'| && j != i ==> rs'[j] == rs[j]
    requires KeyOf(rs'[i]) == KeyOf(rs[i]) && !UserIdOf(rs'[i].doc).Arr?
    ensures ScalarIds(rs')
    ensures forall k :: ScalarKey(k) ==> FirstMatch(rs', k) == FirstMatch(rs, k)
  {
    forall k | ScalarKey(k) ensures FirstMatch(rs', k) == FirstMatch(rs, k) {
      FirstMatchSameKeys(rs', rs, k);
    }
  }

  /** A record's document after one more operation, which reached it
      (`hit`) or not. */
  lemma DocStep(d0: Document, us: seq<UpdateOne>, before: Document, after: Document, o: UpdateOne, hit: bool)
    requires before == ApplyAll(d0, us)
    requires after == if hit then Apply(before, o) else before
    ensures after == ApplyAll(d0, us + (if hit then [o] else []))
  {
    if hit {
      assert (us + [o])[..|us|] == us;
    } else {
      assert us + [] == us;
    }
  }

  /** A record that was there before the operation stays explained: it
      gains the operation exactly when it is the first of the operation's
      group. */
  lemma OldRecordStep(c: Snapshot, ops: seq<UpdateOne>, s: Snapshot, s': Snapshot, o: UpdateOne, j: nat, hit: bool)
    requires j < |s.records| <= |s'.records| && ExplainedAt(c, ops, s, j)
    requires forall m :: 0 <= m <= j ==> KeyOf(s'.records[m]) == KeyOf(s.records[m])
    requires hit <==> FirstOfGroup(s.records, j) && KeyOf(s.records[j]) == o.key
    requires s'.records[j].doc == if hit then Apply(s.records[j].doc, o) else s.records[j].doc
    ensures ExplainedAt(c, ops + [o], s', j)
  {
    ReachingSameKeys(s.records, s'.records, ops + [o], j);
    OpsOnAppend(ops, o, KeyOf(s.records[j]));
    assert Reaching(s'.records, ops + [o], j) == Reaching(s.records, ops, j) + (if hit then [o] else []);
    assert Origin(c, s', j) == Origin(c, s, j);
    DocStep(Origin(c, s, j), Reaching(s.records, ops, j), s.records[j].doc, s'.records[j].doc, o, hit);
  }

  /** The record an operation inserts holds just that operation. */
  lemma NewRecordStep(c: Snapshot, ops: seq<UpdateOne>, s: Snapshot, s': Snapshot, o: UpdateOne)
    requires |s'.records| == |s.records| + 1 && |c.records| <= |s.records|
    requires KeyOf(s'.records[|s.records|]) == o.key
    requires forall m :: 0 <= m < |s.records| ==> KeyOf(s'.records[m]) != o.key
    requires forall x :: 0 <= x < |ops| ==> ops[x].key != o.key
    requires s'.records[|s.records|].doc == Apply(Base(o.key), o)
    ensures ExplainedAt(c, ops + [o], s', |s.records|)
  {
    var n := |s.records|;
    var rs' := s'.records;
    assert FirstOfGroup(rs', n);
    assert Reaching(rs', ops + [o], n) == OpsOn(ops + [o], o.key);
    OpsOnAppend(ops, o, o.key);
    OpsOnAbsent(ops, o.key);
    assert OpsOn(ops + [o], o.key) == [o];
    assert Origin(c, s', n) == Base(o.key);
    DocStep(Base(o.key), [], Base(o.key), rs'[n].doc, o, true);
    assert [] + [o] == [o];
  }

  /** An operation whose filter selects record `i` updates that record only. */
  lemma {:induction false} StepMatched(c: Snapshot, ops: seq<UpdateOne>, s: Snapshot, o: UpdateOne, now: Time, i: nat)
    requires ScalarIds(c.records) && AllWellFormed(ops) && WellFormedOp(o)
    requires Characterized(c, ops, s)
    requires FirstMatch(s.records, o.key) == Some(i)
    ensures Characterized(c, ops + [o], ApplyOp(s, o, now).after)
  {
    var s' := ApplyOp(s, o, now).after;
    var rs, rs' := s.records, s'.records;
    ApplyOpMatched(s, o, now, i);
    assert KeyOf(rs[i]) == o.key && FirstOfGroup(rs, i) by { FirstMatchIsFirstOfGroup(rs, o.key); }
    assert KeyOf(rs'[i]) == KeyOf(rs[i]) && !UserIdOf(rs'[i].doc).Arr? by {
      MatchesIsSameGroup(rs[i].doc, o.key);
      ApplyKeepsKey(rs[i].doc, o);
    }
    SameGroupReplaced(rs, rs', i);
    MatchedAllMatched(rs, rs', ops, o);
    AllMatchedPrefix(c.records, ops, o);
    assert forall j :: 0 <= j < |rs'| ==> KeyOf(rs'[j]) == KeyOf(rs[j]);
    MatchedCarried(c, s, s', i);
    MatchedExplained(c, ops, s, s', o, i);
  }

  /** Updating record `i` in place, within its group, keeps the old records
      carried. */
  lemma MatchedCarried(c: Snapshot, s: Snapshot, s': Snapshot, i: nat)
    requires Carried(c, s) && ScalarIds(s'.records) && s'.nextId == s.nextId
    requires i < |s.records| == |s'.records|
    requires forall j :: 0 <= j < |s'.records| ==> KeyOf(s'.records[j]) == KeyOf(s.records[j])
    requires s'.records[i].id == s.records[i].id && s'.records[i].createdAt == s.records[i].createdAt
    requires forall j :: 0 <= j < |s'.records| && j != i ==> s'.records[j] == s.records[j]
    ensures Carried(c, s')
  {
  }

  lemma MatchedAllMatched(rs: seq<Record>, rs': seq<Record>, ops: seq<UpdateOne>, o: UpdateOne)
    requires AllMatched(rs, ops) && AllWellFormed(ops) && WellFormedOp(o)
    requires forall k :: ScalarKey(k) ==> FirstMatch(rs', k) == FirstMatch(rs, k)
    requires FirstMatch(rs, o.key).Some?
    ensures AllMatched(rs', ops + [o])
  {
    forall x | 0 <= x < |ops + [o]| ensures FirstMatch(rs', (ops + [o])[x].key).Some? {
      if x < |ops| { assert WellFormedOp(ops[x]); } else { assert (ops + [o])[x] == o; }
    }
  }

  lemma AllMatchedPrefix(rs: seq<Record>, ops: seq<UpdateOne>, o: UpdateOne)
    ensures AllMatched(rs, ops + [o]) ==> AllMatched(rs, ops)
  {
    forall x | 0 <= x < |ops| ensures (ops + [o])[x] == ops[x] { }
  }

  /** After an update of record `i`, every record is still explained. */
  lemma MatchedExplained(c: Snapshot, ops: seq<UpdateOne>, s: Snapshot, s': Snapshot, o: UpdateOne, i: nat)
    requires Explained(c, ops, s) && i < |s.records| == |s'.records|
    requires forall j :: 0 <= j < |s'.records| ==> KeyOf(s'.records[j]) == KeyOf(s.records[j])
    requires FirstOfGroup(s.records, i) && KeyOf(s.records[i]) == o.key
    requires s'.records[i].doc == Apply(s.records[i].doc, o)
    requires forall j :: 0 <= j < |s'.records| && j != i ==> s'.records[j] == s.records[j]
    ensures Explained(c, ops + [o], s')
  {
    var rs, rs' := s.records, s'.records;
    forall j: nat | j < |rs'| ensures ExplainedAt(c, ops + [o], s', j) {
      assert ExplainedAt(c, ops, s, j);
      assert j == i <==> FirstOfGroup(rs, j) && KeyOf(rs[j]) == o.key;
      OldRecordStep(c, ops, s, s', o, j, j == i);
    }
  }

  /** A key the old records had is matched among the carried-over ones. */
  lemma OldKeyStillMatched(c: Snapshot, s: Snapshot, k: Json)
    requires ScalarIds(c.records) && ScalarKey(k) && Carried(c, s)
    requires FirstMatch(c.records, k).Some?
    ensures FirstMatch(s.records, k).Some?
  {
    var m := FirstMatch(c.records, k).value;
    MatchesIsSameGroup(c.records[m].doc, k);
    MatchesIsSameGroup(s.records[m].doc, k);
  }

  /** An operation whose filter selects nothing appends one record. */
  lemma {:induction false} StepInserted(c: Snapshot, ops: seq<UpdateOne>, s: Snapshot, o: UpdateOne, now: Time)
    requires ScalarIds(c.records) && AllWellFormed(ops) && WellFormedOp(o)
    requires Characterized(c, ops, s)
    requires FirstMatch(s.records, o.key).None?
    ensures Characterized(c, ops + [o], ApplyOp(s, o, now).after)
  {
    var s' := ApplyOp(s, o, now).after;
    var rs := s.records;
    var r := Record(s.nextId, InsertDoc(o), now, now);
    ApplyOpInserted(s, o, now);
    assert s'.records == rs + [r] && (rs + [r])[..|rs|] == rs;
    InsertDocIsBaseUpdated(o);
    assert [o][..0] == [];
    MatchesIsSameGroup(r.doc, o.key);
    FirstMatchAppended(rs, r, o.key);
    FirstMatchIsFirstOfGroup(rs, o.key);
    InsertedCarried(c, s, s', r);
    UnmatchedKeyIsNew(rs, ops, o.key);
    InsertedAllMatched(rs, r, ops, o);
    InsertedNotAllMatched(c, s, ops, o);
    InsertedExplained(c, ops, s, s', o);
  }

  /** Appending a record of scalar identity keeps the old records carried. */
  lemma InsertedCarried(c: Snapshot, s: Snapshot, s': Snapshot, r: Record)
    requires Carried(c, s)
    requires s'.records == s.records + [r] && s'.nextId == s.nextId + 1
    requires ScalarKey(KeyOf(r)) && !UserIdOf(r.doc).Arr?
    ensures Carried(c, s')
  {
    var rs, rs' := s.records, s'.records;
    assert forall m :: 0 <= m < |rs| ==> rs'[m] == rs[m];
    assert rs'[|rs|] == r;
  }

  /** A key no record matches is the key of no operation already applied. */
  lemma UnmatchedKeyIsNew(rs: seq<Record>, ops: seq<UpdateOne>, k: Json)
    requires AllMatched(rs, ops) && FirstMatch(rs, k).None?
    ensures forall x :: 0 <= x < |ops| ==> ops[x].key != k
  {
    forall x | 0 <= x < |ops| ensures ops[x].key != k {
      var m := FirstMatch(rs, ops[x].key).value;
      assert Matches(UserIdOf(rs[m].doc), ops[x].key);
    }
  }

  lemma InsertedAllMatched(rs: seq<Record>, r: Record, ops: seq<UpdateOne>, o: UpdateOne)
    requires AllMatched(rs, ops) && FirstMatch(rs + [r], o.key).Some?
    ensures AllMatched(rs + [r], ops + [o])
  {
    forall x | 0 <= x < |ops + [o]| ensures FirstMatch(rs + [r], (ops + [o])[x].key).Some? {
      if x < |ops| { FirstMatchExtend(rs, [r], ops[x].key); } else { assert (ops + [o])[x] == o; }
    }
  }

  /** An insert happened, so not every key had a record to begin with. */
  lemma InsertedNotAllMatched(c: Snapshot, s: Snapshot, ops: seq<UpdateOne>, o: UpdateOne)
    requires ScalarIds(c.records) && ScalarKey(o.key) && Carried(c, s)
    requires FirstMatch(s.records, o.key).None?
    ensures !AllMatched(c.records, ops + [o])
  {
    assert (ops + [o])[|ops|] == o;
    if FirstMatch(c.records, o.key).Some? {
      OldKeyStillMatched(c, s, o.key);
    }
  }

  lemma InsertedExplained(c: Snapshot, ops: seq<UpdateOne>, s: Snapshot, s': Snapshot, o: UpdateOne)
    requires Explained(c, ops, s) && |c.records| <= |s.records|
    requires |s'.records| == |s.records| + 1 && s'.records[..|s.records|] == s.records
    requires KeyOf(s'.records[|s.records|]) == o.key
    requires forall m :: 0 <= m < |s.records| ==> KeyOf(s.records[m]) != o.key
    requires forall x :: 0 <= x < |ops| ==> ops[x].key != o.key
    requires s'.records[|s.records|].doc == Apply(Base(o.key), o)
    ensures Explained(c, ops + [o], s')
  {
    var rs, rs' := s.records, s'.records;
    assert forall m :: 0 <= m < |rs| ==> rs'[m] == rs[m] by {
      forall m | 0 <= m < |rs| ensures rs'[m] == rs[m] { assert rs'[m] == rs'[..|rs|][m]; }
    }
    forall j: nat | j < |rs'| ensures ExplainedAt(c, ops + [o], s', j) {
      if j < |rs| {
        assert ExplainedAt(c, ops, s, j);
        OldRecordStep(c, ops, s, s', o, j, false);
      } else {
        NewRecordStep(c, ops, s, s', o);
      }
    }
  }

  /** The characterization holds after every prefix of the batch. */
  lemma {:induction false} BatchCharacterized(c: Snapshot, ops: seq<UpdateOne>, now: Time)
    requires ScalarIds(c.records) && AllWellFormed(ops)
    ensures Characterized(c, ops, ApplyBatch(c, ops, now).after)
    decreases |ops|
  {
    if ops == [] {
      forall j: nat | j < |c.records| ensures ExplainedAt(c, ops, c, j) { }
    } else {
      var init, o := ops[..|ops| - 1], ops[|ops| - 1];
      assert ops == init + [o];
      BatchCharacterized(c, init, now);
      var s := ApplyBatch(c, init, now).after;
      match FirstMatch(s.records, o.key)
      case None => StepInserted(c, init, s, o, now);
      case Some(i) => StepMatched(c, init, s, o, now, i);
    }
  }

  /** A record whose key no operation of the batch names keeps the document
      it started from. */
  lemma UnreachedKeepsOrigin(c: Snapshot, ops: seq<UpdateOne>, now: Time, j: nat)
    requires ScalarIds(c.records) && AllWellFormed(ops)
    requires j < |ApplyBatch(c, ops, now).after.records|
    requires forall x :: 0 <= x < |ops| ==> ops[x].key != KeyOf(ApplyBatch(c, ops, now).after.records[j])
    ensures j < |c.records| ==> ApplyBatch(c, ops, now).after.records[j].doc == c.records[j].doc
    ensures j >= |c.records| ==> "appId" !in ApplyBatch(c, ops, now).after.records[j].doc
  {
    var s := ApplyBatch(c, ops, now).after;
    BatchCharacterized(c, ops, now);
    assert ExplainedAt(c, ops, s, j);
    OpsOnAbsent(ops, KeyOf(s.records[j]));
  }

  // ---------------------------------------------------------------------
  // Idempotence
  // ---------------------------------------------------------------------

  /** The two collections are equal except for `updatedAt`. */
  ghost predicate SameExceptUpdatedAt(a: Snapshot, b: Snapshot) {
    && |a.records| == |b.records|
    && a.nextId == b.nextId
    && forall j :: 0 <= j < |a.records| ==> a.records[j].(updatedAt := 0) == b.records[j].(updatedAt := 0)
  }

  /** Running the same upsert batch twice (at any two times) leaves the
      collection as one run left it, apart from `updatedAt`: no record is
      added the second time, and no field or entitlement changes. */
  lemma UpsertBatchIdempotent(c: Snapshot, ops: seq<UpdateOne>, t1: Time, t2: Time)
    requires ScalarIds(c.records) && AllWellFormed(ops) && Uniform(ops)
    ensures SameExceptUpdatedAt(ApplyBatch(ApplyBatch(c, ops, t1).after, ops, t2).after,
                                ApplyBatch(c, ops, t1).after)
  {
    var s1 := ApplyBatch(c, ops, t1).after;
    BatchCharacterized(c, ops, t1);
    var s2 := ApplyBatch(s1, ops, t2).after;
    BatchCharacterized(s1, ops, t2);
    assert |s2.records| == |s1.records|;
    forall j: nat | j < |s1.records|
      ensures s2.records[j].(updatedAt := 0) == s1.records[j].(updatedAt := 0)
    {
      assert ExplainedAt(s1, ops, s2, j) && ExplainedAt(c, ops, s1, j);
      ReachingSameKeys(s1.records, s2.records, ops, j);
      var us := Reaching(s1.records, ops, j);
      assert AllWellFormed(us) && Uniform(us) by {
        OpsOnSelects(ops, KeyOf(s1.records[j]));
        forall x | 0 <= x < |us| ensures us[x] in ops { assert us[x] in us; }
      }
      ApplyAllAbsorbs(Origin(c, s1, j), us);
    }
  }

  // ---------------------------------------------------------------------
  // Entitlements only grow under $addToSet
  // ---------------------------------------------------------------------

  /** Every record of `before` is still at its place in `after`, with the
      same `_id`, and an `appId` array there still starts with all the
      entitlements it had. */
  ghost predicate EntitlementsKept(before: seq<Record>, after: seq<Record>) {
    && |before| <= |after|
    && forall j :: 0 <= j < |before| ==>
         && after[j].id == before[j].id
         && (AppIdOf(before[j].doc).Arr? ==>
               AppIdOf(after[j].doc).Arr? && AppIdOf(before[j].doc).items <= AppIdOf(after[j].doc).items)
  }

  /** An operation that adds to `appId` and does not `$set` it. */
  ghost predicate Accumulating(u: UpdateOne) {
    u.addToAppId.Some? && "appId" !in u.setFields
  }

  lemma ApplyOpKeepsEntitlements(c: Snapshot, u: UpdateOne, now: Time)
    requires Accumulating(u)
    ensures EntitlementsKept(c.records, ApplyOp(c, u, now).after.records)
  {
    match FirstMatch(c.records, u.key)
    case None =>
    case Some(i) =>
  }

  /** A batch of operations that only add to `appId` never removes or
      reorders an entitlement of any record that was there before. */
  lemma {:induction false} AccumulatingBatchKeepsEntitlements(c: Snapshot, ops: seq<UpdateOne>, now: Time)
    requires forall i :: 0 <= i < |ops| ==> Accumulating(ops[i])
    ensures EntitlementsKept(c.records, ApplyBatch(c, ops, now).after.records)
    decreases |ops|
  {
    if ops != [] {
      var s := ApplyBatch(c, ops[..|ops| - 1], now).after;
      AccumulatingBatchKeepsEntitlements(c, ops[..|ops| - 1], now);
      ApplyOpKeepsEntitlements(s, ops[|ops| - 1], now);
    }
  }

  lemma {:induction false} CatHolds(us: seq<UpdateOne>, x: nat)
    requires x < |us| && us[x].addToAppId.Some?
    ensures forall e :: e in us[x].addToAppId.value ==> e in Cat(us)
    decreases |us|
  {
    if x < |us| - 1 {
      CatHolds(us[..|us| - 1], x);
    }
  }

  /** Applying a run of `$addToSet` updates that contains `u` to a document
      whose `appId` can take them leaves every element `u` adds in the
      `appId` array. */
  lemma ApplyAllGrants(d: Document, us: seq<UpdateOne>, x: nat)
    requires AllWellFormed(us) && forall i :: 0 <= i < |us| ==> us[i].addToAppId.Some?
    requires x < |us| && AddableAppId(ApplyAll(d, us))
    ensures AppIdOf(ApplyAll(d, us)).Arr?
    ensures forall e :: e in us[x].addToAppId.value ==> e in AppIdOf(ApplyAll(d, us)).items
  {
    if !AddableAppId(d) {
      ApplyAllFails(d, us);
    } else {
      ApplyAllAccumulates(d, us);
      FlatHasNoAppId(us);
      CatHolds(us, x);
    }
  }

  /** After a batch of `$addToSet` upserts, the record each operation's filter
      now selects holds every entitlement the operation adds, unless its
      `appId` is a value that is not an array (on which `$addToSet` fails). */
  lemma AccumulatingBatchGrants(c: Snapshot, ops: seq<UpdateOne>, now: Time, x: nat)
    requires ScalarIds(c.records) && AllWellFormed(ops) && x < |ops|
    requires forall i :: 0 <= i < |ops| ==> ops[i].addToAppId.Some?
    ensures var rs := ApplyBatch(c, ops, now).after.records;
      && FirstMatch(rs, ops[x].key).Some?
      && var d := rs[FirstMatch(rs, ops[x].key).value].doc;
         AddableAppId(d) ==>
           AppIdOf(d).Arr? && forall e :: e in ops[x].addToAppId.value ==> e in AppIdOf(d).items
  {
    var s := ApplyBatch(c, ops, now).after;
    BatchCharacterized(c, ops, now);
    var k := ops[x].key;
    assert WellFormedOp(ops[x]);
    FirstMatchIsFirstOfGroup(s.records, k);
    var j := FirstMatch(s.records, k).value;
    assert ExplainedAt(c, ops, s, j);
    var us := Reaching(s.records, ops, j);
    assert us == OpsOn(ops, k);
    OpsOnHolds(ops, k, x);
    var y :| 0 <= y < |us| && us[y] == ops[x];
    OpsOnSelects(ops, k);
    assert AllWellFormed(us) && forall i :: 0 <= i < |us| ==> us[i].addToAppId.Some? by {
      forall i | 0 <= i < |us| ensures us[i] in ops { assert us[i] in us; }
    }
    if AddableAppId(s.records[j].doc) {
      ApplyAllGrants(Origin(c, s, j), us, y);
    }
  }

  /** The record the filter `{ userId: k }` selects holds `e` in an `appId`
      array. */
  ghost predicate Grants(rs: seq<Record>, k: Json, e: Json) {
    && FirstMatch(rs, k).Some?
    && AppIdOf(rs[FirstMatch(rs, k).value].doc).Arr?
    && e in AppIdOf(rs[FirstMatch(rs, k).value].doc).items
  }

  /** One `$addToSet` upsert of `e` that does not fail leaves its filter
      selecting a record that holds `e`, and takes `e` from no record that
      held it. */
  lemma GrantsStep(s: Snapshot, o: UpdateOne, now: Time, e: Json)
    requires ScalarIds(s.records) && WellFormedOp(o) && Accumulating(o) && e in o.addToAppId.value
    requires ApplyOp(s, o, now).outcome != Failed
    ensures ScalarIds(ApplyOp(s, o, now).after.records)
    ensures Grants(ApplyOp(s, o, now).after.records, o.key, e)
    ensures forall k :: ScalarKey(k) && Grants(s.records, k, e) ==> Grants(ApplyOp(s, o, now).after.records, k, e)
  {
    match FirstMatch(s.records, o.key)
    case None => GrantsInserted(s, o, now, e);
    case Some(i) => GrantsMatched(s, o, now, e, i);
  }

  lemma GrantsInserted(s: Snapshot, o: UpdateOne, now: Time, e: Json)
    requires ScalarIds(s.records) && WellFormedOp(o) && Accumulating(o) && e in o.addToAppId.value
    requires FirstMatch(s.records, o.key).None?
    ensures ScalarIds(ApplyOp(s, o, now).after.records)
    ensures Grants(ApplyOp(s, o, now).after.records, o.key, e)
    ensures forall k :: Grants(s.records, k, e) ==> Grants(ApplyOp(s, o, now).after.records, k, e)
  {
    var rs := s.records;
    ApplyOpInserted(s, o, now);
    var r := Record(s.nextId, InsertDoc(o), now, now);
    assert ApplyOp(s, o, now).after.records == rs + [r];
    assert UserIdOf(r.doc) == o.key;
    FirstMatchAppended(rs, r, o.key);
    forall k | Grants(rs, k, e) ensures Grants(rs + [r], k, e) {
      FirstMatchExtend(rs, [r], k);
    }
  }

  lemma GrantsMatched(s: Snapshot, o: UpdateOne, now: Time, e: Json, i: nat)
    requires ScalarIds(s.records) && WellFormedOp(o) && Accumulating(o) && e in o.addToAppId.value
    requires FirstMatch(s.records, o.key) == Some(i) && ApplyOp(s, o, now).outcome != Failed
    ensures ScalarIds(ApplyOp(s, o, now).after.records)
    ensures Grants(ApplyOp(s, o, now).after.records, o.key, e)
    ensures forall k :: ScalarKey(k) && Grants(s.records, k, e) ==> Grants(ApplyOp(s, o, now).after.records, k, e)
  {
    var rs := s.records;
    var rs' := ApplyOp(s, o, now).after.records;
    ApplyOpMatched(s, o, now, i);
    MatchesIsSameGroup(rs[i].doc, o.key);
    assert UpdateDoc(rs[i].doc, o).Updated?;
    assert KeyOf(rs'[i]) == KeyOf(rs[i]);
    SameGroupReplaced(rs, rs', i);
    forall k | ScalarKey(k) && Grants(rs, k, e) ensures Grants(rs', k, e) {
      if FirstMatch(rs, k) == Some(i) {
        assert AppIdOf(rs[i].doc).items <= AppIdOf(rs'[i].doc).items;
      }
    }
  }

  /** The last operation of a batch with no failure did not fail, and
      neither did any before it. */
  lemma UnfailedLast(c: Snapshot, ops: seq<UpdateOne>, now: Time)
    requires ops != [] && ApplyBatch(c, ops, now).report.failed == 0
    ensures ApplyBatch(c, ops[..|ops| - 1], now).report.failed == 0
    ensures ApplyOp(ApplyBatch(c, ops[..|ops| - 1], now).after, ops[|ops| - 1], now).outcome != Failed
    ensures ApplyBatch(c, ops, now).after == ApplyOp(ApplyBatch(c, ops[..|ops| - 1], now).after, ops[|ops| - 1], now).after
  {
  }

  /** `GrantsStep` for the last of `ops`, all before it granted. */
  lemma GrantsStepAll(s: Snapshot, ops: seq<UpdateOne>, init: seq<UpdateOne>, now: Time, e: Json)
    requires ops != [] && init == ops[..|ops| - 1] && ScalarIds(s.records) && AllWellFormed(ops)
    requires Accumulating(ops[|ops| - 1]) && e in ops[|ops| - 1].addToAppId.value
    requires ApplyOp(s, ops[|ops| - 1], now).outcome != Failed
    requires forall x :: 0 <= x < |init| ==> Grants(s.records, init[x].key, e)
    ensures ScalarIds(ApplyOp(s, ops[|ops| - 1], now).after.records)
    ensures forall x :: 0 <= x < |ops| ==> Grants(ApplyOp(s, ops[|ops| - 1], now).after.records, ops[x].key, e)
  {
    var o := ops[|ops| - 1];
    var after := ApplyOp(s, o, now).after.records;
    GrantsStep(s, o, now, e);
    forall x | 0 <= x < |ops| ensures Grants(after, ops[x].key, e) {
      if x < |ops| - 1 {
        assert WellFormedOp(ops[x]) && init[x] == ops[x];
      }
    }
  }

  /** When no operation of a batch of `$addToSet` upserts that all add `e`
      fails, every operation's filter ends up selecting a record that holds
      `e`. */
  lemma {:induction false} UnfailedBatchGrants(c: Snapshot, ops: seq<UpdateOne>, now: Time, e: Json)
    requires ScalarIds(c.records) && AllWellFormed(ops)
    requires forall i :: 0 <= i < |ops| ==> Accumulating(ops[i]) && e in ops[i].addToAppId.value
    requires ApplyBatch(c, ops, now).report.failed == 0
    ensures ScalarIds(ApplyBatch(c, ops, now).after.records)
    ensures forall x :: 0 <= x < |ops| ==> Grants(ApplyBatch(c, ops, now).after.records, ops[x].key, e)
    decreases |ops|
  {
    if ops != [] {
      var init, o := ops[..|ops| - 1], ops[|ops| - 1];
      assert AllWellFormed(init) && forall i :: 0 <= i < |init| ==> Accumulating(init[i]) && e in init[i].addToAppId.value by {
        forall i | 0 <= i < |init| ensures init[i] == ops[i] { }
      }
      UnfailedLast(c, ops, now);
      UnfailedBatchGrants(c, init, now, e);
      GrantsStepAll(ApplyBatch(c, init, now).after, ops, init, now, e);
    }
  }

  lemma {:induction false} OpsOnHolds(ops: seq<UpdateOne>, k: Json, x: nat)
    requires x < |ops| && ops[x].key == k
    ensures ops[x] in OpsOn(ops, k)
    decreases |ops|
  {
    if x < |ops| - 1 {
      OpsOnHolds(ops[..|ops| - 1], k, x);
    }
  }

  // ---------------------------------------------------------------------
  // A field every operation $sets ends up with that value
  // ---------------------------------------------------------------------

  lemma FlatLast(us: seq<UpdateOne>, f: string, v: Json)
    requires us != [] && forall i :: 0 <= i < |us| ==> f in us[i].setFields && us[i].setFields[f] == v
    ensures f in Flat(us) && Flat(us)[f] == v
  {
    assert f in us[|us| - 1].setFields;
  }

  /** After a batch of upserts without `$addToSet` that all `$set` field `f`
      to `v`, the record each operation's filter now selects holds `v` in
      `f`, whatever it held before. */
  lemma ReplacingBatchSets(c: Snapshot, ops: seq<UpdateOne>, now: Time, x: nat, f: string, v: Json)
    requires ScalarIds(c.records) && AllWellFormed(ops) && x < |ops|
    requires forall i :: 0 <= i < |ops| ==> ops[i].addToAppId.None?
    requires forall i :: 0 <= i < |ops| ==> f in ops[i].setFields && ops[i].setFields[f] == v
    ensures var rs := ApplyBatch(c, ops, now).after.records;
      && FirstMatch(rs, ops[x].key).Some?
      && Get(rs[FirstMatch(rs, ops[x].key).value].doc, f) == v
  {
    var s := ApplyBatch(c, ops, now).after;
    BatchCharacterized(c, ops, now);
    var k := ops[x].key;
    assert WellFormedOp(ops[x]);
    FirstMatchIsFirstOfGroup(s.records, k);
    var j := FirstMatch(s.records, k).value;
    assert ExplainedAt(c, ops, s, j);
    var us := Reaching(s.records, ops, j);
    assert us == OpsOn(ops, k);
    OpsOnHolds(ops, k, x);
    OpsOnSelects(ops, k);
    assert us != [] && forall i :: 0 <= i < |us| ==> us[i] in ops by {
      assert ops[x] in us;
      forall i | 0 <= i < |us| ensures us[i] in ops { assert us[i] in us; }
    }
    ApplyAllOverwrites(Origin(c, s, j), us);
    FlatLast(us, f, v);
  }
}
