/** The duplicate clean-up both migration scripts run after their upserts:
    group the credentials by `userId`, and in every group of more than one
    record keep one survivor and `deleteMany` the others. */
module Dedup {
  import opened Values
  import opened Collection

  // ---------------------------------------------------------------------
  // Groups
  // ---------------------------------------------------------------------

  /** The records of `rs` that `$group: { _id: '$userId' }` puts under `k`,
      in natural order. */
  function Members(rs: seq<Record>, k: Json): (ms: seq<Record>)
    ensures |ms| <= |rs|
    ensures forall r :: r in ms <==> r in rs && KeyOf(r) == k
    decreases |rs|
  {
    if rs == [] then []
    else (if KeyOf(rs[0]) == k then [rs[0]] else []) + Members(rs[1..], k)
  }

  /** No two records share an `_id`. */
  predicate DistinctIds(rs: seq<Record>) {
    forall i, j :: 0 <= i < j < |rs| ==> rs[i].id != rs[j].id
  }

  lemma {:induction false} MembersDistinct(rs: seq<Record>, k: Json)
    requires DistinctIds(rs)
    ensures DistinctIds(Members(rs, k))
    decreases |rs|
  {
    if rs != [] {
      MembersDistinct(rs[1..], k);
      var tail := Members(rs[1..], k);
      forall m | m in tail ensures m.id != rs[0].id {
        var j :| 0 <= j < |rs[1..]| && rs[1..][j] == m;
        assert rs[j + 1] == m;
      }
    }
  }

  /** `_id`s that increase along the natural order are distinct. */
  lemma OrderedIdsDistinct(s: Snapshot)
    requires IdsOrdered(s)
    ensures DistinctIds(s.records)
  {
  }

  /** The distinct group keys of `rs`, in order of first appearance. */
  function Keys(rs: seq<Record>): (ks: seq<Json>)
    ensures forall k :: k in ks <==> exists r :: r in rs && KeyOf(r) == k
    ensures forall i, j :: 0 <= i < j < |ks| ==> ks[i] != ks[j]
    decreases |rs|
  {
    if rs == [] then []
    else
      var ks := Keys(rs[..|rs| - 1]);
      var k := KeyOf(rs[|rs| - 1]);
      assert forall r :: r in rs <==> r in rs[..|rs| - 1] || r == rs[|rs| - 1];
      if k in ks then ks else ks + [k]
  }

  /** What `$push: { _id: '$_id', appId: '$appId' }` collects of a record. */
  datatype Pushed = Pushed(id: nat, appId: Json)

  /** One output document of the aggregation: the group key and the pushed
      members (`count` is their number). */
  datatype Group = Group(key: Json, docs: seq<Pushed>)

  function Pushes(ms: seq<Record>): (ps: seq<Pushed>)
    ensures |ps| == |ms|
    ensures forall i :: 0 <= i < |ms| ==> ps[i] == Pushed(ms[i].id, AppIdOf(ms[i].doc))
  {
    seq(|ms|, i requires 0 <= i < |ms| => Pushed(ms[i].id, AppIdOf(ms[i].doc)))
  }

  /** `groups` is a possible result of the `$group` / `$match: { count:
      { $gt: 1 } }` aggregation over `rs`: one output per key that more
      than one record shares, carrying that key's members, in some order
      (MongoDB does not fix the order of `$group` output). */
  ghost predicate Aggregated(rs: seq<Record>, groups: seq<Group>) {
    && (forall i :: 0 <= i < |groups| ==>
          groups[i].docs == Pushes(Members(rs, groups[i].key)) && |groups[i].docs| > 1)
    && (forall i, j :: 0 <= i < j < |groups| ==> groups[i].key != groups[j].key)
    && (forall r :: r in rs && |Members(rs, KeyOf(r))| > 1 ==>
          exists i :: 0 <= i < |groups| && groups[i].key == KeyOf(r))
  }

  /** The groups of the keys in `ks` that have more than one member. */
  function GroupsOf(rs: seq<Record>, ks: seq<Json>): seq<Group>
    decreases |ks|
  {
    if ks == [] then []
    else
      var ms := Members(rs, ks[0]);
      (if |ms| > 1 then [Group(ks[0], Pushes(ms))] else []) + GroupsOf(rs, ks[1..])
  }

  lemma {:induction false} GroupsOfSound(rs: seq<Record>, ks: seq<Json>)
    ensures forall g :: g in GroupsOf(rs, ks) ==>
      g.key in ks && g.docs == Pushes(Members(rs, g.key)) && |g.docs| > 1
    decreases |ks|
  {
    if ks != [] {
      GroupsOfSound(rs, ks[1..]);
    }
  }

  lemma {:induction false} GroupsOfComplete(rs: seq<Record>, ks: seq<Json>, k: Json)
    requires k in ks && |Members(rs, k)| > 1
    ensures exists g :: g in GroupsOf(rs, ks) && g.key == k
    decreases |ks|
  {
    if ks[0] != k {
      GroupsOfComplete(rs, ks[1..], k);
      var g :| g in GroupsOf(rs, ks[1..]) && g.key == k;
      assert g in GroupsOf(rs, ks);
    } else {
      assert GroupsOf(rs, ks)[0].key == k;
    }
  }

  lemma {:induction false} GroupsOfDistinct(rs: seq<Record>, ks: seq<Json>)
    requires forall i, j :: 0 <= i < j < |ks| ==> ks[i] != ks[j]
    ensures forall i, j :: 0 <= i < j < |GroupsOf(rs, ks)| ==> GroupsOf(rs, ks)[i].key != GroupsOf(rs, ks)[j].key
    decreases |ks|
  {
    if ks != [] {
      GroupsOfDistinct(rs, ks[1..]);
      var rest := GroupsOf(rs, ks[1..]);
      var gs := GroupsOf(rs, ks);
      assert ks[0] !in ks[1..] by {
        forall j | 0 <= j < |ks[1..]| ensures ks[1..][j] != ks[0] {
          assert ks[1..][j] == ks[j + 1];
        }
      }
      assert forall g :: g in rest ==> g.key != ks[0] by {
        GroupsOfSound(rs, ks[1..]);
      }
      if |Members(rs, ks[0])| > 1 {
        GroupKeysCons(gs[0], rest);
        assert gs == [gs[0]] + rest;
      } else {
        assert gs == rest;
      }
    }
  }

  lemma GroupKeysCons(g: Group, rest: seq<Group>)
    requires forall a, b :: 0 <= a < b < |rest| ==> rest[a].key != rest[b].key
    requires forall h :: h in rest ==> h.key != g.key
    ensures forall a, b :: 0 <= a < b < |[g] + rest| ==> ([g] + rest)[a].key != ([g] + rest)[b].key
  {
    var gs := [g] + rest;
    forall a, b | 0 <= a < b < |gs| ensures gs[a].key != gs[b].key {
      assert gs[b] == rest[b - 1] && rest[b - 1] in rest;
      if a > 0 {
        assert gs[a] == rest[a - 1];
      }
    }
  }

  /** The aggregation with its groups in order of first appearance. */
  function Aggregate(rs: seq<Record>): (groups: seq<Group>)
    ensures Aggregated(rs, groups)
  {
    AggregateIsAggregated(rs);
    GroupsOf(rs, Keys(rs))
  }

  lemma AggregateIsAggregated(rs: seq<Record>)
    ensures Aggregated(rs, GroupsOf(rs, Keys(rs)))
  {
    var ks := Keys(rs);
    var gs := GroupsOf(rs, ks);
    GroupsOfSound(rs, ks);
    GroupsOfDistinct(rs, ks);
    forall r | r in rs && |Members(rs, KeyOf(r))| > 1
      ensures exists i :: 0 <= i < |gs| && gs[i].key == KeyOf(r)
    {
      GroupsOfComplete(rs, ks, KeyOf(r));
      var g :| g in gs && g.key == KeyOf(r);
      var i :| 0 <= i < |gs| && gs[i] == g;
    }
    forall i | 0 <= i < |gs|
      ensures gs[i].docs == Pushes(Members(rs, gs[i].key)) && |gs[i].docs| > 1
    {
      assert gs[i] in gs;
    }
  }

  // ---------------------------------------------------------------------
  // The survivor of a group
  // ---------------------------------------------------------------------

  /** `docs.find(d => Array.isArray(d.appId))`, as the index it finds. */
  function FindArray(docs: seq<Pushed>): (r: Option<nat>)
    ensures r.Some? ==> r.value < |docs| && docs[r.value].appId.Arr?
    ensures r.Some? ==> forall i :: 0 <= i < r.value ==> !docs[i].appId.Arr?
    ensures r.None? <==> forall i :: 0 <= i < |docs| ==> !docs[i].appId.Arr?
    decreases |docs|
  {
    if docs == [] then None
    else if docs[0].appId.Arr? then Some(0)
    else match FindArray(docs[1..])
      case None => None
      case Some(i) => Some(i + 1)
  }

  /** The index of the member the survivor rule picks: the one `find`
      returns, or the first member when `find` finds none. */
  function SurvivorAt(docs: seq<Pushed>): (p: nat)
    requires docs != []
    ensures SurvivorIndex(docs, p)
  {
    match FindArray(docs)
    case Some(i) => i
    case None => 0
  }

  /** `preferred?._id ?? docs[0]?._id`: the `_id` of the first member whose
      `appId` is an array (empty or not), else of the first member. */
  function KeepId(docs: seq<Pushed>): (r: Option<nat>)
    ensures r.Some? <==> docs != []
  {
    if docs == [] then None else Some(docs[SurvivorAt(docs)].id)
  }

  /** `p` is the index the survivor rule picks among `docs`. */
  predicate SurvivorIndex(docs: seq<Pushed>, p: nat) {
    && p < |docs|
    && if exists i :: 0 <= i < |docs| && docs[i].appId.Arr? then
         docs[p].appId.Arr? && forall i :: 0 <= i < p ==> !docs[i].appId.Arr?
       else p == 0
  }

  /** The `_id`s of a group's members other than the survivor, in order. */
  function ToDelete(docs: seq<Pushed>): (ids: seq<nat>)
    ensures forall id :: id in ids <==>
      exists i :: 0 <= i < |docs| && docs[i].id == id && Some(id) != KeepId(docs)
  {
    var keep := KeepId(docs);
    Others(docs, keep)
  }

  function Others(docs: seq<Pushed>, keep: Option<nat>): (ids: seq<nat>)
    ensures forall id :: id in ids <==>
      exists i :: 0 <= i < |docs| && docs[i].id == id && Some(id) != keep
    decreases |docs|
  {
    if docs == [] then []
    else
      var rest := Others(docs[1..], keep);
      assert forall i :: 0 < i < |docs| ==> docs[i] == docs[1..][i - 1];
      if Some(docs[0].id) != keep then [docs[0].id] + rest else rest
  }

  /** All `_id`s the clean-up loop deletes for `groups`. */
  function IdSet(ids: seq<nat>): set<nat> {
    set id | id in ids
  }

  function Doomed(groups: seq<Group>): set<nat>
    decreases |groups|
  {
    if groups == [] then {}
    else
      Doomed(groups[..|groups| - 1]) + IdSet(ToDelete(groups[|groups| - 1].docs))
  }

  lemma {:induction false} DoomedHas(groups: seq<Group>, i: nat, id: nat)
    requires i < |groups| && id in ToDelete(groups[i].docs)
    ensures id in Doomed(groups)
    decreases |groups|
  {
    if i < |groups| - 1 {
      DoomedHas(groups[..|groups| - 1], i, id);
    }
  }

  lemma {:induction false} DoomedFrom(groups: seq<Group>, id: nat) returns (i: nat)
    requires id in Doomed(groups)
    ensures i < |groups| && id in ToDelete(groups[i].docs)
    decreases |groups|
  {
    var n := |groups| - 1;
    if id in ToDelete(groups[n].docs) {
      i := n;
    } else {
      i := DoomedFrom(groups[..n], id);
      assert groups[..n][i] == groups[i];
    }
  }

  // ---------------------------------------------------------------------
  // The collection the clean-up leaves
  // ---------------------------------------------------------------------

  /** A record survives when it is the survivor of its own group. */
  predicate Kept(all: seq<Record>, r: Record) {
    KeepId(Pushes(Members(all, KeyOf(r)))) == Some(r.id)
  }

  /** The records of `xs` that are survivors of their group in `all`. */
  function Survivors(all: seq<Record>, xs: seq<Record>): (r: seq<Record>)
    ensures forall x :: x in r <==> x in xs && Kept(all, x)
    decreases |xs|
  {
    if xs == [] then []
    else (if Kept(all, xs[0]) then [xs[0]] else []) + Survivors(all, xs[1..])
  }

  lemma {:induction false} SurvivorsDistinct(all: seq<Record>, xs: seq<Record>)
    requires DistinctIds(xs)
    ensures DistinctIds(Survivors(all, xs))
    decreases |xs|
  {
    if xs != [] {
      SurvivorsDistinct(all, xs[1..]);
      var tail := Survivors(all, xs[1..]);
      forall m | m in tail ensures m.id != xs[0].id {
        var j :| 0 <= j < |xs[1..]| && xs[1..][j] == m;
        assert xs[j + 1] == m;
      }
      if Kept(all, xs[0]) {
        IdsCons(xs[0], tail);
      }
    }
  }

  lemma IdsCons(x: Record, tail: seq<Record>)
    requires DistinctIds(tail) && forall m :: m in tail ==> m.id != x.id
    ensures DistinctIds([x] + tail)
  {
    var rs := [x] + tail;
    forall a, b | 0 <= a < b < |rs| ensures rs[a].id != rs[b].id {
      assert rs[b] == tail[b - 1] && tail[b - 1] in tail;
      if a > 0 {
        assert rs[a] == tail[a - 1];
      }
    }
  }

  /** The collection after clean-up: every record that is the survivor of
      its `userId` group, in natural order. */
  function Resolved(rs: seq<Record>): (r: seq<Record>)
    ensures forall x :: x in r <==> x in rs && Kept(rs, x)
  {
    Survivors(rs, rs)
  }

  /** Each group key has exactly one record. */
  ghost predicate OnePerKey(rs: seq<Record>) {
    forall i, j :: 0 <= i < |rs| && 0 <= j < |rs| && KeyOf(rs[i]) == KeyOf(rs[j]) ==> i == j
  }

  /** A record with distinct `_id`s is determined by its `_id`. */
  lemma SameIdSameRecord(rs: seq<Record>, x: Record, y: Record)
    requires DistinctIds(rs) && x in rs && y in rs && x.id == y.id
    ensures x == y
  {
    var i :| 0 <= i < |rs| && rs[i] == x;
    var j :| 0 <= j < |rs| && rs[j] == y;
    assert rs[i].id == rs[j].id;
  }

  /** The survivor of `r`'s group is a record of that group. */
  lemma SurvivorOfGroup(rs: seq<Record>, r: Record) returns (s: Record)
    requires r in rs
    ensures s in rs && KeyOf(s) == KeyOf(r) && Kept(rs, s)
  {
    var ms := Members(rs, KeyOf(r));
    assert r in ms;
    s := ms[SurvivorAt(Pushes(ms))];
    assert s in ms;
  }

  /** Afterwards every `userId` group has exactly one record, and no group
      has lost its last record. */
  lemma ResolvedOnePerKey(rs: seq<Record>)
    requires DistinctIds(rs)
    ensures OnePerKey(Resolved(rs))
    ensures forall r :: r in rs ==> exists x :: x in Resolved(rs) && KeyOf(x) == KeyOf(r)
  {
    var out := Resolved(rs);
    SurvivorsDistinct(rs, rs);
    forall i, j | 0 <= i < |out| && 0 <= j < |out| && KeyOf(out[i]) == KeyOf(out[j])
      ensures i == j
    {
      assert out[i] in out && out[j] in out;
      assert out[i].id == out[j].id;
    }
    forall r | r in rs ensures exists x :: x in out && KeyOf(x) == KeyOf(r) {
      var s := SurvivorOfGroup(rs, r);
      assert s in out;
    }
  }

  /** The survivor rule: member `p` of a group is the one kept exactly when
      it is the first member whose `appId` is an array, or, when no member
      has an array `appId`, the first member. */
  lemma SurvivorRule(rs: seq<Record>, k: Json, p: nat)
    requires DistinctIds(rs) && p < |Members(rs, k)|
    ensures Members(rs, k)[p] in Resolved(rs) <==> SurvivorIndex(Pushes(Members(rs, k)), p)
  {
    var ms := Members(rs, k);
    var docs := Pushes(ms);
    assert ms[p] in ms;
    var q := SurvivorAt(docs);
    SurvivorIndexUnique(docs, p, q);
    MembersDistinct(rs, k);
    assert ms[p] in Resolved(rs) <==> docs[q].id == docs[p].id;
  }

  lemma SurvivorIndexUnique(docs: seq<Pushed>, p: nat, q: nat)
    requires SurvivorIndex(docs, q) && p < |docs|
    ensures SurvivorIndex(docs, p) <==> p == q
  {
  }

  /** A group with a single record keeps it. */
  lemma SingletonKept(rs: seq<Record>, r: Record)
    requires r in rs
    ensures |Members(rs, KeyOf(r))| == 1 ==> Kept(rs, r)
  {
    var ms := Members(rs, KeyOf(r));
    assert r in ms;
    assert |ms| == 1 ==> ms == [r];
  }

  lemma {:induction false} MembersNone(rs: seq<Record>, k: Json)
    requires forall j :: 0 <= j < |rs| ==> KeyOf(rs[j]) != k
    ensures Members(rs, k) == []
    decreases |rs|
  {
    if rs != [] {
      MembersNone(rs[1..], k);
    }
  }

  /** In a collection with one record per key, each key's group is that
      record alone. */
  lemma {:induction false} MembersOfUnique(xs: seq<Record>, i: nat)
    requires OnePerKey(xs) && i < |xs|
    ensures Members(xs, KeyOf(xs[i])) == [xs[i]]
    decreases |xs|
  {
    var k := KeyOf(xs[i]);
    if i == 0 {
      forall j | 0 <= j < |xs[1..]| ensures KeyOf(xs[1..][j]) != k {
        assert xs[1..][j] == xs[j + 1];
      }
      MembersNone(xs[1..], k);
    } else {
      assert KeyOf(xs[0]) != k;
      assert xs[1..][i - 1] == xs[i];
      MembersOfUnique(xs[1..], i - 1);
    }
  }

  /** In a collection with one record per key, no group has two records. */
  lemma MembersOfUniqueAtMostOne(xs: seq<Record>, k: Json)
    requires OnePerKey(xs)
    ensures |Members(xs, k)| <= 1
  {
    var ms := Members(xs, k);
    if ms != [] {
      assert ms[0] in ms;
      var i :| 0 <= i < |xs| && xs[i] == ms[0];
      MembersOfUnique(xs, i);
    }
  }

  lemma {:induction false} SurvivorsAll(all: seq<Record>, xs: seq<Record>)
    requires forall i :: 0 <= i < |xs| ==> Kept(all, xs[i])
    ensures Survivors(all, xs) == xs
    decreases |xs|
  {
    if xs != [] {
      var tail := xs[1..];
      assert forall i :: 0 <= i < |tail| ==> tail[i] == xs[i + 1];
      SurvivorsAll(all, tail);
      assert Kept(all, xs[0]);
      assert xs == [xs[0]] + tail;
    }
  }

  /** A collection with one record per key is left as it is. */
  lemma ResolvedFixesOnePerKey(xs: seq<Record>)
    requires OnePerKey(xs)
    ensures Resolved(xs) == xs
  {
    forall i | 0 <= i < |xs| ensures Kept(xs, xs[i]) {
      MembersOfUnique(xs, i);
    }
    SurvivorsAll(xs, xs);
  }

  /** The clean-up is idempotent. */
  lemma ResolveIdempotent(rs: seq<Record>)
    requires DistinctIds(rs)
    ensures Resolved(Resolved(rs)) == Resolved(rs)
  {
    ResolvedOnePerKey(rs);
    ResolvedFixesOnePerKey(Resolved(rs));
  }

  /** After a clean-up the aggregation finds no duplicate group, so a second
      run deletes nothing. */
  lemma NoGroupsAfterResolve(rs: seq<Record>, groups: seq<Group>)
    requires DistinctIds(rs) && Aggregated(Resolved(rs), groups)
    ensures groups == []
  {
    var xs := Resolved(rs);
    ResolvedOnePerKey(rs);
    if groups != [] {
      MembersOfUniqueAtMostOne(xs, groups[0].key);
      assert false;
    }
  }

  // ---------------------------------------------------------------------
  // The loop deletes exactly the non-survivors
  // ---------------------------------------------------------------------

  /** A record's `_id` is among those the loop deletes exactly when the
      record is not the survivor of its group. */
  lemma DoomedIff(rs: seq<Record>, groups: seq<Group>, x: Record)
    requires DistinctIds(rs) && Aggregated(rs, groups) && x in rs
    ensures x.id in Doomed(groups) <==> !Kept(rs, x)
  {
    if x.id in Doomed(groups) {
      DoomedNotKept(rs, groups, x);
    }
    if !Kept(rs, x) {
      NotKeptDoomed(rs, groups, x);
    }
  }

  lemma DoomedNotKept(rs: seq<Record>, groups: seq<Group>, x: Record)
    requires DistinctIds(rs) && Aggregated(rs, groups) && x in rs && x.id in Doomed(groups)
    ensures !Kept(rs, x)
  {
    var i := DoomedFrom(groups, x.id);
    var docs := groups[i].docs;
    var g := Members(rs, groups[i].key);
    var m :| 0 <= m < |docs| && docs[m].id == x.id && Some(x.id) != KeepId(docs);
    assert g[m] in g;
    SameIdSameRecord(rs, g[m], x);
  }

  lemma NotKeptDoomed(rs: seq<Record>, groups: seq<Group>, x: Record)
    requires Aggregated(rs, groups) && x in rs && !Kept(rs, x)
    ensures x.id in Doomed(groups)
  {
    var ms := Members(rs, KeyOf(x));
    assert x in ms;
    SingletonKept(rs, x);
    var i :| 0 <= i < |groups| && groups[i].key == KeyOf(x);
    var m :| 0 <= m < |ms| && ms[m] == x;
    assert groups[i].docs[m].id == x.id;
    assert x.id in ToDelete(groups[i].docs);
    DoomedHas(groups, i, x.id);
  }

  lemma {:induction false} RemoveIdsIsSurvivors(all: seq<Record>, xs: seq<Record>, ids: set<nat>)
    requires forall x :: x in xs ==> (x.id in ids <==> !Kept(all, x))
    ensures RemoveIds(xs, ids) == Survivors(all, xs)
    decreases |xs|
  {
    if xs != [] {
      assert xs[0] in xs;
      RemoveIdsIsSurvivors(all, xs[1..], ids);
    }
  }

  lemma {:induction false} RemoveIdsTwice(rs: seq<Record>, a: set<nat>, b: set<nat>)
    ensures RemoveIds(RemoveIds(rs, a), b) == RemoveIds(rs, a + b)
    decreases |rs|
  {
    if rs != [] {
      RemoveIdsTwice(rs[1..], a, b);
      var r := RemoveIds(rs, a);
      if rs[0].id !in a {
        assert r == [rs[0]] + RemoveIds(rs[1..], a);
        assert r[1..] == RemoveIds(rs[1..], a);
      } else {
        assert r == RemoveIds(rs[1..], a);
      }
    }
  }

  /** The clean-up loop over the aggregation's groups. Its result does not
      depend on the order of the groups: it is the survivors of every
      group, and `deletedDuplicates` counts the records removed. */
  method ResolveDuplicates(store: CredentialStore, groups: seq<Group>) returns (deletedDuplicates: nat)
    requires store.Valid() && Aggregated(store.records, groups)
    modifies store
    ensures store.Valid()
    ensures store.records == Resolved(old(store.records)) && store.nextId == old(store.nextId)
    ensures deletedDuplicates == |old(store.records)| - |store.records|
  {
    ghost var rs0 := store.records;
    OrderedIdsDistinct(store.Value());
    RemoveNothing(rs0);
    assert groups[..0] == [];
    deletedDuplicates := 0;
    for i := 0 to |groups|
      invariant store.Valid() && store.nextId == old(store.nextId)
      invariant store.records == RemoveIds(rs0, Doomed(groups[..i]))
      invariant deletedDuplicates == |rs0| - |store.records|
    {
      var toDelete := ToDelete(groups[i].docs);
      ghost var before := store.records;
      if |toDelete| > 0 {
        var n := store.DeleteMany(IdSet(toDelete));
        deletedDuplicates := deletedDuplicates + n;
      } else {
        assert IdSet(toDelete) == {};
        RemoveNothing(before);
      }
      assert store.records == RemoveIds(before, IdSet(toDelete));
      RemoveIdsTwice(rs0, Doomed(groups[..i]), IdSet(toDelete));
      DoomedSnoc(groups, i);
    }
    assert groups[..|groups|] == groups;
    DoomedAreTheOthers(rs0, groups);
  }

  lemma DoomedSnoc(groups: seq<Group>, i: nat)
    requires i < |groups|
    ensures Doomed(groups[..i + 1]) == Doomed(groups[..i]) + IdSet(ToDelete(groups[i].docs))
  {
    assert groups[..i + 1][..i] == groups[..i];
  }

  lemma {:induction false} RemoveNothing(rs: seq<Record>)
    ensures RemoveIds(rs, {}) == rs
    decreases |rs|
  {
    if rs != [] {
      RemoveNothing(rs[1..]);
    }
  }

  /** Deleting every `_id` the loop deletes leaves the survivors. */
  lemma DoomedAreTheOthers(rs: seq<Record>, groups: seq<Group>)
    requires DistinctIds(rs) && Aggregated(rs, groups)
    ensures RemoveIds(rs, Doomed(groups)) == Resolved(rs)
  {
    forall x | x in rs ensures x.id in Doomed(groups) <==> !Kept(rs, x) {
      DoomedIff(rs, groups, x);
    }
    RemoveIdsIsSurvivors(rs, rs, Doomed(groups));
  }

  // ---------------------------------------------------------------------
  // Counting what the clean-up leaves
  // ---------------------------------------------------------------------

  /** The first record of a group heads that group's members. */
  lemma {:induction false} MembersHead(rs: seq<Record>, j: nat)
    requires j < |rs| && forall i :: 0 <= i < j ==> KeyOf(rs[i]) != KeyOf(rs[j])
    ensures Members(rs, KeyOf(rs[j])) != [] && Members(rs, KeyOf(rs[j]))[0] == rs[j]
    decreases j
  {
    if j > 0 {
      var tail := rs[1..];
      assert tail[j - 1] == rs[j];
      forall i | 0 <= i < j - 1 ensures KeyOf(tail[i]) != KeyOf(tail[j - 1]) {
        assert tail[i] == rs[i + 1];
      }
      MembersHead(tail, j - 1);
    }
  }

  /** The first record of a group survives the clean-up when its `appId`
      is an array. */
  lemma FirstArraySurvives(rs: seq<Record>, j: nat)
    requires DistinctIds(rs) && j < |rs| && AppIdOf(rs[j].doc).Arr?
    requires forall i :: 0 <= i < j ==> KeyOf(rs[i]) != KeyOf(rs[j])
    ensures rs[j] in Resolved(rs)
  {
    MembersHead(rs, j);
    SurvivorRule(rs, KeyOf(rs[j]), 0);
  }

  /** The keys of the records of `xs` that pass `p`. */
  ghost function KeysPassing(xs: seq<Record>, p: Record -> bool): set<Json> {
    set r | r in xs && p(r) :: KeyOf(r)
  }

  lemma KeysPassingCons(xs: seq<Record>, p: Record -> bool)
    requires xs != []
    ensures KeysPassing(xs, p) == (if p(xs[0]) then {KeyOf(xs[0])} else {}) + KeysPassing(xs[1..], p)
  {
    assert forall r :: r in xs <==> r == xs[0] || r in xs[1..];
  }

  lemma OnePerKeyTail(xs: seq<Record>)
    requires xs != [] && OnePerKey(xs)
    ensures OnePerKey(xs[1..])
    ensures forall r :: r in xs[1..] ==> KeyOf(r) != KeyOf(xs[0])
  {
    var tail := xs[1..];
    forall i, j | 0 <= i < |tail| && 0 <= j < |tail| && KeyOf(tail[i]) == KeyOf(tail[j]) ensures i == j {
      assert tail[i] == xs[i + 1] && tail[j] == xs[j + 1];
    }
    forall r | r in tail ensures KeyOf(r) != KeyOf(xs[0]) {
      var i :| 0 <= i < |tail| && tail[i] == r;
      assert xs[i + 1] == r;
    }
  }

  /** With one record per key, the records passing a filter are as many as
      their keys. */
  lemma {:induction false} CountByKeys(xs: seq<Record>, p: Record -> bool)
    requires OnePerKey(xs)
    ensures |Filter(xs, p)| == |KeysPassing(xs, p)|
    decreases |xs|
  {
    if xs != [] {
      OnePerKeyTail(xs);
      CountByKeys(xs[1..], p);
      KeysPassingCons(xs, p);
      assert KeyOf(xs[0]) !in KeysPassing(xs[1..], p);
    }
  }

  // ---------------------------------------------------------------------
  // The survivor rule does not prefer a non-empty array
  // ---------------------------------------------------------------------

  /** Two records of one guardian: the first with an empty `appId` array,
      the second holding `'ParentApp'`. The clean-up keeps the first and
      deletes the one that holds the entitlement. */
  lemma EmptyArraySurvives()
    ensures var a := Record(0, map["userId" := Str("p1"), "appId" := Arr([])], 0, 0);
            var b := Record(1, map["userId" := Str("p1"), "appId" := Arr([Str("ParentApp")])], 0, 0);
            Resolved([a, b]) == [a]
  {
    var a := Record(0, map["userId" := Str("p1"), "appId" := Arr([])], 0, 0);
    var b := Record(1, map["userId" := Str("p1"), "appId" := Arr([Str("ParentApp")])], 0, 0);
    var rs := [a, b];
    assert KeyOf(a) == Str("p1") && KeyOf(b) == Str("p1");
    assert rs[1..] == [b];
    assert Members(rs, Str("p1")) == [a, b];
    assert Kept(rs, a);
    assert !Kept(rs, b);
    assert Survivors(rs, [b]) == [];
  }
}
