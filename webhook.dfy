/** `receiveCredentialWebhook` (`webhookController.js`): checks the forwarded
    credentials, derives the entitlements from the title, and always creates
    a new `Credential` record (never updates one), which is how a second
    record for an existing `userId` comes about. */
module Webhook {
  import opened Values
  import opened Collection
  import Middleware
  import Dedup
  import Login

  const MissingPayload: string := "Missing credentials payload"
  const Teacher: Json := Str("Teacher")
  const Parent: Json := Str("Parent")

  /** The three entries of `APP_IDS` the handler grants. */
  datatype AppIds = AppIds(institute: string, mentor: string, scholar: string)

  predicate DistinctApps(ids: AppIds) {
    ids.institute != ids.mentor && ids.institute != ids.scholar && ids.mentor != ids.scholar
  }

  /** `req.credentials || {}` */
  function Payload(credentials: Option<Document>): Document {
    if credentials.Some? then credentials.value else map[]
  }

  /** The guard: `userId`, `password` and `url` are all truthy. */
  predicate PayloadComplete(p: Document) {
    Truthy(Get(p, "userId")) && Truthy(Get(p, "password")) && Truthy(Get(p, "url"))
  }

  /** The `appId` list built from the submitted title: a `'Teacher'` gets
      the institute and mentor applications, a `'Parent'` the scholar
      application, anyone else nothing. */
  function AppIdsFor(title: Json, ids: AppIds): (appId: seq<Json>)
    ensures appId == [] <==> !StrictEquals(title, Teacher) && !StrictEquals(title, Parent)
    ensures forall k :: 0 <= k < |appId| ==> appId[k] in [Str(ids.institute), Str(ids.mentor), Str(ids.scholar)]
  {
    if StrictEquals(title, Teacher) then [Str(ids.institute), Str(ids.mentor)]
    else if StrictEquals(title, Parent) then [Str(ids.scholar)]
    else []
  }

  /** With distinct identifiers, each application is granted for exactly
      one title, the teacher's two in the order institute then mentor, and
      nothing else and nothing twice is granted. */
  lemma AppIdsForTitle(title: Json, ids: AppIds)
    requires DistinctApps(ids)
    ensures Str(ids.institute) in AppIdsFor(title, ids) <==> title == Teacher
    ensures Str(ids.mentor) in AppIdsFor(title, ids) <==> title == Teacher
    ensures Str(ids.scholar) in AppIdsFor(title, ids) <==> title == Parent
    ensures title == Teacher ==> AppIdsFor(title, ids)[0] == Str(ids.institute)
    ensures title != Teacher && title != Parent ==> AppIdsFor(title, ids) == []
    ensures forall x :: x in AppIdsFor(title, ids) ==>
      x == Str(ids.institute) || x == Str(ids.mentor) || x == Str(ids.scholar)
    ensures forall i, j :: 0 <= i < j < |AppIdsFor(title, ids)| ==> AppIdsFor(title, ids)[i] != AppIdsFor(title, ids)[j]
  {
  }

  // ---------------------------------------------------------------------
  // Credential.create
  // ---------------------------------------------------------------------

  /** The paths of the `Credential` schema; anything else in the object
      passed to `create` is dropped. */
  const SchemaPaths: set<string> := {"userId", "password", "url", "firstName", "lastName", "title", "appId", "deviceId"}

  /** What a `String` path stores of a value: absent stays absent, `null`
      stays `null`, a string is trimmed where the path has `trim: true`,
      and an array cannot be cast (`None`). */
  function CastString(v: Json, trim: bool): Option<Json> {
    if v.Arr? then None
    else if v.Str? && trim then Some(Str(Trim(v.s)))
    else Some(v)
  }

  /** The `required: true` check on a cast `String` value. */
  predicate Required(v: Json) {
    !IsNullish(v) && v != Str("")
  }

  /** The values `create` casts, path by path (`deviceId` takes its
      default). */
  datatype Paths = Paths(userId: Json, password: Json, url: Json, firstName: Json, lastName: Json, title: Json,
                         appId: seq<Json>)

  /** What path `f` of the new document holds; undefined for a path the
      schema does not have. */
  function PathValue(v: Paths, f: string): Json {
    if f == "userId" then v.userId
    else if f == "password" then v.password
    else if f == "url" then v.url
    else if f == "firstName" then v.firstName
    else if f == "lastName" then v.lastName
    else if f == "title" then v.title
    else if f == "appId" then Arr(v.appId)
    else if f == "deviceId" then Str("")
    else Undefined
  }

  /** The new document: every schema path that holds a defined value. */
  function SchemaDocument(v: Paths): Document {
    map f | f in SchemaPaths && PathValue(v, f) != Undefined :: PathValue(v, f)
  }

  lemma SchemaDocumentFields(v: Paths)
    ensures forall f :: f in SchemaDocument(v) ==> f in SchemaPaths
    ensures forall f :: Get(SchemaDocument(v), f) == PathValue(v, f)
  {
  }

  /** `Credential.create({ userId, url, password, firstName, lastName,
      title, appId, email, schoolGroupId, schoolId })`: the cast values of
      the stored document, or `None` when casting or validation throws. */
  function CreatePaths(p: Document, appId: seq<Json>): (r: Option<Paths>)
    ensures r.Some? ==> r.value.appId == appId
    ensures r.Some? ==> Required(r.value.userId) && Required(r.value.password) && Required(r.value.url)
  {
    var userId := CastString(Get(p, "userId"), true);
    var password := CastString(Get(p, "password"), false);
    var url := CastString(Get(p, "url"), true);
    var firstName := CastString(Get(p, "firstName"), true);
    var lastName := CastString(Get(p, "lastName"), true);
    var title := CastString(Get(p, "title"), true);
    if userId.None? || password.None? || url.None? || firstName.None? || lastName.None? || title.None? then None
    else if !Required(userId.value) || !Required(password.value) || !Required(url.value) then None
    else Some(Paths(userId.value, password.value, url.value, firstName.value, lastName.value, title.value, appId))
  }

  /** The document `create` stores, if it does not throw. */
  function CreateDoc(p: Document, appId: seq<Json>): (r: Option<Document>)
    ensures r.Some? ==> forall f :: f in r.value ==> f in SchemaPaths
    ensures r.Some? ==> Get(r.value, "appId") == Arr(appId)
  {
    var v := CreatePaths(p, appId);
    if v.None? then None else SchemaDocumentFields(v.value); Some(SchemaDocument(v.value))
  }

  /** The document the handler stores for payload `p`. */
  function Stored(p: Document, ids: AppIds): (r: Option<Document>)
    ensures r.Some? ==> Get(r.value, "appId") == Arr(AppIdsFor(Get(p, "title"), ids))
  {
    CreateDoc(p, AppIdsFor(Get(p, "title"), ids))
  }

  /** A required path that is missing, `null`, or empty once cast. */
  predicate MissingRequired(v: Json, trim: bool) {
    IsNullish(v) || v == Str("") || (trim && v.Str? && AllSpace(v.s))
  }

  lemma CastRequired(v: Json, trim: bool)
    requires !v.Arr?
    ensures CastString(v, trim).Some?
    ensures !Required(CastString(v, trim).value) <==> MissingRequired(v, trim)
  {
    if v.Str? && trim {
      TrimEmpty(v.s);
      if v.s == [] {
        assert AllSpace(v.s);
      }
    }
  }

  /** `create` throws exactly when a `String` path holds an array, or
      `userId`, `password` or `url` is missing, `null` or empty, counting a
      `userId` or `url` of white space only as empty. */
  lemma CreateFailsIff(p: Document, appId: seq<Json>)
    ensures CreateDoc(p, appId).None? <==>
      || Get(p, "userId").Arr? || Get(p, "password").Arr? || Get(p, "url").Arr?
      || Get(p, "firstName").Arr? || Get(p, "lastName").Arr? || Get(p, "title").Arr?
      || MissingRequired(Get(p, "userId"), true) || MissingRequired(Get(p, "password"), false)
      || MissingRequired(Get(p, "url"), true)
  {
    if !Get(p, "userId").Arr? && !Get(p, "password").Arr? && !Get(p, "url").Arr? {
      CastRequired(Get(p, "userId"), true);
      CastRequired(Get(p, "password"), false);
      CastRequired(Get(p, "url"), true);
    }
  }

  /** The stored document has only schema paths, so never `email`,
      `schoolGroupId` or `schoolId`; it keeps the password as submitted,
      the `appId` list derived from the submitted title, and the default
      `deviceId`; `userId`, `password` and `url` are present and non-empty. */
  lemma StoredFields(p: Document, ids: AppIds)
    requires Stored(p, ids).Some?
    ensures forall f :: f in Stored(p, ids).value ==> f in SchemaPaths
    ensures "email" !in Stored(p, ids).value && "schoolGroupId" !in Stored(p, ids).value
    ensures "schoolId" !in Stored(p, ids).value
    ensures Get(Stored(p, ids).value, "password") == Get(p, "password")
    ensures Get(Stored(p, ids).value, "appId") == Arr(AppIdsFor(Get(p, "title"), ids))
    ensures Get(Stored(p, ids).value, "deviceId") == Str("")
    ensures Required(Get(Stored(p, ids).value, "userId")) && Required(Get(Stored(p, ids).value, "url"))
    ensures Required(Get(Stored(p, ids).value, "password"))
  {
    var v := CreatePaths(p, AppIdsFor(Get(p, "title"), ids)).value;
    SchemaDocumentFields(v);
    assert Get(Stored(p, ids).value, "userId") == v.userId;
    assert Get(Stored(p, ids).value, "password") == v.password;
    assert Get(Stored(p, ids).value, "url") == v.url;
  }

  /** A `String` path with `trim: true` stores a submitted string trimmed,
      and any other value as submitted. */
  lemma StoredTrimmed(p: Document, ids: AppIds, f: string)
    requires Stored(p, ids).Some? && f in {"userId", "url", "firstName", "lastName", "title"}
    ensures Get(p, f).Str? ==> Get(Stored(p, ids).value, f) == Str(Trim(Get(p, f).s))
    ensures !Get(p, f).Str? ==> Get(Stored(p, ids).value, f) == Get(p, f)
  {
    var v := CreatePaths(p, AppIdsFor(Get(p, "title"), ids)).value;
    SchemaDocumentFields(v);
    assert Get(Stored(p, ids).value, f) == PathValue(v, f);
    assert PathValue(v, f) == CastString(Get(p, f), true).value;
  }

  // ---------------------------------------------------------------------
  // The handler
  // ---------------------------------------------------------------------

  /** The `credential` object of the 201 response. */
  datatype Echo = Echo(id: nat, userId: Json, url: Json, firstName: Json, lastName: Json, title: Json,
                       appId: Json, email: Json, schoolGroupId: Json, createdAt: Time, updatedAt: Time)

  function EchoOf(r: Record): Echo {
    Echo(r.id, Get(r.doc, "userId"), Get(r.doc, "url"), Get(r.doc, "firstName"), Get(r.doc, "lastName"),
      Get(r.doc, "title"), Get(r.doc, "appId"), Get(r.doc, "email"), Get(r.doc, "schoolGroupId"),
      r.createdAt, r.updatedAt)
  }

  /** The responses: 400 with an error, a `create` that throws, or 201 with
      the created credential. */
  datatype WebhookResponse =
    | BadRequest(error: string)
    | CreateFailed
    | Created(credential: Echo)

  function Status(r: WebhookResponse): nat {
    match r
    case BadRequest(_) => 400
    case CreateFailed => 500
    case Created(_) => 201
  }

  /** What the 201 response echoes of a stored document: its own fields,
      never an `email` or `schoolGroupId`, and one timestamp for both
      `createdAt` and `updatedAt`. */
  lemma CreatedEcho(p: Document, ids: AppIds, id: nat, now: Time)
    requires Stored(p, ids).Some?
    ensures var e := EchoOf(Record(id, Stored(p, ids).value, now, now));
      && e.id == id && e.email == Undefined && e.schoolGroupId == Undefined
      && e.appId == Arr(AppIdsFor(Get(p, "title"), ids))
      && e.createdAt == now && e.updatedAt == now
  {
    StoredFields(p, ids);
  }

  /** `receiveCredentialWebhook(req, res)` against the credentials store:
      a 400 or a failed `create` leaves the store as it was; otherwise
      exactly one record is appended, whatever records the `userId`
      already has, and echoed back. */
  method ReceiveCredentialWebhook(store: CredentialStore, credentials: Option<Document>, ids: AppIds, now: Time)
    returns (response: WebhookResponse)
    requires store.Valid()
    modifies store
    ensures store.Valid()
    ensures !PayloadComplete(Payload(credentials)) ==>
      response == BadRequest(MissingPayload) && store.Value() == old(store.Value())
    ensures PayloadComplete(Payload(credentials)) && Stored(Payload(credentials), ids).None? ==>
      response == CreateFailed && store.Value() == old(store.Value())
    ensures PayloadComplete(Payload(credentials)) && Stored(Payload(credentials), ids).Some? ==>
      && store.records == old(store.records) + [Record(old(store.nextId), Stored(Payload(credentials), ids).value, now, now)]
      && store.nextId == old(store.nextId) + 1
      && response == Created(EchoOf(store.records[|store.records| - 1]))
  {
    var p := Payload(credentials);
    if !Truthy(Get(p, "userId")) || !Truthy(Get(p, "password")) || !Truthy(Get(p, "url")) {
      return BadRequest(MissingPayload);
    }
    var title := Get(p, "title");
    var appId: seq<Json> := [];
    if StrictEquals(title, Teacher) {
      appId := appId + [Str(ids.institute), Str(ids.mentor)];
    } else if StrictEquals(title, Parent) {
      appId := appId + [Str(ids.scholar)];
    }
    assert appId == AppIdsFor(title, ids);
    var created := CreateDoc(p, appId);
    assert created == Stored(p, ids);
    if created.None? {
      return CreateFailed;
    }
    var id := store.Insert(created.value, now);
    response := Created(EchoOf(Record(id, created.value, now, now)));
  }

  // ---------------------------------------------------------------------
  // Behind the middleware
  // ---------------------------------------------------------------------

  /** A string with nothing to trim is cast to itself. */
  lemma CastTrimmed(v: Json)
    requires v.Str? && IsTrimmed(v.s)
    ensures CastString(v, true) == Some(v)
  {
    TrimOfTrimmed(v.s);
  }

  /** A payload whose `String` paths hold strings with nothing to trim, and
      whose `userId`, `password` and `url` are not empty, is stored as it
      is. */
  lemma CreateTrimmed(p: Document, appId: seq<Json>)
    requires Get(p, "userId").Str? && IsTrimmed(Get(p, "userId").s)
    requires Get(p, "url").Str? && IsTrimmed(Get(p, "url").s)
    requires Get(p, "firstName").Str? && IsTrimmed(Get(p, "firstName").s)
    requires Get(p, "lastName").Str? && IsTrimmed(Get(p, "lastName").s)
    requires Get(p, "title").Str? && IsTrimmed(Get(p, "title").s)
    requires Get(p, "password").Str?
    requires Get(p, "userId") != Str("") && Get(p, "password") != Str("") && Get(p, "url") != Str("")
    ensures CreatePaths(p, appId) == Some(Paths(Get(p, "userId"), Get(p, "password"), Get(p, "url"),
      Get(p, "firstName"), Get(p, "lastName"), Get(p, "title"), appId))
  {
    CastTrimmed(Get(p, "userId"));
    CastTrimmed(Get(p, "url"));
    CastTrimmed(Get(p, "firstName"));
    CastTrimmed(Get(p, "lastName"));
    CastTrimmed(Get(p, "title"));
  }

  lemma ShapedStored(c: Document, ids: AppIds)
    requires Middleware.Shaped(c)
    ensures PayloadComplete(c) && Stored(c, ids).Some?
    ensures var d := Stored(c, ids).value;
      && Get(d, "userId") == c["userId"] && Get(d, "password") == c["password"] && Get(d, "url") == c["url"]
      && Get(d, "firstName") == c["firstName"] && Get(d, "lastName") == c["lastName"] && Get(d, "title") == c["title"]
    ensures Get(Stored(c, ids).value, "appId") == Arr(AppIdsFor(c["title"], ids))
  {
    assert Get(c, "userId") == c["userId"] && Get(c, "password") == c["password"] && Get(c, "url") == c["url"];
    assert Get(c, "firstName") == c["firstName"] && Get(c, "lastName") == c["lastName"];
    assert Get(c, "title") == c["title"];
    var a := AppIdsFor(c["title"], ids);
    CreateTrimmed(c, a);
    var v := Paths(c["userId"], c["password"], c["url"], c["firstName"], c["lastName"], c["title"], a);
    assert CreatePaths(c, a) == Some(v);
    assert CreateDoc(c, a) == Some(SchemaDocument(v));
    assert Stored(c, ids) == Some(SchemaDocument(v));
    SchemaDocumentFields(v);
    var d := Stored(c, ids).value;
    assert Get(d, "userId") == c["userId"] && Get(d, "password") == c["password"] && Get(d, "url") == c["url"];
    assert Get(d, "firstName") == c["firstName"] && Get(d, "lastName") == c["lastName"];
    assert Get(d, "title") == c["title"] && Get(d, "appId") == Arr(a);
  }

  /** Behind `extractCredentialsMiddleware` (the webhook route runs it
      first), the handler never answers 400 and `create` never throws. */
  lemma ThroughMiddleware(body: Option<Document>, ids: AppIds)
    requires Middleware.ExtractCredentials(body).Next?
    ensures Middleware.Shaped(Middleware.ExtractCredentials(body).credentials)
    ensures PayloadComplete(Middleware.ExtractCredentials(body).credentials)
    ensures Stored(Middleware.ExtractCredentials(body).credentials, ids).Some?
  {
    Middleware.NextIff(body);
    Middleware.NormalisedShaped(Middleware.Fields(body));
    ShapedStored(Middleware.ExtractCredentials(body).credentials, ids);
  }

  // ---------------------------------------------------------------------
  // The appended record, the clean-up and the login
  // ---------------------------------------------------------------------

  lemma {:induction false} MembersAppend(rs: seq<Record>, x: Record)
    ensures Dedup.Members(rs + [x], KeyOf(x)) == Dedup.Members(rs, KeyOf(x)) + [x]
    decreases |rs|
  {
    if rs != [] {
      assert (rs + [x])[1..] == rs[1..] + [x];
      MembersAppend(rs[1..], x);
    }
  }

  /** An appended record for a `userId` that already has a record forms a
      group of more than one, which the next clean-up finds. */
  lemma AppendMakesDuplicate(s: Snapshot, d: Document, now: Time, i: nat)
    requires i < |s.records| && KeyOf(s.records[i]) == DocKey(d)
    ensures |Dedup.Members(s.records + [Record(s.nextId, d, now, now)], DocKey(d))| > 1
  {
    var x := Record(s.nextId, d, now, now);
    MembersAppend(s.records, x);
    assert s.records[i] in Dedup.Members(s.records, DocKey(d));
  }

  /** A record appended with the next `_id` keeps the `_id`s distinct. */
  lemma AppendedDistinct(s: Snapshot, x: Record)
    requires IdsOrdered(s) && x.id == s.nextId
    ensures Dedup.DistinctIds(s.records + [x])
  {
    assert IdsOrdered(Snapshot(s.records + [x], s.nextId + 1));
    Dedup.OrderedIdsDistinct(Snapshot(s.records + [x], s.nextId + 1));
  }

  /** No member of a group has an array `appId` exactly when no record
      with that key has one. */
  lemma NoArrayInGroup(rs: seq<Record>, k: Json)
    ensures (forall i :: 0 <= i < |Dedup.Members(rs, k)| ==> !AppIdOf(Dedup.Members(rs, k)[i].doc).Arr?) <==>
      forall i :: 0 <= i < |rs| && KeyOf(rs[i]) == k ==> !AppIdOf(rs[i].doc).Arr?
  {
    var ms := Dedup.Members(rs, k);
    if forall i :: 0 <= i < |ms| ==> !AppIdOf(ms[i].doc).Arr? {
      forall j | 0 <= j < |rs| && KeyOf(rs[j]) == k
        ensures !AppIdOf(rs[j].doc).Arr?
      {
        assert rs[j] in ms;
        var i :| 0 <= i < |ms| && ms[i] == rs[j];
      }
    }
    if forall j :: 0 <= j < |rs| && KeyOf(rs[j]) == k ==> !AppIdOf(rs[j].doc).Arr? {
      forall i | 0 <= i < |ms|
        ensures !AppIdOf(ms[i].doc).Arr?
      {
        assert ms[i] in ms;
        var j :| 0 <= j < |rs| && rs[j] == ms[i];
        assert KeyOf(rs[j]) == k;
      }
    }
  }

  /** The last member of a group, with an array `appId`, is its survivor
      exactly when no earlier member has an array `appId`. */
  lemma LastSurvivorIff(before: seq<Record>, x: Record)
    requires AppIdOf(x.doc).Arr?
    ensures Dedup.SurvivorIndex(Dedup.Pushes(before + [x]), |before|) <==>
      forall i :: 0 <= i < |before| ==> !AppIdOf(before[i].doc).Arr?
  {
    var docs := Dedup.Pushes(before + [x]);
    assert docs[|before|].appId.Arr?;
    assert forall i :: 0 <= i < |before| ==> docs[i].appId == AppIdOf(before[i].doc);
  }

  /** The clean-up keeps the webhook's record (whose `appId` is an array)
      exactly when no older record of its `userId` has an array `appId`;
      otherwise the older record survives and the new one, with the
      entitlements derived from its title, is deleted. */
  lemma AppendedSurvivesIff(s: Snapshot, d: Document, now: Time)
    requires IdsOrdered(s) && AppIdOf(d).Arr?
    ensures Record(s.nextId, d, now, now) in Dedup.Resolved(s.records + [Record(s.nextId, d, now, now)]) <==>
      forall i :: 0 <= i < |s.records| && KeyOf(s.records[i]) == DocKey(d) ==> !AppIdOf(s.records[i].doc).Arr?
  {
    var x := Record(s.nextId, d, now, now);
    var rs := s.records + [x];
    var k := KeyOf(x);
    AppendedDistinct(s, x);
    MembersAppend(s.records, x);
    var before := Dedup.Members(s.records, k);
    Dedup.SurvivorRule(rs, k, |before|);
    assert Dedup.Members(rs, k)[|before|] == x;
    LastSurvivorIff(before, x);
    NoArrayInGroup(s.records, k);
  }

  /** Login reads the first record its cast `userId` selects: once the
      lookup has an outcome other than "nothing found", a record the webhook
      appends changes no login outcome. */
  lemma AppendedHiddenFromLogin(body: Document, rs: seq<Record>, x: Record)
    requires !Login.FindOne(rs, Login.ResolveUserId(body)).NotFound?
    ensures Login.LoginWithCredential(body, rs + [x]) == Login.LoginWithCredential(body, rs)
  {
    Login.FindOneExtend(rs, [x], Login.ResolveUserId(body));
    if Login.FindOne(rs, Login.ResolveUserId(body)).Found? {
      var i := Login.FindOne(rs, Login.ResolveUserId(body)).index;
      assert (rs + [x])[i] == rs[i];
    }
  }

  /** A record holding the derived `appId` list is entitled to each of its
      applications. */
  lemma GrantedAppsEntitled(x: Record, title: Json, ids: AppIds, a: Json)
    requires AppIdOf(x.doc) == Arr(AppIdsFor(title, ids)) && a in AppIdsFor(title, ids)
    ensures Login.Entitled(x, a)
  {
    var k :| 0 <= k < |AppIdsFor(title, ids)| && AppIdsFor(title, ids)[k] == a;
    assert StrictEquals(AppIdOf(x.doc).items[k], a);
  }

  /** A record appended for a `userId` that found nothing before, and that
      the cast `userId` selects, decides the login. */
  lemma AppendedDecidesLogin(body: Document, rs: seq<Record>, x: Record)
    requires Login.FindOne(rs, Login.ResolveUserId(body)).NotFound?
    requires Login.Selects(Login.CastFilter(Login.ResolveUserId(body)).value, UserIdOf(x.doc))
    requires Login.RequestComplete(body) && Login.PasswordMatches(x, body)
    requires Login.Entitled(x, Get(body, "applicationID"))
    ensures Login.LoginWithCredential(body, rs + [x]) ==
      Login.Granted(Login.TokenClaims(x, Get(body, "applicationID")), Get(x.doc, "url"))
  {
    Login.FindOneAppended(rs, x, Login.ResolveUserId(body));
    assert (rs + [x])[|rs|] == x;
  }

  /** For a `userId` with no record yet, forwarded credentials stored by the
      webhook log in, under any id that casts to the stored one, with the
      forwarded password to every application the title grants, and the
      token's role is the title. */
  lemma FirstRecordLogsIn(body: Document, rs: seq<Record>, c: Document, ids: AppIds, id: nat, now: Time)
    requires Middleware.Shaped(c)
    requires Login.CastScalar(Login.ResolveUserId(body)) == Some(c["userId"]) && Truthy(Login.ResolveUserId(body))
    requires Get(body, "password") == c["password"]
    requires Get(body, "applicationID") in AppIdsFor(c["title"], ids) && Truthy(Get(body, "applicationID"))
    requires FirstMatch(rs, c["userId"]).None?
    ensures Stored(c, ids).Some?
    ensures var r := Login.LoginWithCredential(body, rs + [Record(id, Stored(c, ids).value, now, now)]);
      r.Granted? && r.claims.role == c["title"] && r.claims.subject == id
  {
    ShapedStored(c, ids);
    var d := Stored(c, ids).value;
    var x := Record(id, d, now, now);
    var a := Get(body, "applicationID");
    GrantedAppsEntitled(x, c["title"], ids, a);
    Login.ScalarQuery(rs, Login.ResolveUserId(body));
    AppendedDecidesLogin(body, rs, x);
    Login.TokenClaimsFields(x, a);
  }
}
