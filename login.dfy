/** `loginWithCredential` (`authController.js`): a chain of guards over the
    request body and the one credential `findOne({ userId })` selects,
    ending in 400, 401, 403 or a signed token; and the claims `signToken`
    puts into that token. */
module Login {
  import opened Values
  import opened Collection
  import Upsert
  import ParentMigration

  const MissingIdentity: string := "userId and password are required"
  const MissingApplication: string := "applicationID is required"
  const InvalidCredentials: string := "Invalid credentials"
  const AccessDenied: string := "Access denied: User does not have access to this application"

  /** `employeeID || parentID || childID`: the first truthy one, else
      `childID` itself. */
  function ResolveUserId(body: Document): (userId: Json)
    ensures Truthy(userId) <==>
      Truthy(Get(body, "employeeID")) || Truthy(Get(body, "parentID")) || Truthy(Get(body, "childID"))
    ensures Truthy(Get(body, "employeeID")) ==> userId == Get(body, "employeeID")
    ensures !Truthy(Get(body, "employeeID")) && Truthy(Get(body, "parentID")) ==> userId == Get(body, "parentID")
    ensures !Truthy(Get(body, "employeeID")) && !Truthy(Get(body, "parentID")) ==> userId == Get(body, "childID")
  {
    Or(Or(Get(body, "employeeID"), Get(body, "parentID")), Get(body, "childID"))
  }

  /** The payload `signToken` signs, and its `subject` (the record's `_id`). */
  datatype Claims = Claims(role: Json, userId: Json, firstName: Json, lastName: Json, appId: Json, subject: nat)

  /** `signToken({ ...user.toObject(), appId: applicationID })`, without the
      signature: the stored `title` becomes the role, and the requested
      application replaces the stored `appId` list. */
  function TokenClaims(user: Record, applicationID: Json): (c: Claims)
    ensures c.appId == applicationID && c.subject == user.id
  {
    var signed := user.doc["appId" := applicationID];
    Claims(Get(signed, "title"), Get(signed, "userId"), Get(signed, "firstName"), Get(signed, "lastName"),
           Get(signed, "appId"), user.id)
  }

  /** The claims carry the stored profile, the requested application as a
      single value, and the record's `_id`. */
  lemma TokenClaimsFields(user: Record, applicationID: Json)
    ensures TokenClaims(user, applicationID).role == Get(user.doc, "title")
    ensures TokenClaims(user, applicationID).userId == UserIdOf(user.doc)
    ensures TokenClaims(user, applicationID).firstName == Get(user.doc, "firstName")
    ensures TokenClaims(user, applicationID).lastName == Get(user.doc, "lastName")
    ensures TokenClaims(user, applicationID).appId == applicationID
    ensures TokenClaims(user, applicationID).subject == user.id
  {
  }

  // ---------------------------------------------------------------------
  // `Credential.findOne({ userId })`: the query cast, then the first match
  // ---------------------------------------------------------------------

  /** A value as the cast leaves it for the `String` path `userId`: never a
      number, boolean or array, and a string has nothing left to trim. */
  predicate CastValue(v: Json) {
    !v.Num? && !v.Bool? && !v.Arr? && (v.Str? ==> IsTrimmed(v.s))
  }

  /** The cast of one query value for `userId` (`type: String, trim: true`):
      a string is trimmed, a number or boolean becomes its text, `null` and
      `undefined` pass through, and an array cannot be cast to a string. */
  function CastScalar(v: Json): (r: Option<Json>)
    ensures r.None? <==> v.Arr?
    ensures r.Some? ==> CastValue(r.value)
    ensures r.Some? && r.value.Str? ==> v.Str? || v.Num? || v.Bool?
  {
    match v
    case Str(s) => TrimSpec(s); Some(Str(Trim(s)))
    case Num(n) => NumberTextTrimmed(n); Some(Str(NumberText(n)))
    case Bool(b) => Some(Str(if b then "true" else "false"))
    case Arr(_) => None
    case _ => Some(v)
  }

  /** The cast of every element of a query array; it fails when one element
      is itself an array. */
  function CastEach(xs: seq<Json>): (r: Option<seq<Json>>)
    ensures r.Some? <==> forall k :: 0 <= k < |xs| ==> !xs[k].Arr?
    ensures r.Some? ==> |r.value| == |xs| && forall k :: 0 <= k < |xs| ==> CastScalar(xs[k]) == Some(r.value[k])
  {
    if xs == [] then Some([])
    else
      var rest := CastEach(xs[1..]);
      assert forall k :: 1 <= k < |xs| ==> xs[k] == xs[1..][k - 1];
      if xs[0].Arr? || rest.None? then None
      else Some([CastScalar(xs[0]).value] + rest.value)
  }

  /** The filter on `userId` the cast produces: an equality, or `$in` over
      the elements when the query value is an array. */
  datatype UserIdFilter = Equals(value: Json) | In(values: seq<Json>)

  /** The values a filter compares the stored `userId` with. */
  function Compared(f: UserIdFilter): seq<Json> {
    match f
    case Equals(q) => [q]
    case In(qs) => qs
  }

  /** `{ userId }` cast against the schema; `None` is the `CastError` the
      query rejects with. */
  function CastFilter(userId: Json): (f: Option<UserIdFilter>)
    ensures f.None? <==> userId.Arr? && exists k :: 0 <= k < |userId.items| && userId.items[k].Arr?
    ensures f.Some? ==> (f.value.In? <==> userId.Arr?)
    ensures f.Some? ==> forall k :: 0 <= k < |Compared(f.value)| ==> CastValue(Compared(f.value)[k])
    ensures f.Some? && f.value.In? ==> |f.value.values| == |userId.items|
  {
    if userId.Arr? then
      match CastEach(userId.items)
      case None => None
      case Some(ys) => Some(In(ys))
    else Some(Equals(CastScalar(userId).value))
  }

  /** MongoDB's match of a stored `userId` against the filter: `$in`
      matches when one of its values does. */
  predicate Selects(f: UserIdFilter, v: Json) {
    match f
    case Equals(q) => Matches(v, q)
    case In(qs) => exists k :: 0 <= k < |qs| && Matches(v, qs[k])
  }

  /** The first record, in natural order, the filter selects. */
  function FirstSelected(rs: seq<Record>, f: UserIdFilter): (r: Option<nat>)
    ensures r.Some? ==> r.value < |rs| && Selects(f, UserIdOf(rs[r.value].doc))
    ensures r.Some? ==> forall j :: 0 <= j < r.value ==> !Selects(f, UserIdOf(rs[j].doc))
    ensures r.None? ==> forall j :: 0 <= j < |rs| ==> !Selects(f, UserIdOf(rs[j].doc))
  {
    if rs == [] then None
    else if Selects(f, UserIdOf(rs[0].doc)) then Some(0)
    else match FirstSelected(rs[1..], f)
      case None => None
      case Some(i) => Some(i + 1)
  }

  /** How `findOne` ends: the cast fails, nothing is selected, or the first
      selected record is returned. */
  datatype Lookup = CastError | NotFound | Found(index: nat)

  /** `Credential.findOne({ userId })` over the credentials in natural
      order. */
  function FindOne(rs: seq<Record>, userId: Json): (r: Lookup)
    ensures r.CastError? <==> CastFilter(userId).None?
    ensures r.Found? ==> r.index < |rs| && Selects(CastFilter(userId).value, UserIdOf(rs[r.index].doc))
    ensures r.Found? ==> forall j :: 0 <= j < r.index ==> !Selects(CastFilter(userId).value, UserIdOf(rs[j].doc))
    ensures r.NotFound? ==> forall j :: 0 <= j < |rs| ==> !Selects(CastFilter(userId).value, UserIdOf(rs[j].doc))
  {
    match CastFilter(userId)
    case None => CastError
    case Some(f) =>
      match FirstSelected(rs, f)
      case None => NotFound
      case Some(i) => Found(i)
  }

  /** An equality filter selects what the stored-key match `FirstMatch`
      finds. */
  lemma {:induction false} FirstSelectedEquals(rs: seq<Record>, q: Json)
    ensures FirstSelected(rs, Equals(q)) == FirstMatch(rs, q)
  {
    if rs != [] && !Matches(UserIdOf(rs[0].doc), q) {
      FirstSelectedEquals(rs[1..], q);
    }
  }

  /** A query value that is not an array is looked up as its cast: a string
      trimmed, a number or boolean as its text. */
  lemma ScalarQuery(rs: seq<Record>, q: Json)
    requires !q.Arr?
    ensures FindOne(rs, q).NotFound? <==> FirstMatch(rs, CastScalar(q).value).None?
    ensures FindOne(rs, q).Found? <==> FirstMatch(rs, CastScalar(q).value).Some?
    ensures FindOne(rs, q).Found? ==> FindOne(rs, q).index == FirstMatch(rs, CastScalar(q).value).value
  {
    FirstSelectedEquals(rs, CastScalar(q).value);
  }

  /** A stored `userId` that no cast value equals (a number, a boolean, or
      a string with surrounding white space) is never found, whatever the
      query. */
  lemma NeverFound(rs: seq<Record>, q: Json, i: nat)
    requires i < |rs| && !UserIdOf(rs[i].doc).Arr? && !CastValue(UserIdOf(rs[i].doc))
    ensures FindOne(rs, q) != Found(i)
  {
  }

  /** Appending records does not change a record already found. */
  lemma {:induction false} FirstSelectedExtend(rs: seq<Record>, extra: seq<Record>, f: UserIdFilter)
    requires FirstSelected(rs, f).Some?
    ensures FirstSelected(rs + extra, f) == FirstSelected(rs, f)
  {
    if !Selects(f, UserIdOf(rs[0].doc)) {
      assert (rs + extra)[1..] == rs[1..] + extra;
      FirstSelectedExtend(rs[1..], extra, f);
    }
  }

  /** Appending a record the filter selects makes it the one found when
      nothing was before. */
  lemma {:induction false} FirstSelectedAppended(rs: seq<Record>, x: Record, f: UserIdFilter)
    requires FirstSelected(rs, f).None? && Selects(f, UserIdOf(x.doc))
    ensures FirstSelected(rs + [x], f) == Some(|rs|)
  {
    if rs != [] {
      assert (rs + [x])[1..] == rs[1..] + [x];
      FirstSelectedAppended(rs[1..], x, f);
    }
  }

  /** Appended records change a lookup only when it found nothing. */
  lemma FindOneExtend(rs: seq<Record>, extra: seq<Record>, q: Json)
    requires !FindOne(rs, q).NotFound?
    ensures FindOne(rs + extra, q) == FindOne(rs, q)
  {
    if CastFilter(q).Some? {
      FirstSelectedExtend(rs, extra, CastFilter(q).value);
    }
  }

  /** A lookup that found nothing finds an appended record it selects. */
  lemma FindOneAppended(rs: seq<Record>, x: Record, q: Json)
    requires FindOne(rs, q).NotFound? && Selects(CastFilter(q).value, UserIdOf(x.doc))
    ensures FindOne(rs + [x], q) == Found(|rs|)
  {
    FirstSelectedAppended(rs, x, CastFilter(q).value);
  }

  /** The responses of the handler. `LookupFailed` is the rejected
      `findOne` promise, which the handler does not catch. */
  datatype Response =
    | BadRequest(error: string)
    | Unauthorized(error: string)
    | Forbidden(error: string)
    | LookupFailed
    | Granted(claims: Claims, url: Json)

  function Status(r: Response): nat {
    match r
    case BadRequest(_) => 400
    case Unauthorized(_) => 401
    case Forbidden(_) => 403
    case LookupFailed => 500
    case Granted(_, _) => 200
  }

  /** The request-only guards: a password, a resolved `userId`, and an
      `applicationID`, all truthy. */
  predicate RequestComplete(body: Document) {
    Truthy(Get(body, "password")) && Truthy(ResolveUserId(body)) && Truthy(Get(body, "applicationID"))
  }

  /** The stored credential matches the request: its password is `===` the
      submitted one. */
  predicate PasswordMatches(user: Record, body: Document) {
    StrictEquals(Get(user.doc, "password"), Get(body, "password"))
  }

  /** The stored `appId` is an array that includes the requested
      application. */
  predicate Entitled(user: Record, applicationID: Json) {
    AppIdOf(user.doc).Arr? && Includes(AppIdOf(user.doc).items, applicationID)
  }

  /** `loginWithCredential`, against the credentials `rs` in natural order. */
  function LoginWithCredential(body: Document, rs: seq<Record>): (r: Response)
    ensures r.BadRequest? <==> !RequestComplete(body)
    ensures r.LookupFailed? <==> RequestComplete(body) && FindOne(rs, ResolveUserId(body)).CastError?
    ensures r.Unauthorized? ==> r.error == InvalidCredentials
    ensures r.Granted? ==> FindOne(rs, ResolveUserId(body)).Found? && r.claims.appId == Get(body, "applicationID")
  {
    var userId := ResolveUserId(body);
    var password := Get(body, "password");
    var applicationID := Get(body, "applicationID");
    if !Truthy(password) || !Truthy(userId) then BadRequest(MissingIdentity)
    else if !Truthy(applicationID) then BadRequest(MissingApplication)
    else match FindOne(rs, userId)
      case CastError => LookupFailed
      case NotFound => Unauthorized(InvalidCredentials)
      case Found(i) =>
        var user := rs[i];
        if !StrictEquals(Get(user.doc, "password"), password) then Unauthorized(InvalidCredentials)
        else if !AppIdOf(user.doc).Arr? || !Includes(AppIdOf(user.doc).items, applicationID) then Forbidden(AccessDenied)
        else Granted(TokenClaims(user, applicationID), Get(user.doc, "url"))
  }

  /** 400 exactly when a request guard fails; the password and `userId`
      guard is checked first. */
  lemma BadRequestIff(body: Document, rs: seq<Record>)
    ensures LoginWithCredential(body, rs).BadRequest? <==> !RequestComplete(body)
    ensures LoginWithCredential(body, rs) == BadRequest(MissingIdentity) <==>
      !Truthy(Get(body, "password")) || !Truthy(ResolveUserId(body))
    ensures LoginWithCredential(body, rs) == BadRequest(MissingApplication) <==>
      Truthy(Get(body, "password")) && Truthy(ResolveUserId(body)) && !Truthy(Get(body, "applicationID"))
  {
  }

  /** A 400 is decided before the lookup: the stored credentials do not
      change it. */
  lemma BadRequestBeforeLookup(body: Document, rs: seq<Record>, rs': seq<Record>)
    requires LoginWithCredential(body, rs).BadRequest?
    ensures LoginWithCredential(body, rs') == LoginWithCredential(body, rs)
  {
    BadRequestIff(body, rs);
  }

  /** The lookup fails exactly when the request is complete and the
      resolved `userId` is an array with an array among its elements. */
  lemma LookupFailedIff(body: Document, rs: seq<Record>)
    ensures LoginWithCredential(body, rs).LookupFailed? <==>
      && RequestComplete(body)
      && ResolveUserId(body).Arr?
      && exists k :: 0 <= k < |ResolveUserId(body).items| && ResolveUserId(body).items[k].Arr?
  {
  }

  /** 401, always with the same message, exactly when the request is
      complete and no credential is selected by the cast `userId`, or the
      first one selected has another password. */
  lemma UnauthorizedIff(body: Document, rs: seq<Record>)
    ensures LoginWithCredential(body, rs).Unauthorized? ==> LoginWithCredential(body, rs).error == InvalidCredentials
    ensures LoginWithCredential(body, rs).Unauthorized? <==>
      && RequestComplete(body)
      && CastFilter(ResolveUserId(body)).Some?
      && ((forall j :: 0 <= j < |rs| ==> !Selects(CastFilter(ResolveUserId(body)).value, UserIdOf(rs[j].doc)))
          || (FindOne(rs, ResolveUserId(body)).Found? && !PasswordMatches(rs[FindOne(rs, ResolveUserId(body)).index], body)))
  {
    var q := ResolveUserId(body);
    if RequestComplete(body) && CastFilter(q).Some? && FindOne(rs, q).Found? {
      var i := FindOne(rs, q).index;
      assert Selects(CastFilter(q).value, UserIdOf(rs[i].doc));
    }
  }

  /** 403 exactly when the request is complete and the first credential
      selected has the password but not the application. */
  lemma ForbiddenIff(body: Document, rs: seq<Record>)
    ensures LoginWithCredential(body, rs).Forbidden? <==>
      && RequestComplete(body)
      && FindOne(rs, ResolveUserId(body)).Found?
      && PasswordMatches(rs[FindOne(rs, ResolveUserId(body)).index], body)
      && !Entitled(rs[FindOne(rs, ResolveUserId(body)).index], Get(body, "applicationID"))
  {
  }

  /** Success exactly when every guard passes; the token then names the
      stored title as role and the requested application as `appId`, and
      the response carries the stored `url`. */
  lemma GrantedIff(body: Document, rs: seq<Record>)
    ensures LoginWithCredential(body, rs).Granted? <==>
      && RequestComplete(body)
      && FindOne(rs, ResolveUserId(body)).Found?
      && PasswordMatches(rs[FindOne(rs, ResolveUserId(body)).index], body)
      && Entitled(rs[FindOne(rs, ResolveUserId(body)).index], Get(body, "applicationID"))
    ensures LoginWithCredential(body, rs).Granted? ==>
      var i := FindOne(rs, ResolveUserId(body)).index;
      && LoginWithCredential(body, rs).claims.role == Get(rs[i].doc, "title")
      && LoginWithCredential(body, rs).claims.appId == Get(body, "applicationID")
      && LoginWithCredential(body, rs).claims.subject == rs[i].id
      && LoginWithCredential(body, rs).url == Get(rs[i].doc, "url")
  {
    var r := LoginWithCredential(body, rs);
    if r.Granted? {
      TokenClaimsFields(rs[FindOne(rs, ResolveUserId(body)).index], Get(body, "applicationID"));
    }
  }

  /** A granted login proves a stored credential the cast `userId` selects,
      with the password and the application among its entitlements. */
  lemma GrantedIsEntitled(body: Document, rs: seq<Record>)
    requires LoginWithCredential(body, rs).Granted?
    ensures CastFilter(ResolveUserId(body)).Some?
    ensures exists i ::
              && 0 <= i < |rs|
              && Selects(CastFilter(ResolveUserId(body)).value, UserIdOf(rs[i].doc))
              && Get(rs[i].doc, "password") == Get(body, "password")
              && AppIdOf(rs[i].doc).Arr? && Get(body, "applicationID") in AppIdOf(rs[i].doc).items
  {
    GrantedIff(body, rs);
    var i := FindOne(rs, ResolveUserId(body)).index;
    var k :| 0 <= k < |AppIdOf(rs[i].doc).items| && StrictEquals(AppIdOf(rs[i].doc).items[k], Get(body, "applicationID"));
    assert AppIdOf(rs[i].doc).items[k] in AppIdOf(rs[i].doc).items;
  }

  /** The guards in their order: a request guard failing hides the lookup,
      a missing credential or wrong password hides the entitlement check. */
  lemma GuardOrder(body: Document, rs: seq<Record>)
    ensures Status(LoginWithCredential(body, rs)) == 400 <==> !RequestComplete(body)
    ensures Status(LoginWithCredential(body, rs)) == 403 ==>
      RequestComplete(body) && PasswordMatches(rs[FindOne(rs, ResolveUserId(body)).index], body)
    ensures Status(LoginWithCredential(body, rs)) == 500 ==> RequestComplete(body)
    ensures RequestComplete(body) && FindOne(rs, ResolveUserId(body)).NotFound? ==>
      Status(LoginWithCredential(body, rs)) == 401
  {
    BadRequestIff(body, rs);
    ForbiddenIff(body, rs);
  }

  /** A credential whose `userId` is a number, as a migration writing through
      the driver stores a numeric id, never logs anyone in: a granted token
      always comes from another credential. */
  lemma NumericUserIdNeverGranted(body: Document, rs: seq<Record>, i: nat)
    requires i < |rs| && UserIdOf(rs[i].doc).Num?
    ensures LoginWithCredential(body, rs).Granted? ==>
      exists j :: 0 <= j < |rs| && j != i && LoginWithCredential(body, rs).claims.subject == rs[j].id
                  && PasswordMatches(rs[j], body) && Entitled(rs[j], Get(body, "applicationID"))
    ensures |rs| == 1 ==> !LoginWithCredential(body, rs).Granted?
  {
    NeverFound(rs, ResolveUserId(body), i);
    GrantedIff(body, rs);
  }

  /** What the guardian migration promises this handler: a contributing
      guardian whose credential accepts `$addToSet` logs in to
      `'ParentApp'` with the stored password, whatever the collection held
      before, when the submitted id casts to the stored identity. */
  lemma GuardianLoginAfterMigration(c: Snapshot, sources: seq<Document>, now: Time, s: Document, body: Document)
    requires ScalarIds(c.records) && ParentMigration.ScalarIdentities(sources)
    requires s in ParentMigration.Contributors(sources)
    requires CastScalar(ResolveUserId(body)) == Some(ParentMigration.Identity(s)) && Truthy(ResolveUserId(body))
    requires Truthy(Get(body, "password")) && Get(body, "applicationID") == ParentMigration.ParentApp
    ensures FindOne(ApplyBatch(c, ParentMigration.Operations(sources), now).after.records, ResolveUserId(body)).Found?
    ensures var rs := ApplyBatch(c, ParentMigration.Operations(sources), now).after.records;
      var i := FindOne(rs, ResolveUserId(body)).index;
      (Upsert.AddableAppId(rs[i].doc) && PasswordMatches(rs[i], body) ==>
            LoginWithCredential(body, rs).Granted?)
  {
    ParentMigration.ParentUpsertsGrant(c, sources, now, s);
    var rs := ApplyBatch(c, ParentMigration.Operations(sources), now).after.records;
    ScalarQuery(rs, ResolveUserId(body));
    var i := FindOne(rs, ResolveUserId(body)).index;
    if Upsert.AddableAppId(rs[i].doc) && PasswordMatches(rs[i], body) {
      var items := AppIdOf(rs[i].doc).items;
      var k :| 0 <= k < |items| && items[k] == ParentMigration.ParentApp;
      assert StrictEquals(items[k], Get(body, "applicationID"));
      GrantedIff(body, rs);
    }
  }
}
