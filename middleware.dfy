/** `extractCredentialsMiddleware` (`middleware/auth.js`): validates the
    request body in the order `userId`, `password`, `url`, and forwards a
    normalised credentials object of six trimmed fields. */
module Middleware {
  import opened Values

  const UserIdRequired: string := "userId is required"
  const PasswordRequired: string := "password is required"
  const UrlRequired: string := "url is required"

  /** What the middleware does with a request: answer 400, throw (a
      `TypeError` from calling `trim` on a value that is not a string), or
      call `next()` with `req.credentials` set. */
  datatype Outcome =
    | Rejected(error: string)
    | Crashed
    | Next(credentials: Document)

  /** `req.body || {}`: an absent body reads as an empty object. */
  function Fields(body: Option<Document>): Document {
    if body.Some? then body.value else map[]
  }

  /** `!v || typeof v !== 'string' || !v.trim()` */
  predicate Blank(v: Json) {
    !Truthy(v) || !v.Str? || Trim(v.s) == []
  }

  /** `!v || typeof v !== 'string'` */
  predicate BadPassword(v: Json) {
    !Truthy(v) || !v.Str?
  }

  /** The three optional name fields before trimming:
      `firstName || fname || ''`, `lastName || ''` and `title || ''`. */
  function FirstNameOf(b: Document): Json { Or(Or(Get(b, "firstName"), Get(b, "fname")), Str("")) }
  function LastNameOf(b: Document): Json { Or(Get(b, "lastName"), Str("")) }
  function TitleOf(b: Document): Json { Or(Get(b, "title"), Str("")) }

  /** A name field would be passed to `trim` while it is not a string. */
  predicate NamesCrash(b: Document) {
    !FirstNameOf(b).Str? || !LastNameOf(b).Str? || !TitleOf(b).Str?
  }

  /** The fields `req.credentials` carries. */
  const ForwardedFields: set<string> := {"userId", "password", "url", "firstName", "lastName", "title"}

  /** An object literal with the six forwarded fields. */
  function CredentialsObject(userId: Json, password: Json, url: Json, firstName: Json, lastName: Json, title: Json): Document {
    map["userId" := userId, "password" := password, "url" := url,
        "firstName" := firstName, "lastName" := lastName, "title" := title]
  }

  lemma CredentialsObjectFields(userId: Json, password: Json, url: Json, firstName: Json, lastName: Json, title: Json)
    ensures var c := CredentialsObject(userId, password, url, firstName, lastName, title);
      && c.Keys == ForwardedFields
      && c["userId"] == userId && c["password"] == password && c["url"] == url
      && c["firstName"] == firstName && c["lastName"] == lastName && c["title"] == title
  {
  }

  /** The object assigned to `req.credentials`. */
  function Normalised(b: Document): Document
    requires Get(b, "userId").Str? && Get(b, "url").Str? && !NamesCrash(b)
  {
    CredentialsObject(Str(Trim(Get(b, "userId").s)), Get(b, "password"), Str(Trim(Get(b, "url").s)),
      Str(Trim(FirstNameOf(b).s)), Str(Trim(LastNameOf(b).s)), Str(Trim(TitleOf(b).s)))
  }

  lemma NormalisedFields(b: Document)
    requires Get(b, "userId").Str? && Get(b, "url").Str? && !NamesCrash(b)
    ensures Normalised(b).Keys == ForwardedFields
    ensures Normalised(b)["userId"] == Str(Trim(Get(b, "userId").s))
    ensures Normalised(b)["password"] == Get(b, "password")
    ensures Normalised(b)["url"] == Str(Trim(Get(b, "url").s))
    ensures Normalised(b)["firstName"] == Str(Trim(FirstNameOf(b).s))
    ensures Normalised(b)["lastName"] == Str(Trim(LastNameOf(b).s))
    ensures Normalised(b)["title"] == Str(Trim(TitleOf(b).s))
  {
    CredentialsObjectFields(Str(Trim(Get(b, "userId").s)), Get(b, "password"), Str(Trim(Get(b, "url").s)),
      Str(Trim(FirstNameOf(b).s)), Str(Trim(LastNameOf(b).s)), Str(Trim(TitleOf(b).s)));
  }

  /** `extractCredentialsMiddleware(req, res, next)` */
  function ExtractCredentials(body: Option<Document>): (r: Outcome)
    ensures r.Rejected? ==> r.error in {UserIdRequired, PasswordRequired, UrlRequired}
    ensures r.Next? ==> r.credentials.Keys == ForwardedFields
    ensures r.Next? ==> r.credentials["password"] == Get(Fields(body), "password")
  {
    var b := Fields(body);
    if Blank(Get(b, "userId")) then Rejected(UserIdRequired)
    else if BadPassword(Get(b, "password")) then Rejected(PasswordRequired)
    else if Blank(Get(b, "url")) then Rejected(UrlRequired)
    else if NamesCrash(b) then Crashed
    else NormalisedFields(b); Next(Normalised(b))
  }

  /** The checks in their order: the first failing one decides the 400, and
      nothing else is ever rejected. A whitespace-only password passes. */
  lemma RejectedIff(body: Option<Document>)
    ensures var b := Fields(body);
      ExtractCredentials(body) == Rejected(UserIdRequired) <==> Blank(Get(b, "userId"))
    ensures var b := Fields(body);
      ExtractCredentials(body) == Rejected(PasswordRequired) <==>
        !Blank(Get(b, "userId")) && (Get(b, "password") == Undefined || Get(b, "password") == Null
                                     || Get(b, "password") == Str("") || !Get(b, "password").Str?)
    ensures var b := Fields(body);
      ExtractCredentials(body) == Rejected(UrlRequired) <==>
        !Blank(Get(b, "userId")) && !BadPassword(Get(b, "password")) && Blank(Get(b, "url"))
    ensures ExtractCredentials(body).Rejected? ==>
      ExtractCredentials(body).error in {UserIdRequired, PasswordRequired, UrlRequired}
  {
  }

  /** A blank `userId` or `url` is one that is missing, not a string, or
      nothing but white space. */
  lemma BlankIff(v: Json)
    ensures Blank(v) <==> !v.Str? || AllSpace(v.s)
  {
    if v.Str? {
      TrimEmpty(v.s);
    }
  }

  /** The request passes the checks but `trim` is called on a name field
      that is truthy and not a string. */
  lemma CrashedIff(body: Option<Document>)
    ensures var b := Fields(body);
      ExtractCredentials(body).Crashed? <==>
        && !Blank(Get(b, "userId")) && !BadPassword(Get(b, "password")) && !Blank(Get(b, "url"))
        && (|| (Truthy(Get(b, "firstName")) && !Get(b, "firstName").Str?)
            || (!Truthy(Get(b, "firstName")) && Truthy(Get(b, "fname")) && !Get(b, "fname").Str?)
            || (Truthy(Get(b, "lastName")) && !Get(b, "lastName").Str?)
            || (Truthy(Get(b, "title")) && !Get(b, "title").Str?))
  {
  }

  /** Every check passes and no name field makes `trim` throw. */
  predicate Passes(b: Document) {
    !Blank(Get(b, "userId")) && !BadPassword(Get(b, "password")) && !Blank(Get(b, "url")) && !NamesCrash(b)
  }

  /** `next()` is called exactly when every check passes and every name
      field is a string, falsy or not; what it forwards is the normalised
      object. */
  lemma NextIff(body: Option<Document>)
    ensures ExtractCredentials(body).Next? <==> Passes(Fields(body))
    ensures ExtractCredentials(body).Next? ==> ExtractCredentials(body).credentials == Normalised(Fields(body))
  {
    var b := Fields(body);
    if ExtractCredentials(body).Next? {
      assert !Blank(Get(b, "userId")) && !BadPassword(Get(b, "password")) && !Blank(Get(b, "url")) && !NamesCrash(b);
    }
  }

  /** A forwarded `userId` or `url`: the submitted string with surrounding
      white space cut, non-empty, with nothing left to trim. */
  predicate TrimmedFrom(submitted: Json, forwarded: Json) {
    && submitted.Str? && forwarded.Str?
    && forwarded.s != [] && IsTrimmed(forwarded.s)
    && TrimmedInfix(submitted.s, forwarded.s, |submitted.s| - |TrimStart(submitted.s)|)
  }

  lemma TrimmedFromBlank(v: Json)
    requires !Blank(v)
    ensures TrimmedFrom(v, Str(Trim(v.s)))
  {
    TrimSpec(v.s);
  }

  /** What is forwarded: exactly six fields, so never `email`,
      `schoolGroupId` or `schoolId`; `userId` and `url` are the submitted
      strings with surrounding white space cut, and non-empty; the password
      is the submitted one, a non-empty string; the names are trimmed
      strings. */
  lemma ForwardedCredentials(body: Option<Document>)
    requires ExtractCredentials(body).Next?
    ensures ExtractCredentials(body).credentials.Keys == ForwardedFields
    ensures TrimmedFrom(Get(Fields(body), "userId"), ExtractCredentials(body).credentials["userId"])
    ensures TrimmedFrom(Get(Fields(body), "url"), ExtractCredentials(body).credentials["url"])
    ensures ExtractCredentials(body).credentials["password"] == Get(Fields(body), "password")
    ensures Get(Fields(body), "password").Str? && Get(Fields(body), "password").s != []
    ensures forall f :: f in {"firstName", "lastName", "title"} ==>
      ExtractCredentials(body).credentials[f].Str? && IsTrimmed(ExtractCredentials(body).credentials[f].s)
  {
    var b := Fields(body);
    NextIff(body);
    NormalisedFields(b);
    TrimmedFromBlank(Get(b, "userId"));
    TrimmedFromBlank(Get(b, "url"));
    TrimSpec(FirstNameOf(b).s);
    TrimSpec(LastNameOf(b).s);
    TrimSpec(TitleOf(b).s);
  }

  /** `firstName` falls back to `fname`, and any absent or empty name to
      the empty string. */
  lemma NameFallbacks(b: Document)
    requires Passes(b)
    ensures Truthy(Get(b, "firstName")) ==> Normalised(b)["firstName"] == Str(Trim(Get(b, "firstName").s))
    ensures !Truthy(Get(b, "firstName")) && Truthy(Get(b, "fname")) ==>
      Normalised(b)["firstName"] == Str(Trim(Get(b, "fname").s))
    ensures !Truthy(Get(b, "firstName")) && !Truthy(Get(b, "fname")) ==> Normalised(b)["firstName"] == Str("")
    ensures !Truthy(Get(b, "lastName")) ==> Normalised(b)["lastName"] == Str("")
    ensures !Truthy(Get(b, "title")) ==> Normalised(b)["title"] == Str("")
  {
    NormalisedFields(b);
    assert Trim("") == "";
  }

  /** The shape of forwarded credentials: the six fields, a non-empty
      trimmed `userId` and `url`, a non-empty password, trimmed names. */
  predicate Shaped(c: Document) {
    && c.Keys == ForwardedFields
    && c["userId"].Str? && c["userId"].s != [] && IsTrimmed(c["userId"].s)
    && c["url"].Str? && c["url"].s != [] && IsTrimmed(c["url"].s)
    && c["password"].Str? && c["password"].s != []
    && c["firstName"].Str? && IsTrimmed(c["firstName"].s)
    && c["lastName"].Str? && IsTrimmed(c["lastName"].s)
    && c["title"].Str? && IsTrimmed(c["title"].s)
  }

  /** What passes the middleware is forwarded in that shape. */
  lemma NormalisedShaped(b: Document)
    requires Passes(b)
    ensures Shaped(Normalised(b))
  {
    NormalisedFields(b);
    TrimSpec(Get(b, "userId").s);
    TrimSpec(Get(b, "url").s);
    TrimSpec(FirstNameOf(b).s);
    TrimSpec(LastNameOf(b).s);
    TrimSpec(TitleOf(b).s);
  }

  lemma TrimmedNotBlank(s: string)
    requires s != [] && IsTrimmed(s)
    ensures !Blank(Str(s))
  {
    TrimOfTrimmed(s);
  }

  /** `fname` is only a fallback for `firstName`: it is never forwarded
      under its own name. */
  lemma FnameNotForwarded(body: Option<Document>)
    ensures ExtractCredentials(body).Next? ==> "fname" !in ExtractCredentials(body).credentials
  {
    if ExtractCredentials(body).Next? {
      ForwardedCredentials(body);
    }
  }

  lemma ShapedUserId(c: Document)
    requires Shaped(c)
    ensures !Blank(Get(c, "userId"))
  {
    assert Get(c, "userId") == Str(c["userId"].s);
    TrimmedNotBlank(c["userId"].s);
  }

  lemma ShapedUrl(c: Document)
    requires Shaped(c)
    ensures !Blank(Get(c, "url"))
  {
    assert Get(c, "url") == Str(c["url"].s);
    TrimmedNotBlank(c["url"].s);
  }

  lemma ShapedPassword(c: Document)
    requires Shaped(c)
    ensures !BadPassword(Get(c, "password"))
  {
    assert Get(c, "password") == c["password"];
  }

  lemma ShapedFirstName(c: Document)
    requires Shaped(c)
    ensures FirstNameOf(c) == c["firstName"]
  {
    assert "fname" !in ForwardedFields;
    assert Get(c, "fname") == Undefined && Get(c, "firstName") == c["firstName"];
    if !Truthy(c["firstName"]) {
      assert c["firstName"] == Str("");
    }
  }

  lemma ShapedLastName(c: Document)
    requires Shaped(c)
    ensures LastNameOf(c) == c["lastName"]
  {
    assert Get(c, "lastName") == c["lastName"];
    if !Truthy(c["lastName"]) {
      assert c["lastName"] == Str("");
    }
  }

  lemma ShapedTitle(c: Document)
    requires Shaped(c)
    ensures TitleOf(c) == c["title"]
  {
    assert Get(c, "title") == c["title"];
    if !Truthy(c["title"]) {
      assert c["title"] == Str("");
    }
  }

  lemma PassesFrom(c: Document)
    requires !Blank(Get(c, "userId")) && !BadPassword(Get(c, "password")) && !Blank(Get(c, "url"))
    requires FirstNameOf(c).Str? && LastNameOf(c).Str? && TitleOf(c).Str?
    ensures Passes(c)
  {
  }

  /** Credentials of that shape pass the middleware. */
  lemma ShapedPasses(c: Document)
    requires Shaped(c)
    ensures Passes(c)
  {
    ShapedUserId(c);
    ShapedUrl(c);
    ShapedPassword(c);
    ShapedFirstName(c);
    ShapedLastName(c);
    ShapedTitle(c);
    PassesFrom(c);
  }

  lemma FixedUserId(c: Document)
    requires Shaped(c) && Passes(c)
    ensures Normalised(c)["userId"] == c["userId"]
  {
    NormalisedFields(c);
    assert Get(c, "userId") == c["userId"];
    TrimOfTrimmed(c["userId"].s);
  }

  lemma FixedUrl(c: Document)
    requires Shaped(c) && Passes(c)
    ensures Normalised(c)["url"] == c["url"]
  {
    NormalisedFields(c);
    assert Get(c, "url") == c["url"];
    TrimOfTrimmed(c["url"].s);
  }

  lemma FixedFirstName(c: Document)
    requires Shaped(c) && Passes(c)
    ensures Normalised(c)["firstName"] == c["firstName"]
  {
    NormalisedFields(c);
    ShapedFirstName(c);
    TrimOfTrimmed(c["firstName"].s);
  }

  lemma FixedLastName(c: Document)
    requires Shaped(c) && Passes(c)
    ensures Normalised(c)["lastName"] == c["lastName"]
  {
    NormalisedFields(c);
    ShapedLastName(c);
    TrimOfTrimmed(c["lastName"].s);
  }

  lemma FixedTitle(c: Document)
    requires Shaped(c) && Passes(c)
    ensures Normalised(c)["title"] == c["title"]
  {
    NormalisedFields(c);
    ShapedTitle(c);
    TrimOfTrimmed(c["title"].s);
  }

  lemma FixedRest(c: Document)
    requires Shaped(c) && Passes(c)
    ensures Normalised(c).Keys == c.Keys && Normalised(c)["password"] == c["password"]
  {
    NormalisedFields(c);
    assert Get(c, "password") == c["password"];
  }

  lemma SameForwarded(n: Document, c: Document)
    requires n.Keys == c.Keys == ForwardedFields
    requires n["userId"] == c["userId"] && n["password"] == c["password"] && n["url"] == c["url"]
    requires n["firstName"] == c["firstName"] && n["lastName"] == c["lastName"] && n["title"] == c["title"]
    ensures n == c
  {
    forall k | k in c ensures n[k] == c[k] {
    }
  }

  /** Normalising credentials of that shape changes nothing. */
  lemma ShapedFixed(c: Document)
    requires Shaped(c)
    ensures Passes(c) && Normalised(c) == c
  {
    ShapedPasses(c);
    FixedUserId(c);
    FixedUrl(c);
    FixedFirstName(c);
    FixedLastName(c);
    FixedTitle(c);
    FixedRest(c);
    SameForwarded(Normalised(c), c);
  }

  /** Normalising is idempotent: the forwarded credentials, sent through the
      middleware again, are forwarded unchanged. */
  lemma ExtractIdempotent(body: Option<Document>)
    requires ExtractCredentials(body).Next?
    ensures ExtractCredentials(Some(ExtractCredentials(body).credentials)) == ExtractCredentials(body)
  {
    NextIff(body);
    var c := ExtractCredentials(body).credentials;
    NormalisedShaped(Fields(body));
    ShapedFixed(c);
    assert Fields(Some(c)) == c;
    NextIff(Some(c));
  }
}
