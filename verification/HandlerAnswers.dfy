/** Which answer the ingest handler gives to which request. */
module HandlerAnswers {
  import opened Base
  import opened Text
  import opened StorageKeys
  import opened Persist
  import opened Handler
  import opened HandlerResults
  import Auth
  import AuthHeader
  import Dsn
  import G = EnvelopeGrammar
  import RateLimiter

  // ---------------------------------------------------------------- who is asking

  predicate Readable(wd: World, req: HttpRequest) {
    req.body.Some? && (wd.maxBody > 0 ==> |req.body.value| <= wd.maxBody)
  }

  /**
   The request speaks for `key`: its query string does and its header names no other, or
   without a query key its header does, or without both the DSN of its envelope.
   */
  predicate Speaks(wd: World, req: HttpRequest, key: string)
    requires req.body.Some?
  {
    var header, query := Auth.HeaderForm(req.call), Auth.QueryForm(req.call);
    && key != ""
    && if query.Some? then query.value == key && (header.Some? ==> header.value == "" || header.value == key)
       else if header.Some? then header.value == key
       else Auth.EnvelopeForm(wd.dec, req.body.value) == Some(key)
  }

  /** No form of authentication is there at all. */
  predicate Anonymous(wd: World, req: HttpRequest)
    requires req.body.Some?
  {
    && Auth.HeaderForm(req.call) == None && Auth.QueryForm(req.call) == None
    && Auth.EnvelopeForm(wd.dec, req.body.value) == None
  }

  lemma SpokenFor(wd: World, req: HttpRequest, key: string)
    requires Readable(wd, req) && Speaks(wd, req, key)
    ensures var body := req.body.value;
            var project := ProjectOf(wd, req, body);
            Admit(wd, req) == match wd.validate(project, key)
                              case Valid => Ok(Admission(key, project, body))
                              case Invalid => Err(Unauthorized)
                              case Broken => Err(ValidationFailed)
  {}

  lemma SpokenForNobody(wd: World, req: HttpRequest)
    requires Readable(wd, req) && forall key :: !Speaks(wd, req, key)
    ensures Admit(wd, req) == Err(if Anonymous(wd, req) then Forbidden else Unauthorized)
  {
    var header, query := Auth.HeaderForm(req.call), Auth.QueryForm(req.call);
    var envelope := Auth.EnvelopeForm(wd.dec, req.body.value);
    assert query.Some? ==> !Speaks(wd, req, query.value);
    assert header.Some? ==> !Speaks(wd, req, header.value);
    assert envelope.Some? ==> !Speaks(wd, req, envelope.value);
  }

  lemma SpeaksForOne(wd: World, req: HttpRequest, a: string, b: string)
    requires req.body.Some? && Speaks(wd, req, a) && Speaks(wd, req, b)
    ensures a == b
  {}

  /** Some key that the request speaks for gets this answer from the registry of the project. */
  ghost predicate Validates(wd: World, req: HttpRequest, v: Validation)
    requires req.body.Some?
  {
    exists key :: Speaks(wd, req, key) && wd.validate(ProjectOf(wd, req, req.body.value), key) == v
  }

  lemma NotServed(wd: World, s: Stores, l: Option<Limiting>, req: HttpRequest, now: Now, w: Weather)
    requires Sound(l)
    ensures var e, a := Handled(wd, s, l, req, now, w).response, Admit(wd, req);
            && (a.Err? ==> e == a.error)
            && (a.Ok? ==> !e.BadBody? && !e.TooLarge? && !e.Forbidden? && !e.Unauthorized? && !e.ValidationFailed?)
  {}

  /** Before anything else is done: 400 for what cannot be read, then by who is asking 403, 401 or 500. */
  lemma RefusedAs(wd: World, s: Stores, l: Option<Limiting>, req: HttpRequest, now: Now, w: Weather)
    requires Sound(l)
    ensures var e := Handled(wd, s, l, req, now, w).response;
            && (e == BadBody <==> req.body == None)
            && (e == TooLarge <==> req.body.Some? && 0 < wd.maxBody < |req.body.value|)
            && (Readable(wd, req) ==>
                  && (e == Forbidden <==> Anonymous(wd, req))
                  && (e == ValidationFailed <==> Validates(wd, req, Broken))
                  && (e == Unauthorized <==>
                      !Anonymous(wd, req) && !Validates(wd, req, Valid) && !Validates(wd, req, Broken)))
  {
    NotServed(wd, s, l, req, now, w);
    if Readable(wd, req) {
      if key :| Speaks(wd, req, key) {
        SpokenFor(wd, req, key);
        forall other | Speaks(wd, req, other)
          ensures other == key
        {
          SpeaksForOne(wd, req, key, other);
        }
      } else {
        SpokenForNobody(wd, req);
      }
    }
  }

  /** What gets past that and the limiter: 400 for what cannot be decompressed or parsed. */
  lemma RefusedForItsBody(wd: World, s: Stores, l: Option<Limiting>, req: HttpRequest, now: Now, w: Weather)
    requires Sound(l) && Admit(wd, req).Ok? && Limited(l, Admit(wd, req).value.key, now.clock).1 == None
    ensures req.body.Some?
    ensures var e := Handled(wd, s, l, req, now, w).response;
            match wd.decompress(ContentEncoding(req), req.body.value, wd.maxBody)
            case None => e == NotDecompressed
            case Some(raw) =>
              if !IsStore(req) && G.Parse(wd.dec, raw).Err? then e == BadEnvelope(G.Parse(wd.dec, raw).error)
              else e.Accepted? || e.PersistenceFailed?
  {
    AdmittedBody(wd, req);
  }

  // ---------------------------------------------------------------- where keys and projects are found

  /** A header as clients send it. */
  function UsualHeader(key: string): string {
    AuthHeader.HeaderText("Sentry", [("sentry_version", "7"), ("sentry_key", key)])
  }

  lemma UsualHeaderKeys(key: string)
    requires AuthHeader.Printable(("sentry_key", key))
    ensures AuthHeader.HeaderKeys(UsualHeader(key)) == [key] && UsualHeader(key) != ""
  {
    var pairs: seq<AuthHeader.Pair> := [("sentry_version", "7"), ("sentry_key", key)];
    assert AuthHeader.Printable(("sentry_version", "7"));
    AuthHeader.HeaderReadsBack("Sentry", pairs);
    AuthHeader.NamedSnoc([], pairs[0], "sentry_key");
    AuthHeader.NamedSnoc([pairs[0]], pairs[1], "sentry_key");
    assert [] + [pairs[0]] == [pairs[0]] && [pairs[0]] + [pairs[1]] == pairs;
  }

  /** The header counts in either spelling; of two, the capitalized one. */
  lemma HeaderSpeaks(wd: World, req: HttpRequest, key: string)
    requires req.body.Some? && key != "" && AuthHeader.Printable(("sentry_key", key))
    requires Lookup(req.call.query, "sentry_key") == None && Lookup(req.call.multiQuery, "sentry_key") == None
    requires var h := req.call.headers;
             || Lookup(h, "X-Sentry-Auth") == Some(UsualHeader(key))
             || (Lookup(h, "X-Sentry-Auth") == None && Lookup(h, "x-sentry-auth") == Some(UsualHeader(key)))
    ensures Speaks(wd, req, key)
  {
    UsualHeaderKeys(key);
    assert Auth.HeaderValue(req.call) == UsualHeader(key);
  }

  /** Without a header, so does the query string: a single value, or else the first of many. */
  lemma QuerySpeaks(wd: World, req: HttpRequest, key: string)
    requires req.body.Some? && key != ""
    requires Lookup(req.call.headers, "X-Sentry-Auth") == None && Lookup(req.call.headers, "x-sentry-auth") == None
    requires || Lookup(req.call.query, "sentry_key") == Some(key)
             || (Lookup(req.call.query, "sentry_key") in {None, Some("")}
                 && exists more :: Lookup(req.call.multiQuery, "sentry_key") == Some([key] + more))
    ensures Speaks(wd, req, key)
  {}

  /** What is no query key: no single value, or an empty one, and no first of many, or an empty one. */
  lemma NoQueryKey(call: Auth.Call)
    ensures Auth.QueryForm(call) == None <==>
            && Lookup(call.query, "sentry_key") in {None, Some("")}
            && match Lookup(call.multiQuery, "sentry_key")
               case None => true
               case Some(values) => values == [] || values[0] == ""
  {}

  /**
   A header that names no key is no anonymity, and keeps the DSN from counting; an empty one
   is as if there were none.
   */
  lemma KeylessHeader(wd: World, req: HttpRequest, value: string)
    requires req.body.Some? && Lookup(req.call.headers, "X-Sentry-Auth") == Some(value)
    ensures value == "" ==> Auth.HeaderForm(req.call) == None
    ensures value != "" ==> !Anonymous(wd, req)
    ensures value != "" && AuthHeader.HeaderKeys(value) == [] && Auth.QueryForm(req.call) == None ==>
              forall key :: !Speaks(wd, req, key)
  {
    assert Auth.HeaderValue(req.call) == value;
  }

  /** The path of the request names its project, or else the DSN; without both it is empty. */
  lemma PathNamesProject(wd: World, req: HttpRequest, body: bytes)
    ensures req.pathProject != "" ==> ProjectOf(wd, req, body) == req.pathProject
    ensures req.pathProject == "" && Auth.HeaderDsn(wd.dec, body) == "" ==> ProjectOf(wd, req, body) == ""
  {}

  /** Without both, so does the DSN in the first line; its project counts if the path names none. */
  lemma DsnSpeaks(wd: World, req: HttpRequest, protocol: string, key: string, secret: Option<string>, host: string,
                  project: string)
    requires req.body.Some? && Auth.HeaderForm(req.call) == None && Auth.QueryForm(req.call) == None
    requires Auth.HeaderDsn(wd.dec, req.body.value) == Dsn.Formula(protocol, key, secret, host, project)
    requires ':' !in protocol && '/' !in project && key != "" && '@' !in key && ':' !in key
    ensures Speaks(wd, req, key)
    ensures ProjectOf(wd, req, req.body.value) == if req.pathProject != "" then req.pathProject else project
  {
    Dsn.FormulaReadsBack(protocol, key, secret, host, project);
    assert Dsn.Formula(protocol, key, secret, host, project)[|protocol|] == ':';
  }

  /** Without header and query key, a request is anonymous exactly if no key is read off a DSN in its first line. */
  lemma DsnIsNone(wd: World, req: HttpRequest)
    requires req.body.Some? && Auth.HeaderForm(req.call) == None && Auth.QueryForm(req.call) == None
    ensures var dsn := Auth.HeaderDsn(wd.dec, req.body.value);
            Anonymous(wd, req) <==> dsn == "" || forall key :: Dsn.PublicKey(dsn) != Ok(key)
  {
    var dsn := Auth.HeaderDsn(wd.dec, req.body.value);
    if Dsn.PublicKey(dsn).Ok? {
      assert Dsn.PublicKey(dsn) == Ok(Dsn.PublicKey(dsn).value);
    }
  }

  // ---------------------------------------------------------------- what is sent

  ghost predicate EndsIn(s: string, t: string, front: string) {
    s == front + t
  }

  ghost predicate HoldsWithin(s: string, t: string, front: string, back: string) {
    s == front + t + back
  }

  lemma EndsWithIff(s: string, t: string)
    ensures EndsWith(s, t) <==> exists front :: EndsIn(s, t, front)
  {
    if EndsWith(s, t) {
      assert EndsIn(s, t, s[..|s| - |t|]);
    }
  }

  lemma ContainsIff(s: string, t: string)
    ensures Contains(s, t) <==> exists front, back :: HoldsWithin(s, t, front, back)
  {
    if Contains(s, t) {
      var i :| 0 <= i <= |s| && OccursAt(s, t, i);
      assert s == s[..i] + s[i..i + |t|] + s[i + |t|..];
      assert HoldsWithin(s, t, s[..i], s[i + |t|..]);
    }
    if front, back :| HoldsWithin(s, t, front, back) {
      assert OccursAt(s, t, |front|);
    }
  }

  /** Which requests hold one event, and that it is kept as it is; all others hold an envelope. */
  lemma StoreRequests(wd: World, req: HttpRequest, raw: bytes)
    ensures var store := (exists front :: EndsIn(req.resource, "/store", front))
                         || (exists front, back :: HoldsWithin(req.path, "/store/", front, back));
            && (store ==> ItemsOf(wd, req, raw) == Ok([StoredItem("event", raw)]))
            && (!store ==> (ItemsOf(wd, req, raw).Ok? <==> G.Parse(wd.dec, raw).Ok?))
  {
    EndsWithIff(req.resource, "/store");
    ContainsIff(req.path, "/store/");
  }

  /** The items of an envelope keep their types, and their payloads unless sharing disturbs them. */
  lemma EnvelopeRequests(wd: World, req: HttpRequest, raw: bytes)
    requires !IsStore(req) && G.Parse(wd.dec, raw).Ok?
    ensures var env, items := G.Parse(wd.dec, raw).value, ItemsOf(wd, req, raw);
            && items.Ok? && |items.value| == |env.items|
            && (forall i | 0 <= i < |env.items| :: items.value[i].kind == env.items[i].meta.kind)
            && (wd.clone || Harmless(wd, req, raw) ==>
                  forall i | 0 <= i < |env.items| :: items.value[i].payload == env.items[i].payload)
  {
    var env := G.Parse(wd.dec, raw).value;
    forall i | 0 <= i < |env.items|
      ensures ItemsOf(wd, req, raw).value[i].kind == env.items[i].meta.kind
      ensures wd.clone || Harmless(wd, req, raw) ==> ItemsOf(wd, req, raw).value[i].payload == env.items[i].payload
    {
      assert ItemsOf(wd, req, raw).value[i] == StoredItems(wd.clone, raw, env)[i];
    }
  }

  /** The encoding is read off the header in either spelling that is not empty, of two off the capitalized one. */
  lemma EncodingIs(req: HttpRequest, encoding: string)
    ensures var capital, lower := Lookup(req.call.headers, "Content-Encoding"), Lookup(req.call.headers, "content-encoding");
            ContentEncoding(req) == encoding <==>
            if capital in {None, Some("")} then lower == Some(encoding) || (encoding == "" && lower == None)
            else capital == Some(encoding)
  {}

  // ---------------------------------------------------------------- ids

  /** The first valid id that an event gives itself, or else the first half of the hash of the body, written out. */
  ghost predicate IsIDOf(env: Env, raw: bytes, items: seq<StoredItem>, id: string) {
    || (exists j :: FirstGiven(env, items, j, id))
    || ((forall j | 0 <= j < |items| && items[j].kind == "event" :: !ValidEventID(env.decodeMeta(items[j].payload).eventID))
        && WritesOut(id, env.hash(raw)[..16]))
  }

  lemma IDOfIs(env: Env, raw: bytes, items: seq<StoredItem>)
    ensures IsIDOf(env, raw, items, IDOf(env, raw, items))
  {
    var j := FirstIDFrom(env, items, 0);
    if FirstEventID(env, items, 0) == "" {
      assert forall k | 0 <= k < |items| :: !NamesID(env, items[k]);
      DerivedIDReads(env.hash, raw);
    }
  }

  /** There is but one such id. */
  lemma OneIDOf(env: Env, raw: bytes, items: seq<StoredItem>, id1: string, id2: string)
    requires IsIDOf(env, raw, items, id1) && IsIDOf(env, raw, items, id2)
    ensures id1 == id2
  {
    if j1 :| FirstGiven(env, items, j1, id1) {
      var j2 :| FirstGiven(env, items, j2, id2);
    } else {
      WrittenOutOnce(id1, id2, env.hash(raw)[..16]);
    }
  }

  /** An accepted request is answered with the id of its first event that has one, or else with the derived id. */
  lemma AnsweredID(wd: World, s: Stores, l: Option<Limiting>, req: HttpRequest, now: Now, w: Weather)
    returns (raw: bytes, items: seq<StoredItem>)
    requires Sound(l) && Handled(wd, s, l, req, now, w).response.Accepted?
    ensures req.body.Some? && wd.decompress(ContentEncoding(req), req.body.value, wd.maxBody) == Some(raw)
    ensures ItemsOf(wd, req, raw) == Ok(items)
    ensures IsIDOf(wd.env, raw, items, Handled(wd, s, l, req, now, w).response.id)
  {
    var r := AcceptedBehind(wd, s, l, req, now, w);
    raw, items := r.raw, r.items;
    IDOfIs(wd.env, raw, items);
  }

  // ---------------------------------------------------------------- Retry-After

  /** The answer to a call that the limiter refuses. */
  lemma LimitedRefuses(l: Option<Limiting>, key: string, clock: real)
    requires Sound(l) && Limited(l, key, clock).1.Some?
    ensures l.Some?
    ensures var (after, refusal) := Limited(l, key, clock);
            var (b, answer) := RateLimiter.Decide(l.value.limits, Lookup(l.value.levels, key), clock);
            && after.Some? && Lookup(after.value.levels, key) == Some(b)
            && !answer.allowed && refusal == Some(RateLimited(RateLimiter.Printed(answer)))
  {}

  lemma RefusedByLimiter(wd: World, s: Stores, l: Option<Limiting>, req: HttpRequest, now: Now, w: Weather)
    requires Sound(l) && Handled(wd, s, l, req, now, w).response.RateLimited?
    ensures Admit(wd, req).Ok? && req.body.Some? && Speaks(wd, req, Admit(wd, req).value.key)
    ensures var e := Handled(wd, s, l, req, now, w);
            (e.limiting, Some(e.response)) == Limited(l, Admit(wd, req).value.key, now.clock)
  {}

  lemma SecondsLimited(l: Option<Limiting>, key: string, clock: real, after: Option<Limiting>, response: Response)
    requires Sound(l) && (after, Some(response)) == Limited(l, key, clock)
    ensures l.Some? && after.Some? && key in after.value.levels && response.RateLimited?
    ensures WaitFits(l.value.limits, after.value.levels[key], clock, response.seconds)
  {
    LimitedRefuses(l, key, clock);
    RateLimiter.PrintedIsLeast(l.value.limits, Lookup(l.value.levels, key), clock);
  }

  /**
   At least one second; if more, the bucket has no token at any moment before they have
   passed; and one second later it has one, if it can hold one.
   */
  ghost predicate WaitFits(c: RateLimiter.Limits, b: RateLimiter.Bucket, clock: real, seconds: int) {
    && seconds >= 1
    && (seconds > 1 ==> forall t | clock <= t < clock + seconds as real :: RateLimiter.Lacking(c, b, t))
    && (c.burst >= 1.0 ==> !RateLimiter.Lacking(c, b, clock + seconds as real + 1.0))
  }

  /** The seconds in a 429 are the wait for the bucket of a key that the request speaks for. */
  lemma RefusalSeconds(wd: World, s: Stores, l: Option<Limiting>, req: HttpRequest, now: Now, w: Weather)
    returns (key: string)
    requires Sound(l) && Handled(wd, s, l, req, now, w).response.RateLimited?
    ensures req.body.Some? && Speaks(wd, req, key) && l.Some?
    ensures var e := Handled(wd, s, l, req, now, w);
            && e.limiting.Some? && key in e.limiting.value.levels
            && WaitFits(l.value.limits, e.limiting.value.levels[key], now.clock, e.response.seconds)
  {
    RefusedByLimiter(wd, s, l, req, now, w);
    key := Admit(wd, req).value.key;
    var e := Handled(wd, s, l, req, now, w);
    SecondsLimited(l, key, now.clock, e.limiting, e.response);
  }
}
