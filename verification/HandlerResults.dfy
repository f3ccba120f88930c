/** What holds of every request that the ingest handler answers. */
module HandlerResults {
  import opened Base
  import opened StorageKeys
  import opened WriteLog
  import opened Persist
  import opened Handler
  import Auth
  import RateLimiter
  import G = EnvelopeGrammar
  import Refills
  import SmallBodies

  /** `k` names event `id` of a project: its envelope, or an item of it. */
  ghost predicate NamesEvent(project: string, date: string, id: string, k: string) {
    || k == EnvelopeKey(project, date, id)
    || exists i: nat, kind :: k == ItemKey(project, date, id, i, kind)
  }

  ghost predicate NamesEventRow(project: string, id: string, k: RowKey) {
    exists i: nat, kind :: k == (project, SortKey(id, kind, i))
  }

  // ---------------------------------------------------------------- ids

  /** The id that is answered needs no replacement when it reaches the keys. */
  lemma IDIsSafe(wd: World, req: HttpRequest, a: Admission, now: Instant)
    requires Understand(wd, req, a, now).Ok?
    ensures var r := Understand(wd, req, a, now).value; SafeID(wd.env, r) == r.id
  {}

  lemma ObjectsWritten(env: Env, s: Stores, r: Request, w: Weather, k: string)
    requires Lookup(Persisted(env, s, r, w).0.objects, k) != Lookup(s.objects, k)
    ensures NamesEvent(r.project, r.now.date, SafeID(env, r), k)
  {
    if !NamesEvent(r.project, r.now.date, SafeID(env, r), k) {
      forall i | 0 <= i < |r.items|
        ensures Spares(ObjectLog(env, r, w)[i], k)
      {
        assert ItemKeyOf(env, r, i) == ItemKey(r.project, r.now.date, SafeID(env, r), i, KindOf(r, i));
      }
      Untouched(env, s, r, w, k);
    }
  }

  lemma RowsWritten(env: Env, s: Stores, r: Request, w: Weather, k: RowKey)
    requires Lookup(Persisted(env, s, r, w).0.rows, k) != Lookup(s.rows, k)
    ensures NamesEventRow(r.project, SafeID(env, r), k)
  {
    if !NamesEventRow(r.project, SafeID(env, r), k) {
      forall i | 0 <= i < |r.items|
        ensures Spares(RowLog(env, r, w)[i], k)
      {
        assert RowKeyOf(env, r, i) == (r.project, SortKey(SafeID(env, r), KindOf(r, i), i));
      }
      RowUntouched(env, s, r, w, k);
    }
  }

  lemma ServedBehind(wd: World, s: Stores, l: Option<Limiting>, req: HttpRequest, a: Admission, now: Instant, w: Weather)
    requires var e := Served(wd, s, l, req, a, now, w).response; e.Accepted? || e.PersistenceFailed?
    ensures Understand(wd, req, a, now).Ok?
    ensures Served(wd, s, l, req, a, now, w) == PersistEffect(wd, s, l, Understand(wd, req, a, now).value, w)
  {}

  lemma HandledBehind(wd: World, s: Stores, l: Option<Limiting>, req: HttpRequest, now: Now, w: Weather)
    requires Sound(l)
    requires var e := Handled(wd, s, l, req, now, w).response; e.Accepted? || e.PersistenceFailed?
    ensures Admit(wd, req).Ok?
    ensures var a := Admit(wd, req).value;
            Handled(wd, s, l, req, now, w) == Served(wd, s, Limited(l, a.key, now.clock).0, req, a, now.instant, w)
  {}

  /** The admission and the request behind an answer that came from persisting. */
  lemma Behind(wd: World, s: Stores, l: Option<Limiting>, req: HttpRequest, now: Now, w: Weather)
    returns (a: Admission, r: Request)
    requires Sound(l)
    requires var e := Handled(wd, s, l, req, now, w).response; e.Accepted? || e.PersistenceFailed?
    ensures Admit(wd, req) == Ok(a) && Understand(wd, req, a, now.instant) == Ok(r)
    ensures Handled(wd, s, l, req, now, w) == PersistEffect(wd, s, Limited(l, a.key, now.clock).0, r, w)
  {
    HandledBehind(wd, s, l, req, now, w);
    a := Admit(wd, req).value;
    ServedBehind(wd, s, Limited(l, a.key, now.clock).0, req, a, now.instant, w);
    r := Understand(wd, req, a, now.instant).value;
  }

  /**
   All that is written for an accepted request is written under the id that is answered, a
   valid event id, in the project of the request.
   */
  lemma WritesNameTheAnswer(wd: World, s: Stores, l: Option<Limiting>, req: HttpRequest, now: Now, w: Weather)
    requires Sound(l)
    requires Handled(wd, s, l, req, now, w).response.Accepted?
    ensures var e := Handled(wd, s, l, req, now, w);
            && req.body.Some? && ValidEventID(e.response.id)
            && var project := ProjectOf(wd, req, req.body.value);
            && (forall k | Lookup(e.stores.objects, k) != Lookup(s.objects, k) ::
                  NamesEvent(project, now.instant.date, e.response.id, k))
            && (forall k | Lookup(e.stores.rows, k) != Lookup(s.rows, k) ::
                  NamesEventRow(project, e.response.id, k))
  {
    var a, r := Behind(wd, s, l, req, now, w);
    IDIsSafe(wd, req, a, now.instant);
    var after := Persisted(wd.env, s, r, w).0;
    forall k | Lookup(after.objects, k) != Lookup(s.objects, k)
      ensures NamesEvent(r.project, now.instant.date, r.id, k)
    {
      ObjectsWritten(wd.env, s, r, w, k);
    }
    forall k | Lookup(after.rows, k) != Lookup(s.rows, k)
      ensures NamesEventRow(r.project, r.id, k)
    {
      RowsWritten(wd.env, s, r, w, k);
    }
  }

  // ---------------------------------------------------------------- outcomes

  /** The request that is persisted is the one that was sent, under the id answered. */
  lemma AcceptedBehind(wd: World, s: Stores, l: Option<Limiting>, req: HttpRequest, now: Now, w: Weather)
    returns (r: Request)
    requires Sound(l)
    requires Handled(wd, s, l, req, now, w).response.Accepted?
    ensures req.body.Some? && wd.decompress(ContentEncoding(req), req.body.value, wd.maxBody) == Some(r.raw)
    ensures ItemsOf(wd, req, r.raw) == Ok(r.items) && r.now == now.instant
    ensures r.project == ProjectOf(wd, req, req.body.value)
    ensures SafeID(wd.env, r) == r.id == IDOf(wd.env, r.raw, r.items)
    ensures Handled(wd, s, l, req, now, w).response.id == r.id
    ensures Handled(wd, s, l, req, now, w).stores == Persisted(wd.env, s, r, w).0
    ensures Persisted(wd.env, s, r, w).1
  {
    var a, request := Behind(wd, s, l, req, now, w);
    r := request;
    IDIsSafe(wd, req, a, now.instant);
  }

  /** After persisting succeeded, the body is archived and, if there are items, one is stored. */
  lemma PersistedMeansStored(env: Env, s: Stores, r: Request, w: Weather)
    requires '/' !in r.now.date && Persisted(env, s, r, w).1
    ensures var after := Persisted(env, s, r, w).0;
            && Lookup(after.objects, EnvelopeKeyOf(env, r)) == Some(r.raw)
            && (r.items == [] || exists i | 0 <= i < |r.items| :: Persist.Stored(env, after, r, i))
  {
    SuccessMeansStored(env, s, r, w);
    if r.items != [] {
      var i :| 0 <= i < |r.items| && Persists(w, i);
      assert Persist.Stored(env, Persisted(env, s, r, w).0, r, i);
    }
  }

  /**
   An accepted request has its decompressed body archived under the answered id, and, if
   it has items, object and row of at least one of them stored.
   */
  lemma AcceptedMeansStored(wd: World, s: Stores, l: Option<Limiting>, req: HttpRequest, now: Now, w: Weather)
    returns (r: Request)
    requires Sound(l) && '/' !in now.instant.date
    requires Handled(wd, s, l, req, now, w).response.Accepted?
    ensures var e := Handled(wd, s, l, req, now, w);
            && req.body.Some? && wd.decompress(ContentEncoding(req), req.body.value, wd.maxBody) == Some(r.raw)
            && ItemsOf(wd, req, r.raw) == Ok(r.items) && SafeID(wd.env, r) == r.id == e.response.id
            && Lookup(e.stores.objects,
                      EnvelopeKey(ProjectOf(wd, req, req.body.value), now.instant.date, e.response.id)) == Some(r.raw)
            && (r.items == [] || exists i | 0 <= i < |r.items| :: Persist.Stored(wd.env, e.stores, r, i))
  {
    r := AcceptedBehind(wd, s, l, req, now, w);
    PersistedMeansStored(wd.env, s, r, w);
  }

  /** The limiter charges at most the key of the request, and that only after it was validated. */
  lemma OnlyValidKeysAreCharged(wd: World, s: Stores, l: Option<Limiting>, req: HttpRequest, now: Now, w: Weather,
                                key: string)
    requires Sound(l) && l.Some?
    requires var after := Handled(wd, s, l, req, now, w).limiting;
             after == None || Lookup(after.value.levels, key) != Lookup(l.value.levels, key)
    ensures req.body.Some? && wd.validate(ProjectOf(wd, req, req.body.value), key) == Valid
  {
    assert Admit(wd, req).Ok?;
  }

  /** `key` is what one of the forms of authentication names. */
  ghost predicate NamesKey(wd: World, req: HttpRequest, body: bytes, key: string) {
    || Auth.HeaderForm(req.call) == Some(key) || Auth.QueryForm(req.call) == Some(key)
    || Auth.EnvelopeForm(wd.dec, body) == Some(key)
  }

  lemma AdmittedKeyIsNamed(wd: World, req: HttpRequest)
    requires Admit(wd, req).Ok?
    ensures req.body == Some(Admit(wd, req).value.body)
    ensures NamesKey(wd, req, req.body.value, Admit(wd, req).value.key)
    ensures wd.validate(ProjectOf(wd, req, req.body.value), Admit(wd, req).value.key) == Valid
  {}

  /**
   A request that names no key that is valid for its project, in any form of authentication,
   is not accepted and changes nothing: no object, no row, no bucket of the limiter.
   */
  lemma NoEntryWithoutValidKey(wd: World, s: Stores, l: Option<Limiting>, req: HttpRequest, now: Now, w: Weather)
    requires Sound(l)
    requires req.body.Some? ==>
               forall key | NamesKey(wd, req, req.body.value, key) ::
                 wd.validate(ProjectOf(wd, req, req.body.value), key) != Valid
    ensures var e := Handled(wd, s, l, req, now, w);
            e.stores == s && e.limiting == l && !e.response.Accepted? && !e.response.RateLimited?
  {
    if Admit(wd, req).Ok? {
      AdmittedKeyIsNamed(wd, req);
    }
  }

  // ---------------------------------------------------------------- retries

  lemma UnderstoodAgain(wd: World, req: HttpRequest, a: Admission, now1: Instant, now2: Instant)
    requires Understand(wd, req, a, now1).Ok?
    ensures var r := Understand(wd, req, a, now1).value;
            Understand(wd, req, a, now2) == Ok(r.(now := now2))
  {}

  lemma FairSucceeds(env: Env, s: Stores, r: Request)
    ensures Persisted(env, s, r, FAIR).1
  {
    SomePersist(FAIR, |r.items|);
    assert |r.items| > 0 ==> Persists(FAIR, 0);
  }

  /**
   A client that sends a request again on the same day, whatever became of the first
   attempt, is answered with the same id and leaves the stores as if it had sent it once,
   provided the second attempt is let through and its writes succeed.
   */
  lemma ResendingConverges(wd: World, s: Stores, l1: Option<Limiting>, l2: Option<Limiting>, req: HttpRequest,
                           now1: Now, now2: Now, w: Weather)
    requires Sound(l1) && Sound(l2) && now1.instant.date == now2.instant.date
    requires Handled(wd, s, l2, req, now2, FAIR).response.Accepted?
    ensures var first := Handled(wd, s, l1, req, now1, w);
            && Handled(wd, first.stores, l2, req, now2, FAIR) == Handled(wd, s, l2, req, now2, FAIR)
            && (first.response.Accepted? ==> first.response == Handled(wd, s, l2, req, now2, FAIR).response)
  {
    var a, r2 := Behind(wd, s, l2, req, now2, FAIR);
    UnderstoodAgain(wd, req, a, now2.instant, now1.instant);
    var r1 := r2.(now := now1.instant);
    FairSucceeds(wd.env, Handled(wd, s, l1, req, now1, w).stores, r2);
    RetryConverges(wd.env, s, r1, r2, w);
  }

  // ---------------------------------------------------------------- shared payloads

  /** The same handler with line payloads copied out of the reader's window. */
  function Copying(wd: World): World {
    wd.(clone := true)
  }

  /** Sharing does this body no harm: it has no parsed items, or all of them are as they were sent. */
  ghost predicate Harmless(wd: World, req: HttpRequest, raw: bytes) {
    IsStore(req) || (G.Parse(wd.dec, raw).Ok? ==> Refills.Undisturbed(raw, G.Parse(wd.dec, raw).value))
  }

  lemma StoredAsSentIff(body: bytes, env: G.Envelope)
    ensures StoredItems(false, body, env) == StoredItems(true, body, env) <==> Refills.Undisturbed(body, env)
  {
    var got, sent := StoredItems(false, body, env), StoredItems(true, body, env);
    forall i | 0 <= i < |env.items|
      ensures got[i] == sent[i] <==> Refills.KeptPayload(body, env, i) == env.items[i].payload
    {}
  }

  /** Without copies, the items are those that were sent exactly if sharing does no harm. */
  lemma ItemsAsSentIff(wd: World, req: HttpRequest, raw: bytes)
    ensures ItemsOf(wd, req, raw) == ItemsOf(Copying(wd), req, raw) <==> wd.clone || Harmless(wd, req, raw)
  {
    if !IsStore(req) && G.Parse(wd.dec, raw).Ok? {
      StoredAsSentIff(raw, G.Parse(wd.dec, raw).value);
    }
  }

  lemma ItemsAlike(wd: World, req: HttpRequest, raw: bytes)
    ensures var got, sent := ItemsOf(wd, req, raw), ItemsOf(Copying(wd), req, raw);
            && (got.Ok? <==> sent.Ok?) && (got.Err? ==> got == sent)
            && (got.Ok? ==> |got.value| == |sent.value|)
  {}

  /** What was understood of a request differs at most in payloads and in the id taken from them. */
  lemma UnderstoodAlike(wd: World, req: HttpRequest, a: Admission, now: Instant)
    ensures var got, sent := Understand(wd, req, a, now), Understand(Copying(wd), req, a, now);
            && (got.Ok? <==> sent.Ok?) && (got.Err? ==> got == sent)
            && (got.Ok? ==> |got.value.items| == |sent.value.items| && got.value.raw == sent.value.raw)
  {
    var raw := wd.decompress(ContentEncoding(req), a.body, wd.maxBody);
    if raw.Some? {
      ItemsAlike(wd, req, raw.value);
    }
  }

  lemma PersistedAlike(env: Env, s: Stores, r1: Request, r2: Request, w: Weather)
    requires |r1.items| == |r2.items|
    ensures Persisted(env, s, r1, w).1 == Persisted(env, s, r2, w).1
  {}

  lemma ServedAlike(wd: World, s: Stores, l: Option<Limiting>, req: HttpRequest, a: Admission, now: Instant, w: Weather)
    ensures Alike(Served(wd, s, l, req, a, now, w), Served(Copying(wd), s, l, req, a, now, w))
  {
    UnderstoodAlike(wd, req, a, now);
    var got, sent := Understand(wd, req, a, now), Understand(Copying(wd), req, a, now);
    if got.Ok? {
      PersistedAlike(wd.env, s, got.value, sent.value, w);
    }
  }

  /** Both accept, both fail to persist, or both refuse for the same reason and write nothing. */
  ghost predicate Alike(e1: Effect, e2: Effect) {
    && e1.limiting == e2.limiting
    && (e1.response == e2.response || (e1.response.Accepted? && e2.response.Accepted?))
    && (e1.response.Accepted? || e1.response.PersistenceFailed? || e1.stores == e2.stores)
  }

  lemma CheckedAlike(wd: World, project: string, body: bytes, auth: Option<Auth.AuthInfo>)
    ensures Checked(wd, project, body, auth) == Checked(Copying(wd), project, body, auth)
  {}

  lemma AdmittedAlike(wd: World, req: HttpRequest)
    ensures Admit(wd, req) == Admit(Copying(wd), req)
  {
    if req.body.Some? {
      var body := req.body.value;
      CheckedAlike(wd, ProjectOf(wd, req, body), body,
                   Auth.AuthOf(Auth.HeaderForm(req.call), Auth.QueryForm(req.call), Auth.EnvelopeForm(wd.dec, body)));
      assert ProjectOf(wd, req, body) == ProjectOf(Copying(wd), req, body);
    }
  }

  /**
   Whatever sharing does to payloads, it changes no refusal, nothing about the limiter and
   not whether the request is accepted.
   */
  lemma SharingKeepsOutcome(wd: World, s: Stores, l: Option<Limiting>, req: HttpRequest, now: Now, w: Weather)
    requires Sound(l)
    ensures Alike(Handled(wd, s, l, req, now, w), Handled(Copying(wd), s, l, req, now, w))
  {
    AdmittedAlike(wd, req);
    if Admit(wd, req).Ok? {
      var a := Admit(wd, req).value;
      ServedAlike(wd, s, Limited(l, a.key, now.clock).0, req, a, now.instant, w);
    }
  }

  lemma ServedAsMeant(wd: World, s: Stores, l: Option<Limiting>, req: HttpRequest, a: Admission, now: Instant, w: Weather)
    requires var raw := wd.decompress(ContentEncoding(req), a.body, wd.maxBody);
             raw.Some? ==> Harmless(wd, req, raw.value)
    ensures Served(wd, s, l, req, a, now, w) == Served(Copying(wd), s, l, req, a, now, w)
  {
    var raw := wd.decompress(ContentEncoding(req), a.body, wd.maxBody);
    if raw.Some? {
      ItemsAsSentIff(wd, req, raw.value);
    }
    assert Understand(wd, req, a, now) == Understand(Copying(wd), req, a, now);
  }

  /** A request whose body sharing does no harm is handled as if payloads were copied. */
  lemma HandledAsMeant(wd: World, s: Stores, l: Option<Limiting>, req: HttpRequest, now: Now, w: Weather)
    requires Sound(l)
    requires req.body.Some? ==>
               var raw := wd.decompress(ContentEncoding(req), req.body.value, wd.maxBody);
               raw.Some? ==> Harmless(wd, req, raw.value)
    ensures Handled(wd, s, l, req, now, w) == Handled(Copying(wd), s, l, req, now, w)
  {
    AdmittedAlike(wd, req);
    if Admit(wd, req).Ok? {
      var a := Admit(wd, req).value;
      AdmittedBody(wd, req);
      ServedAsMeant(wd, s, Limited(l, a.key, now.clock).0, req, a, now.instant, w);
    }
  }

  lemma AdmittedBody(wd: World, req: HttpRequest)
    requires Admit(wd, req).Ok?
    ensures req.body == Some(Admit(wd, req).value.body)
  {}

  /** A sender's rule: end the body with a newline and keep it small, or declare the length of every item. */
  ghost predicate Careful(raw: bytes, env: G.Envelope) {
    SmallBodies.EndedInWindow(raw) || forall i | 0 <= i < |env.items| :: env.items[i].meta.length.Some?
  }

  lemma CarefulIsHarmless(wd: World, req: HttpRequest, raw: bytes)
    requires G.Parse(wd.dec, raw).Ok? ==> Careful(raw, G.Parse(wd.dec, raw).value)
    ensures Harmless(wd, req, raw)
  {
    if G.Parse(wd.dec, raw).Ok? {
      var env := G.Parse(wd.dec, raw).value;
      if SmallBodies.EndedInWindow(raw) {
        SmallBodies.EndedBodiesStand(wd.dec, raw, env);
      } else {
        SmallBodies.DeclaredLengthsStand(raw, env);
      }
    }
  }

  /** The requests of a sender who keeps to it are handled as if payloads were copied. */
  lemma CarefulHandledAsMeant(wd: World, s: Stores, l: Option<Limiting>, req: HttpRequest, now: Now, w: Weather)
    requires Sound(l)
    requires req.body.Some? ==>
               var raw := wd.decompress(ContentEncoding(req), req.body.value, wd.maxBody);
               raw.Some? && G.Parse(wd.dec, raw.value).Ok? ==> Careful(raw.value, G.Parse(wd.dec, raw.value).value)
    ensures Handled(wd, s, l, req, now, w) == Handled(Copying(wd), s, l, req, now, w)
  {
    if req.body.Some? {
      var raw := wd.decompress(ContentEncoding(req), req.body.value, wd.maxBody);
      if raw.Some? {
        CarefulIsHarmless(wd, req, raw.value);
      }
    }
    HandledAsMeant(wd, s, l, req, now, w);
  }
}
