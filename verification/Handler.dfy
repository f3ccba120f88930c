/**
 The ingest handler: what it decides in which order, and what it does to the limiter, the
 archive and the index on the way.
 */
module Handler {
  import opened Base
  import opened Text
  import opened StorageKeys
  import opened WriteLog
  import opened Persist
  import Auth
  import Dsn
  import G = EnvelopeGrammar
  import EnvelopeReader
  import opened Refills
  import RateLimiter

  /** A request; `body` is what base64 decoding yields, none if that fails. */
  datatype HttpRequest = HttpRequest(call: Auth.Call, pathProject: string, resource: string, path: string,
                                     body: Option<bytes>)

  datatype Validation = Valid | Invalid | Broken

  /**
   What the handler depends on besides its stores and the limiter. `decompress` gets the
   content encoding, the body and the size limit. The code keeps line payloads as views of
   the reader's window; if `clone` is set, they are copied instead.
   */
  datatype World = World(dec: G.Decoder, env: Env, maxBody: int, validate: (string, string) -> Validation,
                         decompress: (string, bytes, int) -> Option<bytes>, clone: bool)

  /** Answers, by the status they are sent with: 400, 401, 403, 429, 500 and 200. */
  datatype Response =
    | BadBody
    | TooLarge
    | NotDecompressed
    | BadEnvelope(fault: G.Fault)
    | Unauthorized
    | Forbidden
    | RateLimited(seconds: int)
    | ValidationFailed
    | PersistenceFailed
    | Accepted(id: string)

  // ---------------------------------------------------------------- reading a request

  predicate EndsWith(s: string, t: string) {
    |t| <= |s| && s[|s| - |t|..] == t
  }

  predicate OccursAt(s: string, t: string, i: nat) {
    i + |t| <= |s| && s[i..i + |t|] == t
  }

  predicate Contains(s: string, t: string) {
    exists i | 0 <= i <= |s| :: OccursAt(s, t, i)
  }

  /** Requests to the store endpoint hold one event instead of an envelope. */
  predicate IsStore(req: HttpRequest) {
    EndsWith(req.resource, "/store") || Contains(req.path, "/store/")
  }

  function ContentEncoding(req: HttpRequest): string {
    var v := Auth.Get(req.call.headers, "Content-Encoding");
    if v != "" then v else Auth.Get(req.call.headers, "content-encoding")
  }

  /** The project in the path, or else the one in the DSN of the envelope header. */
  function ProjectOf(wd: World, req: HttpRequest, body: bytes): string {
    if req.pathProject != "" then req.pathProject
    else
      var dsn := Auth.HeaderDsn(wd.dec, body);
      if dsn == "" then "" else Dsn.Project(dsn)
  }

  /** A request with a validated key. */
  datatype Admission = Admission(key: string, project: string, body: bytes)

  function Admit(wd: World, req: HttpRequest): (r: Result<Admission, Response>)
    ensures r.Err? ==> !r.error.Accepted? && !r.error.PersistenceFailed? && !r.error.RateLimited?
  {
    if req.body == None then Err(BadBody)
    else if wd.maxBody > 0 && |req.body.value| > wd.maxBody then Err(TooLarge)
    else
      var body := req.body.value;
      Checked(wd, ProjectOf(wd, req, body), body,
              Auth.AuthOf(Auth.HeaderForm(req.call), Auth.QueryForm(req.call), Auth.EnvelopeForm(wd.dec, body)))
  }

  function Checked(wd: World, project: string, body: bytes, auth: Option<Auth.AuthInfo>)
    : (r: Result<Admission, Response>)
    ensures r.Ok? ==> r.value.project == project && r.value.body == body && wd.validate(project, r.value.key) == Valid
    ensures r.Err? ==> r.error in {Unauthorized, Forbidden, ValidationFailed}
  {
    if auth == None then Err(Unauthorized)
    else if !auth.value.present then Err(Forbidden)
    else if auth.value.key == "" then Err(Unauthorized)
    else
      match wd.validate(project, auth.value.key)
      case Broken => Err(ValidationFailed)
      case Invalid => Err(Unauthorized)
      case Valid => Ok(Admission(auth.value.key, project, body))
  }

  /** The items of an envelope with the payloads that they have once all of it is read. */
  function StoredItems(clone: bool, body: bytes, env: G.Envelope): seq<StoredItem> {
    seq(|env.items|, i requires 0 <= i < |env.items| =>
      StoredItem(env.items[i].meta.kind, if clone then env.items[i].payload else KeptPayload(body, env, i)))
  }

  predicate NamesID(env: Env, it: StoredItem) {
    it.kind == "event" && ValidEventID(env.decodeMeta(it.payload).eventID)
  }

  /** The first valid id that an event item gives itself, from item `i` on; empty if there is none. */
  function FirstEventID(env: Env, items: seq<StoredItem>, i: nat): (id: string)
    requires i <= |items|
    ensures id == "" <==> forall j | i <= j < |items| :: !NamesID(env, items[j])
    ensures id != "" ==> ValidEventID(id)
    decreases |items| - i
  {
    if i == |items| then ""
    else if NamesID(env, items[i]) then env.decodeMeta(items[i].payload).eventID
    else FirstEventID(env, items, i + 1)
  }

  /** Item `j` is the first event item to give itself a valid id, and that is `id`. */
  ghost predicate FirstGiven(env: Env, items: seq<StoredItem>, j: nat, id: string) {
    && j < |items| && items[j].kind == "event" && env.decodeMeta(items[j].payload).eventID == id && ValidEventID(id)
    && forall k | 0 <= k < j && items[k].kind == "event" :: !ValidEventID(env.decodeMeta(items[k].payload).eventID)
  }

  method EventIDFromItems(env: Env, items: seq<StoredItem>) returns (id: string)
    ensures id == FirstEventID(env, items, 0)
    ensures id != "" ==> exists j :: FirstGiven(env, items, j, id)
  {
    for i := 0 to |items|
      invariant FirstEventID(env, items, 0) == FirstEventID(env, items, i)
      invariant forall k | 0 <= k < i && items[k].kind == "event" ::
          !ValidEventID(env.decodeMeta(items[k].payload).eventID)
    {
      if items[i].kind == "event" {
        var own := env.decodeMeta(items[i].payload).eventID;
        var valid := CheckEventID(own);
        if valid {
          assert FirstGiven(env, items, i, own);
          return own;
        }
      }
    }
    id := "";
  }

  lemma {:induction false} FirstIDFrom(env: Env, items: seq<StoredItem>, i: nat) returns (j: nat)
    requires i <= |items| && forall k | 0 <= k < i :: !NamesID(env, items[k])
    ensures var id := FirstEventID(env, items, i);
            if id == "" then j == |items| && forall k | 0 <= k < |items| :: !NamesID(env, items[k])
            else FirstGiven(env, items, j, id)
    decreases |items| - i
  {
    if i == |items| || NamesID(env, items[i]) {
      j := i;
    } else {
      j := FirstIDFrom(env, items, i + 1);
    }
  }

  function IDOf(env: Env, raw: bytes, items: seq<StoredItem>): (id: string)
    ensures ValidEventID(id)
  {
    var own := FirstEventID(env, items, 0);
    if own != "" then own else DeterministicID(env.hash, raw)
  }

  /** What is to be persisted for an admitted request. */
  function Understand(wd: World, req: HttpRequest, a: Admission, now: Instant): (r: Result<Request, Response>)
    ensures r.Ok? ==> ValidEventID(r.value.id) && r.value.project == a.project && r.value.now == now
    ensures r.Err? ==> r.error.NotDecompressed? || r.error.BadEnvelope?
  {
    match wd.decompress(ContentEncoding(req), a.body, wd.maxBody)
    case None => Err(NotDecompressed)
    case Some(raw) =>
      match ItemsOf(wd, req, raw)
      case Err(e) => Err(BadEnvelope(e))
      case Ok(items) => Ok(Request(a.project, IDOf(wd.env, raw, items), raw, items, now))
  }

  function ItemsOf(wd: World, req: HttpRequest, raw: bytes): Result<seq<StoredItem>, G.Fault> {
    if IsStore(req) then Ok([StoredItem("event", raw)])
    else
      match G.Parse(wd.dec, raw)
      case Err(e) => Err(e)
      case Ok(env) => Ok(StoredItems(wd.clone, raw, env))
  }

  // ---------------------------------------------------------------- effects

  datatype Limiting = Limiting(limits: RateLimiter.Limits, levels: map<string, RateLimiter.Bucket>)

  predicate Sound(l: Option<Limiting>) {
    l.Some? ==> l.value.limits.rate > 0.0 && l.value.limits.burst > 0.0
  }

  /** The limiter after a call of `key`, and the refusal, if it is one. */
  function Limited(l: Option<Limiting>, key: string, clock: real): (r: (Option<Limiting>, Option<Response>))
    requires Sound(l)
    ensures r.1.Some? ==> r.1.value.RateLimited?
  {
    if l == None then (None, None)
    else
      var d := RateLimiter.Decide(l.value.limits, Lookup(l.value.levels, key), clock);
      (Some(l.value.(levels := l.value.levels[key := d.0])),
       if d.1.allowed then None else Some(RateLimited(RateLimiter.Printed(d.1))))
  }

  datatype Effect = Effect(response: Response, stores: Stores, limiting: Option<Limiting>)

  /** Time as the keys print it and as the limiter counts it. */
  datatype Now = Now(instant: Instant, clock: real)

  /** What persisting a request does, and the answer it gives. */
  function PersistEffect(wd: World, s: Stores, l: Option<Limiting>, r: Request, w: Weather): (e: Effect)
    ensures (e.response.Accepted? || e.response.PersistenceFailed?) && e.limiting == l
  {
    var (after, ok) := Persisted(wd.env, s, r, w);
    Effect(if ok then Accepted(r.id) else PersistenceFailed, after, l)
  }

  /** What is done for a request that the limiter lets pass. */
  function Served(wd: World, s: Stores, l: Option<Limiting>, req: HttpRequest, a: Admission, now: Instant, w: Weather)
    : (e: Effect)
    ensures e.stores != s ==> e.response.Accepted? || e.response.PersistenceFailed?
    ensures !e.response.Forbidden? && !e.response.RateLimited? && e.limiting == l
  {
    match Understand(wd, req, a, now)
    case Err(e) => Effect(e, s, l)
    case Ok(r) => PersistEffect(wd, s, l, r, w)
  }

  /** Any answer other than acceptance and failed persistence leaves both stores as they were. */
  function Handled(wd: World, s: Stores, l: Option<Limiting>, req: HttpRequest, now: Now, w: Weather): (e: Effect)
    requires Sound(l)
    ensures e.stores != s ==> e.response.Accepted? || e.response.PersistenceFailed?
  {
    match Admit(wd, req)
    case Err(e) => Effect(e, s, l)
    case Ok(a) =>
      var (after, refusal) := Limited(l, a.key, now.clock);
      if refusal.Some? then Effect(refusal.value, s, after)
      else Served(wd, s, after, req, a, now.instant, w)
  }

  // ---------------------------------------------------------------- as it runs

  method AdmitRequest(wd: World, req: HttpRequest) returns (r: Result<Admission, Response>)
    ensures r == Admit(wd, req)
  {
    if req.body == None {
      return Err(BadBody);
    }
    var body := req.body.value;
    if wd.maxBody > 0 && |body| > wd.maxBody {
      return Err(TooLarge);
    }
    var auth := Auth.ExtractAuthKey(wd.dec, req.call, body);
    r := CheckKey(wd, ProjectOf(wd, req, body), body, auth);
  }

  method CheckKey(wd: World, project: string, body: bytes, auth: Option<Auth.AuthInfo>)
    returns (r: Result<Admission, Response>)
    ensures r == Checked(wd, project, body, auth)
  {
    if auth == None {
      return Err(Unauthorized);
    }
    if !auth.value.present {
      return Err(Forbidden);
    }
    if auth.value.key == "" {
      return Err(Unauthorized);
    }
    match wd.validate(project, auth.value.key) {
      case Broken => r := Err(ValidationFailed);
      case Invalid => r := Err(Unauthorized);
      case Valid => r := Ok(Admission(auth.value.key, project, body));
    }
  }

  /** Item `i` with its payload as it is by now. */
  method Take(src: EnvelopeReader.Source, clone: bool, items: seq<EnvelopeReader.ParsedItem>, ghost env: G.Envelope, i: nat)
    returns (it: StoredItem)
    requires src.whole && EnvelopeReader.Agree(src, clone, items, env) && i < |items|
    ensures it == StoredItems(clone, src.data, env)[i]
  {
    var p := items[i].payload;
    if clone {
      assert EnvelopeReader.Stands(p, env.items[i].payload);
    } else {
      assert EnvelopeReader.Stands(p, KeptPayload(src.data, env, i));
    }
    it := StoredItem(items[i].meta.kind, p.a[p.lo..p.hi]);
  }

  method Collect(src: EnvelopeReader.Source, clone: bool, items: seq<EnvelopeReader.ParsedItem>, ghost env: G.Envelope)
    returns (stored: seq<StoredItem>)
    requires src.whole && EnvelopeReader.Agree(src, clone, items, env)
    ensures stored == StoredItems(clone, src.data, env)
  {
    stored := [];
    ghost var model := StoredItems(clone, src.data, env);
    for i := 0 to |items|
      invariant |stored| == i && forall j | 0 <= j < i :: stored[j] == model[j]
    {
      var it := Take(src, clone, items, env, i);
      stored := stored + [it];
    }
  }

  /** The items of a decompressed body. */
  method ReadItems(wd: World, req: HttpRequest, raw: bytes) returns (r: Result<seq<StoredItem>, G.Fault>)
    ensures r == ItemsOf(wd, req, raw)
  {
    if IsStore(req) {
      return Ok([StoredItem("event", raw)]);
    }
    var src := new EnvelopeReader.Source(raw, true);
    var parsed := EnvelopeReader.ParseEnvelope(src, wd.dec, wd.clone);
    match parsed {
      case Err(e) => r := Err(e);
      case Ok(env) =>
        var items := Collect(src, wd.clone, env.items, G.Parse(wd.dec, raw).value);
        r := Ok(items);
    }
  }

  method UnderstandRequest(wd: World, req: HttpRequest, a: Admission, now: Instant)
    returns (r: Result<Request, Response>)
    ensures r == Understand(wd, req, a, now)
  {
    var raw := wd.decompress(ContentEncoding(req), a.body, wd.maxBody);
    if raw == None {
      return Err(NotDecompressed);
    }
    var items := ReadItems(wd, req, raw.value);
    match items {
      case Err(e) => r := Err(BadEnvelope(e));
      case Ok(its) =>
        var id := EventIDFromItems(wd.env, its);
        if id == "" {
          id := DeterministicID(wd.env.hash, raw.value);
        }
        r := Ok(Request(a.project, id, raw.value, its, now));
    }
  }

  ghost function LimitingOf(limiter: RateLimiter.Limiter?): (l: Option<Limiting>)
    reads limiter, if limiter == null then {} else limiter.buckets.Values
  {
    if limiter == null then None else Some(Limiting(limiter.Config(), limiter.Levels()))
  }

  method AskLimiter(limiter: RateLimiter.Limiter?, key: string, clock: real) returns (refusal: Option<Response>)
    requires limiter != null ==> limiter.Valid()
    modifies limiter, if limiter == null then {} else limiter.buckets.Values
    ensures limiter != null ==> limiter.Valid()
    ensures Sound(old(LimitingOf(limiter)))
    ensures (LimitingOf(limiter), refusal) == Limited(old(LimitingOf(limiter)), key, clock)
  {
    refusal := None;
    if limiter != null {
      var allowed, retryAfter := limiter.Allow(key, clock);
      if !allowed {
        refusal := Some(RateLimited(RateLimiter.Printed(RateLimiter.Answer(allowed, retryAfter))));
      }
    }
  }

  method Serve(wd: World, arch: Archive, index: Index, req: HttpRequest, a: Admission, now: Instant, w: Weather,
               ghost l: Option<Limiting>)
    returns (response: Response)
    modifies arch, index
    ensures Effect(response, Stores(arch.objects, index.rows), l)
         == Served(wd, Stores(old(arch.objects), old(index.rows)), l, req, a, now, w)
  {
    var r := UnderstandRequest(wd, req, a, now);
    if r.Err? {
      return r.error;
    }
    var ok := Persist.Persist(wd.env, arch, index, r.value, w);
    response := if ok then Accepted(r.value.id) else PersistenceFailed;
  }

  /** One request from start to end. */
  method HandleRequest(wd: World, arch: Archive, index: Index, limiter: RateLimiter.Limiter?, req: HttpRequest,
                       now: Now, w: Weather)
    returns (response: Response)
    requires limiter != null ==> limiter.Valid()
    modifies arch, index, limiter, if limiter == null then {} else limiter.buckets.Values
    ensures limiter != null ==> limiter.Valid()
    ensures Sound(old(LimitingOf(limiter)))
    ensures Effect(response, Stores(arch.objects, index.rows), LimitingOf(limiter))
         == Handled(wd, Stores(old(arch.objects), old(index.rows)), old(LimitingOf(limiter)), req, now, w)
  {
    var admission := AdmitRequest(wd, req);
    if admission.Err? {
      return admission.error;
    }
    var refusal := AskLimiter(limiter, admission.value.key, now.clock);
    if refusal.Some? {
      return refusal.value;
    }
    response := Serve(wd, arch, index, req, admission.value, now.instant, w, LimitingOf(limiter));
  }
}
