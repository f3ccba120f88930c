/**
 Persisting a request: one archived envelope, then for each item one archived object and
 one metadata row. Every write may fail, with or without having taken effect.
 */
module Persist {
  import opened Base
  import opened Text
  import opened StorageKeys
  import opened WriteLog

  /** The present moment: its UTC date, its RFC 3339 text, its epoch seconds. */
  datatype Instant = Instant(date: string, text: string, unix: int)

  datatype EventMeta = EventMeta(eventID: string, timestamp: string, level: string, platform: string)

  /** One item as it is persisted. */
  datatype StoredItem = StoredItem(kind: string, payload: bytes)

  /** A metadata row. The ingest handler writes no issue id and no summary. */
  datatype Row = Row(projectID: string, eventID: string, timestamp: string, level: string, platform: string,
                     itemType: string, count: nat, status: string, s3Path: string, expiresAt: Option<int>,
                     issueID: Option<string>, summary: Option<string>)

  type RowKey = (string, string)

  /** SHA-256. */
  type Hash = h: bytes -> bytes | forall x :: |h(x)| == 32
    witness ((x: bytes) => seq(32, _ => 0))

  /** What persisting depends on besides the stores: hashing, JSON decoding of events, the TTL. */
  datatype Env = Env(hash: Hash, decodeMeta: bytes -> EventMeta, ttlDays: int)

  datatype Request = Request(project: string, id: string, raw: bytes, items: seq<StoredItem>, now: Instant)

  // ---------------------------------------------------------------- ids

  function HexDigit(d: nat): char
    requires d < 16
  {
    "0123456789abcdef"[d]
  }

  function Hex(s: bytes): (t: string)
    ensures |t| == 2 * |s| && AllHex(t)
  {
    if s == [] then ""
    else [HexDigit(s[0] as int / 16), HexDigit(s[0] as int % 16)] + Hex(s[1..])
  }

  function DeterministicID(hash: Hash, raw: bytes): (id: string)
    ensures ValidEventID(id) && |id| == 32
  {
    Hex(hash(raw)[..16])
  }

  /** What a lower-case hexadecimal digit stands for. */
  function NibbleOf(c: char): int {
    if '0' <= c <= '9' then c as int - '0' as int
    else if 'a' <= c <= 'f' then c as int - 'a' as int + 10
    else -1
  }

  /** Byte `k` of `s` is written at its place in `t`, as two lower-case digits. */
  ghost predicate WritesByte(t: string, s: bytes, k: nat)
    requires |t| == 2 * |s| && k < |s|
  {
    var high, low := NibbleOf(t[k + k]), NibbleOf(t[k + k + 1]);
    0 <= high && 0 <= low && high * 16 + low == s[k] as int
  }

  ghost predicate WritesOut(t: string, s: bytes) {
    |t| == 2 * |s| && forall k | 0 <= k < |s| :: WritesByte(t, s, k)
  }

  lemma HexDigitReads(d: nat)
    requires d < 16
    ensures NibbleOf(HexDigit(d)) == d
  {}

  lemma WritesByteBehind(t: string, s: bytes, k: nat)
    requires |t| == 2 * |s| && k + 1 < |s| && WritesByte(t[2..], s[1..], k)
    ensures WritesByte(t, s, k + 1)
  {
    assert t[2..][k + k] == t[k + 1 + (k + 1)] && t[2..][k + k + 1] == t[k + 1 + (k + 1) + 1];
    assert s[1..][k] == s[k + 1];
  }

  lemma {:induction false} HexWritesOut(s: bytes)
    ensures WritesOut(Hex(s), s)
  {
    if s != [] {
      var t := Hex(s);
      HexWritesOut(s[1..]);
      HexDigitReads(s[0] as int / 16);
      HexDigitReads(s[0] as int % 16);
      assert t[2..] == Hex(s[1..]);
      assert WritesByte(t, s, 0);
      forall k | 1 <= k < |s|
        ensures WritesByte(t, s, k)
      {
        WritesByteBehind(t, s, k - 1);
      }
    }
  }

  lemma WrittenOutOnce(t: string, u: string, s: bytes)
    requires WritesOut(t, s) && WritesOut(u, s)
    ensures t == u
  {
    forall i | 0 <= i < |t|
      ensures t[i] == u[i]
    {
      var k := i / 2;
      assert WritesByte(t, s, k) && WritesByte(u, s, k);
      SameNibbles(t[k + k], t[k + k + 1], u[k + k], u[k + k + 1]);
      assert i == k + k || i == k + k + 1;
    }
  }

  lemma SameNibbles(a: char, b: char, c: char, d: char)
    requires 0 <= NibbleOf(a) && 0 <= NibbleOf(b) && 0 <= NibbleOf(c) && 0 <= NibbleOf(d)
    requires NibbleOf(a) * 16 + NibbleOf(b) == NibbleOf(c) * 16 + NibbleOf(d)
    ensures a == c && b == d
  {}

  /** The derived id writes out the first half of the body's hash. */
  lemma DerivedIDReads(hash: Hash, raw: bytes)
    ensures WritesOut(DeterministicID(hash, raw), hash(raw)[..16])
  {
    HexWritesOut(hash(raw)[..16]);
  }

  /** The id that reaches the keys. */
  function SafeID(env: Env, r: Request): (id: string)
    ensures ValidEventID(id)
  {
    if ValidEventID(r.id) then r.id else DeterministicID(env.hash, r.raw)
  }

  // ---------------------------------------------------------------- stores

  /** What becomes of a write: it is done; it fails; or it is done but reported as failed. */
  datatype Outcome = Done | Failed | Unacknowledged

  class Archive {
    var objects: map<string, bytes>

    constructor ()
      ensures objects == map[]
    {
      objects := map[];
    }

    method PutObject(key: string, data: bytes, outcome: Outcome) returns (ok: bool)
      modifies this
      ensures ok == outcome.Done?
      ensures objects == if outcome.Failed? then old(objects) else old(objects)[key := data]
    {
      if !outcome.Failed? {
        objects := objects[key := data];
      }
      ok := outcome.Done?;
    }
  }

  class Index {
    var rows: map<RowKey, Row>

    constructor ()
      ensures rows == map[]
    {
      rows := map[];
    }

    method PutEvent(row: Row, outcome: Outcome) returns (ok: bool)
      modifies this
      ensures ok == outcome.Done?
      ensures rows == if outcome.Failed? then old(rows) else old(rows)[(row.projectID, row.eventID) := row]
    {
      if !outcome.Failed? {
        rows := rows[(row.projectID, row.eventID) := row];
      }
      ok := outcome.Done?;
    }
  }

  /** The outcomes of one request's writes: the envelope, and object and row of each item. */
  datatype Weather = Weather(envelope: Outcome, objectPut: nat -> Outcome, rowPut: nat -> Outcome)

  const FAIR := Weather(Done, (i: nat) => Done, (i: nat) => Done)

  // ---------------------------------------------------------------- what is written

  function KindOf(r: Request, i: nat): string
    requires i < |r.items|
  {
    Sanitize(r.items[i].kind)
  }

  function EnvelopeKeyOf(env: Env, r: Request): string {
    EnvelopeKey(r.project, r.now.date, SafeID(env, r))
  }

  function ItemKeyOf(env: Env, r: Request, i: nat): string
    requires i < |r.items|
  {
    ItemKey(r.project, r.now.date, SafeID(env, r), i, KindOf(r, i))
  }

  function RowKeyOf(env: Env, r: Request, i: nat): RowKey
    requires i < |r.items|
  {
    (r.project, SortKey(SafeID(env, r), KindOf(r, i), i))
  }

  function RowOf(env: Env, r: Request, i: nat): Row
    requires i < |r.items|
  {
    var kind := KindOf(r, i);
    var base := Row(r.project, SortKey(SafeID(env, r), kind, i), r.now.text, "", "", kind, 1, "received",
                    ItemKeyOf(env, r, i),
                    if env.ttlDays > 0 then Some(r.now.unix + env.ttlDays * 86400) else None, None, None);
    if kind != "event" then base
    else
      var meta := env.decodeMeta(r.items[i].payload);
      base.(timestamp := if meta.timestamp != "" then meta.timestamp else base.timestamp,
      level := meta.level, platform := meta.platform)
  }

  /** What item `i` writes to the archive. */
  function ObjectWrite(env: Env, r: Request, w: Weather, i: nat): Write<string, bytes>
    requires i < |r.items|
  {
    if w.objectPut(i).Failed? then None else Some((ItemKeyOf(env, r, i), r.items[i].payload))
  }

  /** What item `i` writes to the index: its row is put only behind an acknowledged object. */
  function RowWrite(env: Env, r: Request, w: Weather, i: nat): Write<RowKey, Row>
    requires i < |r.items|
  {
    if !w.objectPut(i).Done? || w.rowPut(i).Failed? then None else Some((RowKeyOf(env, r, i), RowOf(env, r, i)))
  }

  function ObjectLog(env: Env, r: Request, w: Weather): seq<Write<string, bytes>> {
    seq(|r.items|, i requires 0 <= i < |r.items| => ObjectWrite(env, r, w, i))
  }

  function RowLog(env: Env, r: Request, w: Weather): seq<Write<RowKey, Row>> {
    seq(|r.items|, i requires 0 <= i < |r.items| => RowWrite(env, r, w, i))
  }

  predicate Persists(w: Weather, i: nat) {
    w.objectPut(i).Done? && w.rowPut(i).Done?
  }

  /** How many of the first `n` items failed. */
  function Failures(w: Weather, n: nat): (f: nat)
    ensures f <= n
  {
    if n == 0 then 0 else Failures(w, n - 1) + if Persists(w, n - 1) then 0 else 1
  }

  datatype Stores = Stores(objects: map<string, bytes>, rows: map<RowKey, Row>)

  /** The stores after a request, and whether it is reported as persisted. */
  function Persisted(env: Env, s: Stores, r: Request, w: Weather): (Stores, bool) {
    var n := |r.items|;
    if w.envelope.Failed? then (s, false)
    else
      var archived := s.objects[EnvelopeKeyOf(env, r) := r.raw];
      if w.envelope.Unacknowledged? then (s.(objects := archived), false)
      else
        (Stores(Apply(archived, ObjectLog(env, r, w), n), Apply(s.rows, RowLog(env, r, w), n)),
         n == 0 || Failures(w, n) < n)
  }

  // ---------------------------------------------------------------- as it runs

  /** One item: its object and, if that is acknowledged, its row. */
  method PersistItem(env: Env, arch: Archive, index: Index, r: Request, i: nat, w: Weather) returns (ok: bool)
    requires i < |r.items|
    modifies arch, index
    ensures ok == Persists(w, i)
    ensures arch.objects == Put(old(arch.objects), ObjectWrite(env, r, w, i))
    ensures index.rows == Put(old(index.rows), RowWrite(env, r, w, i))
  {
    ok := arch.PutObject(ItemKeyOf(env, r, i), r.items[i].payload, w.objectPut(i));
    if !ok {
      return;
    }
    ok := index.PutEvent(RowOf(env, r, i), w.rowPut(i));
  }

  /** All items, counting the failed ones. */
  method PersistItems(env: Env, arch: Archive, index: Index, r: Request, w: Weather) returns (failed: nat)
    modifies arch, index
    ensures failed == Failures(w, |r.items|)
    ensures arch.objects == Apply(old(arch.objects), ObjectLog(env, r, w), |r.items|)
    ensures index.rows == Apply(old(index.rows), RowLog(env, r, w), |r.items|)
  {
    failed := 0;
    for i := 0 to |r.items|
      invariant failed == Failures(w, i)
      invariant arch.objects == Apply(old(arch.objects), ObjectLog(env, r, w), i)
      invariant index.rows == Apply(old(index.rows), RowLog(env, r, w), i)
    {
      var ok := PersistItem(env, arch, index, r, i, w);
      if !ok {
        failed := failed + 1;
      }
    }
  }

  method Persist(env: Env, arch: Archive, index: Index, r: Request, w: Weather) returns (ok: bool)
    modifies arch, index
    ensures (Stores(arch.objects, index.rows), ok)
         == Persisted(env, Stores(old(arch.objects), old(index.rows)), r, w)
  {
    ok := arch.PutObject(EnvelopeKeyOf(env, r), r.raw, w.envelope);
    if !ok {
      return;
    }
    var failed := PersistItems(env, arch, index, r, w);
    ok := !(failed == |r.items| && |r.items| > 0);
  }

  // ---------------------------------------------------------------- retries

  /** The same request at another time. */
  ghost predicate Retry(r1: Request, r2: Request) {
    r2 == r1.(now := r2.now)
  }

  lemma RetryKeys(env: Env, r1: Request, r2: Request, i: nat)
    requires Retry(r1, r2) && i < |r1.items|
    ensures RowKeyOf(env, r1, i) == RowKeyOf(env, r2, i)
    ensures r1.now.date == r2.now.date ==> ItemKeyOf(env, r1, i) == ItemKeyOf(env, r2, i)
  {}

  /**
   The row of a retry is the same row but for the time it came in: where the payload gives no
   time it has the new one, it points into the folder of the new day, and it expires later by
   as much as the retry is later.
   */
  lemma RetriedRow(env: Env, r1: Request, r2: Request, i: nat)
    requires Retry(r1, r2) && i < |r1.items|
    ensures var a, b := RowOf(env, r1, i), RowOf(env, r2, i);
            && b == a.(timestamp := b.timestamp, s3Path := b.s3Path, expiresAt := b.expiresAt)
            && (b.timestamp == a.timestamp || (a.timestamp == r1.now.text && b.timestamp == r2.now.text))
            && (r1.now.date == r2.now.date ==> b.s3Path == a.s3Path)
            && (a.expiresAt.Some? <==> b.expiresAt.Some?)
            && (a.expiresAt.Some? ==> b.expiresAt.value - a.expiresAt.value == r2.now.unix - r1.now.unix)
  {
    RetryKeys(env, r1, r2, i);
  }

  lemma RetryCovers(env: Env, r1: Request, r2: Request, w: Weather)
    requires Retry(r1, r2)
    ensures Covers(RowLog(env, r1, w), RowLog(env, r2, FAIR))
    ensures r1.now.date == r2.now.date ==> Covers(ObjectLog(env, r1, w), ObjectLog(env, r2, FAIR))
  {
    forall i | 0 <= i < |r1.items|
      ensures RowKeyOf(env, r1, i) == RowKeyOf(env, r2, i)
      ensures r1.now.date == r2.now.date ==> ItemKeyOf(env, r1, i) == ItemKeyOf(env, r2, i)
    {
      RetryKeys(env, r1, r2, i);
    }
  }

  /**
   A retry on the same day in which nothing fails leaves the stores exactly as if the
   attempt before it, whatever became of its writes, had never been made.
   */
  lemma RetryConverges(env: Env, s: Stores, r1: Request, r2: Request, w: Weather)
    requires Retry(r1, r2) && r1.now.date == r2.now.date
    ensures Persisted(env, Persisted(env, s, r1, w).0, r2, FAIR) == Persisted(env, s, r2, FAIR)
  {
    var k, archived := EnvelopeKeyOf(env, r1), s.objects[EnvelopeKeyOf(env, r1) := r1.raw];
    assert k == EnvelopeKeyOf(env, r2);
    assert archived[k := r2.raw] == archived;
    if w.envelope.Done? {
      RetryCovers(env, r1, r2, w);
      CoveredVanish(s.rows, RowLog(env, r1, w), RowLog(env, r2, FAIR));
      PutAgain(s.objects, k, r2.raw, ObjectLog(env, r1, w), ObjectLog(env, r2, FAIR));
    }
  }

  /** Rows converge on any day; the archive does not when the retry comes on another one. */
  lemma RetryOnAnotherDay(env: Env, s: Stores, r1: Request, r2: Request, w: Weather)
    requires Retry(r1, r2) && r1.now.date != r2.now.date
    requires '/' !in r1.now.date && '/' !in r2.now.date
    requires !w.envelope.Failed? && EnvelopeKeyOf(env, r1) !in s.objects
    ensures var retried, alone := Persisted(env, Persisted(env, s, r1, w).0, r2, FAIR).0, Persisted(env, s, r2, FAIR).0;
            && retried.rows == alone.rows
            && EnvelopeKeyOf(env, r1) in retried.objects && EnvelopeKeyOf(env, r1) !in alone.objects
  {
    var key, once := EnvelopeKeyOf(env, r1), Persisted(env, s, r1, w).0;
    RetryCovers(env, r1, r2, w);
    CoveredVanish(s.rows, RowLog(env, r1, w), RowLog(env, r2, FAIR));
    if EnvelopeKeyOf(env, r2) == key {
      EnvelopeKeyInjective(r1.project, r1.now.date, SafeID(env, r1), r2.project, r2.now.date, SafeID(env, r2));
    }
    ItemsSpareEnvelopes(env, r2, FAIR, r1);
    Untouched(env, s, r2, FAIR, key);
    Untouched(env, once, r2, FAIR, key);
    ItemsSpareEnvelopes(env, r1, w, r1);
    ApplySpares(s.objects[key := r1.raw], ObjectLog(env, r1, w), |r1.items|, key);
  }

  /** For a new request, a clean retry undoes an attempt exactly if that left no envelope or both are of one day. */
  lemma RetryConvergesIff(env: Env, s: Stores, r1: Request, r2: Request, w: Weather)
    requires Retry(r1, r2) && '/' !in r1.now.date && '/' !in r2.now.date && EnvelopeKeyOf(env, r1) !in s.objects
    ensures Persisted(env, Persisted(env, s, r1, w).0, r2, FAIR).0 == Persisted(env, s, r2, FAIR).0 <==>
            r1.now.date == r2.now.date || w.envelope.Failed?
  {
    if r1.now.date == r2.now.date {
      RetryConverges(env, s, r1, r2, w);
    } else if !w.envelope.Failed? {
      RetryOnAnotherDay(env, s, r1, r2, w);
    }
  }

  lemma ItemsSpareEnvelopes(env: Env, r: Request, w: Weather, other: Request)
    ensures forall i | 0 <= i < |r.items| :: Spares(ObjectLog(env, r, w)[i], EnvelopeKeyOf(env, other))
  {
    forall i | 0 <= i < |r.items|
      ensures Spares(ObjectLog(env, r, w)[i], EnvelopeKeyOf(env, other))
    {
      ItemKeyIsNoEnvelopeKey(r.project, r.now.date, SafeID(env, r), i, r.items[i].kind,
                             other.project, other.now.date, SafeID(env, other));
    }
  }

  // ---------------------------------------------------------------- frame

  lemma Untouched(env: Env, s: Stores, r: Request, w: Weather, k: string)
    requires k != EnvelopeKeyOf(env, r) && forall i | 0 <= i < |r.items| :: Spares(ObjectLog(env, r, w)[i], k)
    ensures Lookup(Persisted(env, s, r, w).0.objects, k) == Lookup(s.objects, k)
  {
    ApplySpares(s.objects[EnvelopeKeyOf(env, r) := r.raw], ObjectLog(env, r, w), |r.items|, k);
  }

  lemma RowUntouched(env: Env, s: Stores, r: Request, w: Weather, k: RowKey)
    requires forall i | 0 <= i < |r.items| :: Spares(RowLog(env, r, w)[i], k)
    ensures Lookup(Persisted(env, s, r, w).0.rows, k) == Lookup(s.rows, k)
  {
    ApplySpares(s.rows, RowLog(env, r, w), |r.items|, k);
  }

  /** Nothing that belongs to another event, in any project and on any day, is touched. */
  lemma OtherEventsUntouched(env: Env, s: Stores, r: Request, w: Weather,
                             p: string, d: string, e: string, i: nat, t: string)
    requires '/' !in r.now.date && '/' !in d && ValidEventID(e) && e != SafeID(env, r)
    ensures var after := Persisted(env, s, r, w).0;
            && Lookup(after.objects, EnvelopeKey(p, d, e)) == Lookup(s.objects, EnvelopeKey(p, d, e))
            && Lookup(after.objects, ItemKey(p, d, e, i, Sanitize(t)))
               == Lookup(s.objects, ItemKey(p, d, e, i, Sanitize(t)))
            && Lookup(after.rows, (p, SortKey(e, t, i))) == Lookup(s.rows, (p, SortKey(e, t, i)))
  {
    var item, envelope, row := ItemKey(p, d, e, i, Sanitize(t)), EnvelopeKey(p, d, e), (p, SortKey(e, t, i));
    forall j | 0 <= j < |r.items|
      ensures Spares(ObjectLog(env, r, w)[j], item) && Spares(ObjectLog(env, r, w)[j], envelope)
      ensures Spares(RowLog(env, r, w)[j], row)
    {
      KeysOfOthers(env, r, j, p, d, e, i, t);
    }
    if EnvelopeKeyOf(env, r) == envelope {
      EnvelopeKeyInjective(r.project, r.now.date, SafeID(env, r), p, d, e);
    }
    ItemKeyIsNoEnvelopeKey(p, d, e, i, t, r.project, r.now.date, SafeID(env, r));
    Untouched(env, s, r, w, item);
    Untouched(env, s, r, w, envelope);
    RowUntouched(env, s, r, w, row);
  }

  lemma KeysOfOthers(env: Env, r: Request, j: nat, p: string, d: string, e: string, i: nat, t: string)
    requires j < |r.items| && '/' !in r.now.date && '/' !in d && ValidEventID(e) && e != SafeID(env, r)
    ensures ItemKeyOf(env, r, j) != ItemKey(p, d, e, i, Sanitize(t))
    ensures ItemKeyOf(env, r, j) != EnvelopeKey(p, d, e)
    ensures RowKeyOf(env, r, j) != (p, SortKey(e, t, i))
  {
    var id, kind := SafeID(env, r), r.items[j].kind;
    if ItemKeyOf(env, r, j) == ItemKey(p, d, e, i, Sanitize(t)) {
      ItemKeyInjective(r.project, r.now.date, id, j, kind, p, d, e, i, t);
    }
    ItemKeyIsNoEnvelopeKey(r.project, r.now.date, id, j, kind, p, d, e);
    if SortKey(id, KindOf(r, j), j) == SortKey(e, t, i) {
      SortKeyInjective(id, KindOf(r, j), j, e, t, i);
    }
  }

  // ---------------------------------------------------------------- success

  /** Item `i` is in both stores. */
  ghost predicate Stored(env: Env, s: Stores, r: Request, i: nat)
    requires i < |r.items|
  {
    && Lookup(s.objects, ItemKeyOf(env, r, i)) == Some(r.items[i].payload)
    && Lookup(s.rows, RowKeyOf(env, r, i)) == Some(RowOf(env, r, i))
  }

  lemma KeysOfItems(env: Env, r: Request, i: nat, j: nat)
    requires i < j < |r.items| && '/' !in r.now.date
    ensures ItemKeyOf(env, r, i) != ItemKeyOf(env, r, j) && RowKeyOf(env, r, i) != RowKeyOf(env, r, j)
  {
    var id := SafeID(env, r);
    if ItemKeyOf(env, r, i) == ItemKeyOf(env, r, j) {
      ItemKeyInjective(r.project, r.now.date, id, i, r.items[i].kind, r.project, r.now.date, id, j, r.items[j].kind);
    }
    if RowKeyOf(env, r, i) == RowKeyOf(env, r, j) {
      SortKeyInjective(id, KindOf(r, i), i, id, KindOf(r, j), j);
    }
  }

  lemma ItemStored(env: Env, s: Stores, r: Request, w: Weather, i: nat)
    requires '/' !in r.now.date && w.envelope.Done? && i < |r.items| && Persists(w, i)
    ensures Stored(env, Persisted(env, s, r, w).0, r, i)
  {
    var n, archived := |r.items|, s.objects[EnvelopeKeyOf(env, r) := r.raw];
    forall j | i < j < n
      ensures Spares(ObjectLog(env, r, w)[j], ItemKeyOf(env, r, i))
      ensures Spares(RowLog(env, r, w)[j], RowKeyOf(env, r, i))
    {
      KeysOfItems(env, r, i, j);
    }
    ApplyHolds(archived, ObjectLog(env, r, w), n, i, ItemKeyOf(env, r, i), r.items[i].payload);
    ApplyHolds(s.rows, RowLog(env, r, w), n, i, RowKeyOf(env, r, i), RowOf(env, r, i));
  }

  lemma EnvelopeStored(env: Env, s: Stores, r: Request, w: Weather)
    requires w.envelope.Done?
    ensures Lookup(Persisted(env, s, r, w).0.objects, EnvelopeKeyOf(env, r)) == Some(r.raw)
  {
    ItemsSpareEnvelopes(env, r, w, r);
    ApplySpares(s.objects[EnvelopeKeyOf(env, r) := r.raw], ObjectLog(env, r, w), |r.items|, EnvelopeKeyOf(env, r));
  }

  lemma {:induction false} SomePersist(w: Weather, n: nat)
    ensures Failures(w, n) < n <==> exists i | 0 <= i < n :: Persists(w, i)
  {
    if n > 0 {
      SomePersist(w, n - 1);
      assert Persists(w, n - 1) || !Persists(w, n - 1);
    }
  }

  /**
   Success is reported exactly when the envelope is acknowledged and, if there are items,
   both writes of at least one of them; then the envelope and those items are stored.
   */
  lemma SuccessMeansStored(env: Env, s: Stores, r: Request, w: Weather)
    requires '/' !in r.now.date
    ensures var (after, ok) := Persisted(env, s, r, w);
            && (ok <==> w.envelope.Done? && (r.items == [] || exists i | 0 <= i < |r.items| :: Persists(w, i)))
            && (ok ==> Lookup(after.objects, EnvelopeKeyOf(env, r)) == Some(r.raw))
            && (w.envelope.Done? ==> forall i | 0 <= i < |r.items| && Persists(w, i) :: Stored(env, after, r, i))
  {
    SomePersist(w, |r.items|);
    if w.envelope.Done? {
      EnvelopeStored(env, s, r, w);
      forall i | 0 <= i < |r.items| && Persists(w, i)
        ensures Stored(env, Persisted(env, s, r, w).0, r, i)
      {
        ItemStored(env, s, r, w, i);
      }
    }
  }

  // ---------------------------------------------------------------- what a stored row says

  /** Whole days that have passed from one time to a later one. */
  function WholeDays(from: int, to: int): int {
    (to - from) / 86400
  }

  /** A row never expires without a time to live, and else once that many whole days have passed. */
  ghost predicate LivesFor(row: Row, from: int, days: int) {
    && (row.expiresAt == None <==> days <= 0)
    && forall t | row.expiresAt.Some? && from <= t :: row.expiresAt.value <= t <==> days <= WholeDays(from, t)
  }

  lemma RowLives(env: Env, r: Request, i: nat)
    requires i < |r.items|
    ensures LivesFor(RowOf(env, r, i), r.now.unix, env.ttlDays)
  {
    var row := RowOf(env, r, i);
    assert row.expiresAt == if env.ttlDays > 0 then Some(r.now.unix + env.ttlDays * 86400) else None;
    forall t | row.expiresAt.Some? && r.now.unix <= t
      ensures row.expiresAt.value <= t <==> env.ttlDays <= WholeDays(r.now.unix, t)
    {
      DaysPassed(t - r.now.unix, env.ttlDays);
    }
  }

  lemma DaysPassed(seconds: int, days: int)
    ensures days * 86400 <= seconds <==> days <= seconds / 86400
  {}

  /**
   The row that an acknowledged item has in the end points at its payload, counts one
   event with the platform that an event gives itself, has not been grouped, and lives for
   the configured number of days.
   */
  lemma StoredRowMeans(env: Env, s: Stores, r: Request, w: Weather, i: nat)
    requires '/' !in r.now.date && w.envelope.Done? && i < |r.items| && Persists(w, i)
    ensures var after := Persisted(env, s, r, w).0;
            && RowKeyOf(env, r, i) in after.rows
            && var row := after.rows[RowKeyOf(env, r, i)];
            && Lookup(after.objects, row.s3Path) == Some(r.items[i].payload)
            && (row.projectID, row.eventID) == RowKeyOf(env, r, i)
            && row.count == 1 && row.status == "received" && row.issueID == None && row.summary == None
            && row.platform == (if row.itemType == "event" then env.decodeMeta(r.items[i].payload).platform else "")
            && LivesFor(row, r.now.unix, env.ttlDays)
  {
    ItemStored(env, s, r, w, i);
    RowLives(env, r, i);
  }
}
