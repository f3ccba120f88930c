/**
 Issue ids when an event id is sent again with other items: exactly which steps keep every
 issue id the fingerprint of the payload at its row's path, and a run without any failure
 that ends with an issue id that is not.
 */
module ProtocolResends {
  import opened Base
  import opened Text
  import opened StorageKeys
  import opened WriteLog
  import opened Persist
  import opened Fingerprint
  import opened Processor
  import opened Protocol
  import opened ProtocolFingerprints
  import ProtocolRefinement

  /** The issue id that a payload has, if it parses. */
  function PrintOf(c: Config, payload: bytes): Option<string> {
    match c.parse(payload)
    case None => None
    case Some(ev) => Some(IssueID(c.digest, c.lower, ev))
  }

  // ---------------------------------------------------------------- single steps

  /** Every row that has an issue id and points at `path` has that of `payload`. */
  ghost predicate SuitsRows(c: Config, rows: map<RowKey, Row>, path: string, payload: bytes) {
    forall k | k in rows && rows[k].issueID.Some? && rows[k].s3Path == path :: PrintOf(c, payload) == rows[k].issueID
  }

  /** What a step must be for issue ids to stay fingerprints. */
  ghost predicate Suits(env: Env, c: Config, s: State, e: Step)
    requires Enabled(s, e)
  {
    match e
    case PutItem(j, o) =>
      var r, i := s.jobs[j].r, s.jobs[j].pc.i;
      o.Failed? || SuitsRows(c, s.rows, ItemKeyOf(env, r, i), r.items[i].payload)
    case Update(n, _, o) => o.Failed? || SuitsFetched(c, s, s.runs[n].fetched.value.0, s.runs[n].fetched.value.1)
    case _ => true
  }

  /**
   The payload a run fetched does not parse, or the row has an issue id by now, or what
   the row points at by now has the same fingerprint.
   */
  ghost predicate SuitsFetched(c: Config, s: State, row: Row, raw: bytes) {
    || PrintOf(c, raw) == None
    || KeyOf(row) !in s.rows || s.rows[KeyOf(row)].issueID.Some?
    || (s.rows[KeyOf(row)].s3Path in s.objects
        && PrintOf(c, s.objects[s.rows[KeyOf(row)].s3Path]) == PrintOf(c, raw))
  }

  lemma PrintedIff(c: Config, objects: map<string, bytes>, row: Row)
    requires row.s3Path in objects
    ensures Printed(c, objects, row) <==> row.issueID == None || PrintOf(c, objects[row.s3Path]) == row.issueID
  {}

  /** Writing one object keeps issue ids fingerprints exactly if its payload suits the rows that point at it. */
  lemma PutSuitsIff(c: Config, objects: map<string, bytes>, rows: map<RowKey, Row>, path: string, payload: bytes)
    requires RowsGood(objects, rows) && RowsPrinted(c, objects, rows)
    ensures RowsPrinted(c, objects[path := payload], rows) <==> SuitsRows(c, rows, path, payload)
  {
    forall k | k in rows
      ensures Printed(c, objects[path := payload], rows[k]) <==>
              rows[k].issueID == None || rows[k].s3Path != path || PrintOf(c, payload) == rows[k].issueID
    {
      assert RowGood(objects, rows[k]) && Printed(c, objects, rows[k]);
      PrintedIff(c, objects, rows[k]);
      PrintedIff(c, objects[path := payload], rows[k]);
    }
  }

  /** No row points at an envelope. */
  lemma EnvelopeSuits(c: Config, objects: map<string, bytes>, rows: map<RowKey, Row>, r: Request, env: Env)
    requires RowsGood(objects, rows)
    ensures SuitsRows(c, rows, EnvelopeKeyOf(env, r), r.raw)
  {
    forall k | k in rows
      ensures rows[k].s3Path != EnvelopeKeyOf(env, r)
    {
      assert RowGood(objects, rows[k]);
      var p :| RowAt(rows[k], p);
      ItemKeyIsNoEnvelopeKey(p.project, p.date, p.id, p.i, p.kind, r.project, r.now.date, SafeID(env, r));
    }
  }

  /** Replacing one row keeps them exactly if the new row's issue id is one. */
  lemma SetPrintedIff(c: Config, objects: map<string, bytes>, rows: map<RowKey, Row>, row: Row)
    requires RowsPrinted(c, objects, rows)
    ensures RowsPrinted(c, objects, rows[KeyOf(row) := row]) <==> Printed(c, objects, row)
  {
    if RowsPrinted(c, objects, rows[KeyOf(row) := row]) {
      assert rows[KeyOf(row) := row][KeyOf(row)] == row;
    }
  }

  /** Replacing a row by its update keeps them exactly if the payload fetched has the fingerprint of the one it points at. */
  lemma ReplacedPrintsIff(c: Config, objects: map<string, bytes>, rows: map<RowKey, Row>, now: Row, raw: bytes)
    requires RowsPrinted(c, objects, rows) && now.s3Path in objects && now.issueID.Some? && now.issueID == PrintOf(c, raw)
    ensures RowsPrinted(c, objects, rows[KeyOf(now) := now]) <==> PrintOf(c, objects[now.s3Path]) == PrintOf(c, raw)
  {
    PrintedIff(c, objects, now);
    SetPrintedIff(c, objects, rows, now);
  }

  /** What an update of an existing row writes. */
  lemma UpdateWritesOne(c: Config, s: State, n: nat, ai: Option<string>, o: Outcome, row: Row, raw: bytes)
    requires n in s.runs && s.runs[n].fetched == Some((row, raw)) && Keyed(s.rows) && KeyOf(row) in s.rows
    ensures var rows := AfterUpdate(c, s, n, ai, o).rows;
            if c.parse(raw) == None || o.Failed? || s.rows[KeyOf(row)].issueID.Some? then rows == s.rows
            else
              var now := Updated(s.rows, GroupedRow(c, row, c.parse(raw).value, ai));
              now.Some? && rows == s.rows[KeyOf(row) := now.value]
  {
    if c.parse(raw).Some? {
      assert KeyOf(GroupedRow(c, row, c.parse(raw).value, ai)) == KeyOf(row);
    }
  }

  lemma UpdateSuitsIff(c: Config, s: State, n: nat, ai: Option<string>, o: Outcome)
    requires n in s.runs && s.runs[n].fetched.Some?
    requires RowsGood(s.objects, s.rows) && RowsPrinted(c, s.objects, s.rows)
    requires KeyOf(s.runs[n].fetched.value.0) in s.rows
    ensures RowsPrinted(c, s.objects, AfterUpdate(c, s, n, ai, o).rows) <==>
            o.Failed? || SuitsFetched(c, s, s.runs[n].fetched.value.0, s.runs[n].fetched.value.1)
  {
    var (row, raw) := s.runs[n].fetched.value;
    var stored := s.rows[KeyOf(row)];
    assert RowGood(s.objects, stored);
    UpdateWritesOne(c, s, n, ai, o, row, raw);
    if c.parse(raw).Some? && !o.Failed? && stored.issueID == None {
      UpdatedOf(c, s.rows, row, c.parse(raw).value, ai);
      ReplacedPrintsIff(c, s.objects, s.rows, Updated(s.rows, GroupedRow(c, row, c.parse(raw).value, ai)).value, raw);
    }
  }

  lemma UpdatedOf(c: Config, rows: map<RowKey, Row>, row: Row, ev: SentryEvent, ai: Option<string>)
    requires Keyed(rows) && KeyOf(row) in rows && rows[KeyOf(row)].issueID == None
    ensures var u := Updated(rows, GroupedRow(c, row, ev, ai));
            && u.Some? && KeyOf(u.value) == KeyOf(row) && u.value.s3Path == rows[KeyOf(row)].s3Path
            && u.value.issueID == Some(IssueID(c.digest, c.lower, ev)) && u.value.status == "grouped"
  {
    assert KeyOf(GroupedRow(c, row, ev, ai)) == KeyOf(row);
  }

  lemma PutRowPrints(env: Env, c: Config, s: State, j: nat, i: nat, o: Outcome)
    requires j in s.jobs && i < |s.jobs[j].r.items| && RowsPrinted(c, s.objects, s.rows)
    ensures RowsPrinted(c, s.objects, AfterPutRow(env, s, j, i, o).rows)
  {
    SetPrinted(c, s.objects, s.rows, RowKeyOf(env, s.jobs[j].r, i), RowOf(env, s.jobs[j].r, i));
  }

  lemma PutEnvelopePrints(env: Env, c: Config, s: State, j: nat, o: Outcome)
    requires j in s.jobs && RowsGood(s.objects, s.rows) && RowsPrinted(c, s.objects, s.rows)
    ensures var t := AfterPutEnvelope(env, s, j, o); RowsPrinted(c, t.objects, t.rows)
  {
    var r := s.jobs[j].r;
    EnvelopeSuits(c, s.objects, s.rows, r, env);
    PutSuitsIff(c, s.objects, s.rows, EnvelopeKeyOf(env, r), r.raw);
  }

  lemma PutItemPrintsIff(env: Env, c: Config, s: State, j: nat, i: nat, o: Outcome)
    requires j in s.jobs && i < |s.jobs[j].r.items|
    requires RowsGood(s.objects, s.rows) && RowsPrinted(c, s.objects, s.rows)
    ensures var r, t := s.jobs[j].r, AfterPutItem(env, s, j, i, o);
            RowsPrinted(c, t.objects, t.rows) <==>
            o.Failed? || SuitsRows(c, s.rows, ItemKeyOf(env, r, i), r.items[i].payload)
  {
    PutSuitsIff(c, s.objects, s.rows, ItemKeyOf(env, s.jobs[j].r, i), s.jobs[j].r.items[i].payload);
  }

  lemma UpdatePrintsIff(env: Env, c: Config, s: State, n: nat, ai: Option<string>, o: Outcome)
    requires Inv(env, s) && RowsPrinted(c, s.objects, s.rows) && n in s.runs && s.runs[n].fetched.Some?
    ensures var t := AfterUpdate(c, s, n, ai, o);
            RowsPrinted(c, t.objects, t.rows) <==>
            o.Failed? || SuitsFetched(c, s, s.runs[n].fetched.value.0, s.runs[n].fetched.value.1)
  {
    assert RunGood(s.objects, s.rows, s.runs[n]);
    UpdateShape(c, s, n, ai, o);
    UpdateSuitsIff(c, s, n, ai, o);
  }

  /** A step keeps issue ids fingerprints exactly if it suits. */
  lemma NextPrintsIff(env: Env, c: Config, s: State, e: Step)
    requires Inv(env, s) && RowsPrinted(c, s.objects, s.rows) && Enabled(s, e)
    ensures var t := Next(env, c, s, e); RowsPrinted(c, t.objects, t.rows) <==> Suits(env, c, s, e)
  {
    match e
    case PutEnvelope(j, o) => PutEnvelopePrints(env, c, s, j, o);
    case PutItem(j, o) => PutItemPrintsIff(env, c, s, j, s.jobs[j].pc.i, o);
    case PutRow(j, o) => PutRowPrints(env, c, s, j, s.jobs[j].pc.i, o);
    case Update(n, ai, o) => UpdatePrintsIff(env, c, s, n, ai, o);
    case _ =>
  }

  // ---------------------------------------------------------------- runs

  /** After the first `n` steps every issue id is the fingerprint of what its row points at. */
  ghost predicate PrintedAfter(env: Env, c: Config, steps: seq<Step>, n: nat)
    requires n <= |steps|
  {
    var s := After(env, c, steps[..n]);
    RowsPrinted(c, s.objects, s.rows)
  }

  /** Step `n` of the run does nothing or suits the state it comes in. */
  ghost predicate SuitsAt(env: Env, c: Config, steps: seq<Step>, n: nat)
    requires n < |steps|
  {
    var s := After(env, c, steps[..n]);
    Enabled(s, steps[n]) ==> Suits(env, c, s, steps[n])
  }

  lemma PrintedStep(env: Env, c: Config, steps: seq<Step>, n: nat)
    requires n < |steps| && PrintedAfter(env, c, steps, n)
    ensures PrintedAfter(env, c, steps, n + 1) <==> SuitsAt(env, c, steps, n)
  {
    assert steps[..n + 1][..n] == steps[..n];
    AlwaysGood(env, c, steps[..n]);
    var s := After(env, c, steps[..n]);
    if Enabled(s, steps[n]) {
      NextPrintsIff(env, c, s, steps[n]);
    }
  }

  lemma {:induction false} PrintedUpTo(env: Env, c: Config, steps: seq<Step>, n: nat)
    requires n <= |steps| && forall i | 0 <= i < n :: SuitsAt(env, c, steps, i)
    ensures PrintedAfter(env, c, steps, n)
  {
    if n > 0 {
      PrintedUpTo(env, c, steps, n - 1);
      PrintedStep(env, c, steps, n - 1);
    }
  }

  /**
   Throughout a run every issue id is the fingerprint of the payload at its row's path
   exactly if every step suits the state it comes in.
   */
  lemma AlwaysPrintedIff(env: Env, c: Config, steps: seq<Step>)
    ensures (forall n | 0 <= n <= |steps| :: PrintedAfter(env, c, steps, n)) <==>
            (forall n | 0 <= n < |steps| :: SuitsAt(env, c, steps, n))
  {
    if forall n | 0 <= n <= |steps| :: PrintedAfter(env, c, steps, n) {
      forall n | 0 <= n < |steps|
        ensures SuitsAt(env, c, steps, n)
      {
        assert PrintedAfter(env, c, steps, n) && PrintedAfter(env, c, steps, n + 1);
        PrintedStep(env, c, steps, n);
      }
    }
    if forall n | 0 <= n < |steps| :: SuitsAt(env, c, steps, n) {
      forall n | 0 <= n <= |steps|
        ensures PrintedAfter(env, c, steps, n)
      {
        PrintedUpTo(env, c, steps, n);
      }
    }
  }

  // ---------------------------------------------------------------- a stale update

  /** A request with one event item. */
  function EventRequest(project: string, id: string, payload: bytes, now: Instant): Request {
    Request(project, id, payload, [StoredItem("event", payload)], now)
  }

  lemma EventKind(r: Request)
    requires r.items == [StoredItem("event", r.raw)]
    ensures KindOf(r, 0) == "event"
  {
    assert Clean("event") && Trimmed("event");
    SanitizeSound("event");
  }

  /** Persisting such a request stores a waiting row and its payload, under the same key for the same id. */
  lemma EventStored(env: Env, s: Stores, r: Request)
    requires '/' !in r.now.date && r.items == [StoredItem("event", r.raw)]
    ensures var after, k := Persisted(env, s, r, FAIR).0, RowKeyOf(env, r, 0);
            && k in after.rows && after.rows[k] == RowOf(env, r, 0)
            && Waiting(after.rows[k]) && after.rows[k].issueID == None && KeyOf(after.rows[k]) == k
            && after.rows[k].s3Path in after.objects && after.objects[after.rows[k].s3Path] == r.raw
  {
    EventKind(r);
    ItemStored(env, s, r, FAIR, 0);
  }

  lemma EventKeys(env: Env, project: string, id: string, before: bytes, after: bytes, now: Instant)
    requires ValidEventID(id)
    ensures RowKeyOf(env, EventRequest(project, id, before, now), 0)
         == RowKeyOf(env, EventRequest(project, id, after, now), 0)
  {}

  /** The run so far: the old payload was stored and fetched, then the new one was stored in its place. */
  ghost predicate Stale(s: State, k: RowKey, before: bytes, now: bytes) {
    && Keyed(s.rows) && k in s.rows && Waiting(s.rows[k]) && s.rows[k].issueID == None
    && s.rows[k].s3Path in s.objects && s.objects[s.rows[k].s3Path] == now
    && 0 in s.runs && s.runs[0].fetched.Some?
    && KeyOf(s.runs[0].fetched.value.0) == k && s.runs[0].fetched.value.1 == before
  }

  /** A run starts, sees one waiting row and fetches its payload. */
  lemma RowFetched(env: Env, c: Config, steps: seq<Step>, n: nat, k: RowKey) returns (more: seq<Step>)
    requires var s := After(env, c, steps);
             n !in s.runs && k in s.rows && Waiting(s.rows[k]) && s.rows[k].s3Path in s.objects
    ensures var s, t := After(env, c, steps), After(env, c, steps + more);
            && t.objects == s.objects && t.rows == s.rows && t.jobs == s.jobs && n in t.runs
            && t.runs[n].fetched == Some((s.rows[k], s.objects[s.rows[k].s3Path]))
  {
    var row := After(env, c, steps).rows[k];
    ProtocolRefinement.AfterMore(env, c, steps, StartRun(n));
    ProtocolRefinement.AfterMore(env, c, steps + [StartRun(n)], See(n, k));
    var seen := steps + [StartRun(n)] + [See(n, k)];
    ProtocolRefinement.AfterMore(env, c, seen, Fetch(n, row));
    more := [StartRun(n), See(n, k), Fetch(n, row)];
    assert seen + [Fetch(n, row)] == steps + more;
  }

  lemma StaleIsReached(env: Env, c: Config, project: string, id: string, before: bytes, after: bytes, now: Instant)
    returns (steps: seq<Step>, k: RowKey)
    requires ValidEventID(id) && '/' !in now.date
    ensures Stale(After(env, c, steps), k, before, after)
  {
    var r1, r2 := EventRequest(project, id, before, now), EventRequest(project, id, after, now);
    k := RowKeyOf(env, r1, 0);
    EventKeys(env, project, id, before, after, now);
    assert After(env, c, []) == EMPTY;
    var first := ProtocolRefinement.RequestAlonePersists(env, c, [], 0, r1, FAIR);
    EventStored(env, Stores(map[], map[]), r1);
    var s := After(env, c, [] + first);
    assert Lookup(s.jobs, 1) == None;
    var fetch := RowFetched(env, c, [] + first, 0, k);
    var t := After(env, c, [] + first + fetch);
    var again := ProtocolRefinement.RequestAlonePersists(env, c, [] + first + fetch, 1, r2, FAIR);
    EventStored(env, Stores(t.objects, t.rows), r2);
    steps := [] + first + fetch + again;
    ProtocolRefinement.ReachableIsReady(env, c, steps);
  }

  /** The stale update leaves a grouped row with the fingerprint of the old payload. */
  lemma StaleUpdate(c: Config, s: State, k: RowKey, before: bytes, now: bytes, ai: Option<string>)
    requires Stale(s, k, before, now) && PrintOf(c, before).Some? && PrintOf(c, before) != PrintOf(c, now)
    ensures var t := AfterUpdate(c, s, 0, ai, Done);
            && t.objects == s.objects && k in t.rows && t.rows[k].status == "grouped"
            && t.rows[k].s3Path == s.rows[k].s3Path
            && t.rows[k].issueID == PrintOf(c, before) && !Printed(c, t.objects, t.rows[k])
  {
    var (row, raw) := s.runs[0].fetched.value;
    UpdatedOf(c, s.rows, row, c.parse(raw).value, ai);
    UpdateWritesOne(c, s, 0, ai, Done, row, raw);
    PrintedIff(c, s.objects, Updated(s.rows, GroupedRow(c, row, c.parse(raw).value, ai)).value);
  }

  /**
   For any two payloads of different fingerprints there is a run, from nothing and with no
   failure, that leaves the row of the event grouped under the fingerprint of the old
   payload, while its path holds the new one.
   */
  lemma StaleUpdatePrintsWrong(env: Env, c: Config, project: string, id: string, before: bytes, after: bytes,
                               now: Instant, ai: Option<string>)
    returns (steps: seq<Step>, k: RowKey)
    requires ValidEventID(id) && '/' !in now.date
    requires PrintOf(c, before).Some? && PrintOf(c, before) != PrintOf(c, after)
    ensures var s := After(env, c, steps);
            && k in s.rows && s.rows[k].status == "grouped" && s.rows[k].issueID == PrintOf(c, before)
            && Lookup(s.objects, s.rows[k].s3Path) == Some(after)
            && !Printed(c, s.objects, s.rows[k])
  {
    var first, key := StaleIsReached(env, c, project, id, before, after, now);
    var s := After(env, c, first);
    StaleUpdate(c, s, key, before, after, ai);
    ProtocolRefinement.AfterMore(env, c, first, Update(0, ai, Done));
    steps, k := first + [Update(0, ai, Done)], key;
  }

  lemma RowsAfterUpdate(c: Config, s: State, n: nat, ai: Option<string>, o: Outcome)
    requires n in s.runs && s.runs[n].fetched.Some?
    ensures var (row, raw), rows := s.runs[n].fetched.value, AfterUpdate(c, s, n, ai, o).rows;
            || rows == s.rows
            || (c.parse(raw).Some?
                && var u := Updated(s.rows, GroupedRow(c, row, c.parse(raw).value, ai));
                u.Some? && rows == s.rows[KeyOf(row) := u.value])
  {}

  lemma UpdatedSpares(c: Config, rows: map<RowKey, Row>, row: Row, ev: SentryEvent, ai: Option<string>, k: RowKey)
    requires k in rows && rows[k].issueID.Some? && Updated(rows, GroupedRow(c, row, ev, ai)).Some?
    ensures KeyOf(row) != k
  {
    assert KeyOf(GroupedRow(c, row, ev, ai)) == KeyOf(row);
  }

  lemma UpdateSpares(c: Config, s: State, n: nat, ai: Option<string>, o: Outcome, k: RowKey)
    requires n in s.runs && s.runs[n].fetched.Some? && k in s.rows && s.rows[k].issueID.Some?
    ensures Lookup(AfterUpdate(c, s, n, ai, o).rows, k) == Some(s.rows[k])
  {
    RowsAfterUpdate(c, s, n, ai, o);
    var (row, raw) := s.runs[n].fetched.value;
    if AfterUpdate(c, s, n, ai, o).rows != s.rows {
      UpdatedSpares(c, s.rows, row, c.parse(raw).value, ai, k);
    }
  }

  lemma OthersSpareRows(env: Env, c: Config, s: State, e: Step)
    requires Enabled(s, e) && !e.PutRow? && !e.Update?
    ensures Next(env, c, s, e).rows == s.rows
  {}

  /** It stays like that: only putting the row once more changes a row that has an issue id. */
  lemma IssueIDsStay(env: Env, c: Config, s: State, e: Step, k: RowKey)
    requires Enabled(s, e) && !e.PutRow?
    requires k in s.rows && s.rows[k].issueID.Some?
    ensures Lookup(Next(env, c, s, e).rows, k) == Some(s.rows[k])
  {
    if e.Update? {
      UpdateSpares(c, s, e.run, e.ai, e.outcome, k);
    } else {
      OthersSpareRows(env, c, s, e);
    }
  }
}
