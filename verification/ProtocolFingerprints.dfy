/**
 Issue ids in the interleaved protocol: when an event id is always sent with the same items,
 the issue id of a row is at every moment the fingerprint of the payload its path holds.
 */
module ProtocolFingerprints {
  import opened Base
  import opened Text
  import opened StorageKeys
  import opened Persist
  import opened Fingerprint
  import opened Processor
  import opened Protocol

  /** The items that every request for a project and event id carries. */
  type Catalog = (string, string) -> seq<StoredItem>

  ghost predicate Agrees(env: Env, cat: Catalog, r: Request) {
    r.items == cat(r.project, SafeID(env, r))
  }

  /** Every request that arrives carries the items of the catalog. */
  ghost predicate AllAgree(env: Env, cat: Catalog, steps: seq<Step>) {
    forall i | 0 <= i < |steps| && steps[i].Arrive? :: Agrees(env, cat, steps[i].r)
  }

  /** `data` is the catalog's payload for the item at `p`. */
  ghost predicate Holds(cat: Catalog, p: Place, data: bytes) {
    p.i < |cat(p.project, p.id)| && data == cat(p.project, p.id)[p.i].payload
  }

  ghost predicate ObjectsMatch(cat: Catalog, objects: map<string, bytes>) {
    forall p | ValidPlace(p) && ObjectKey(p) in objects :: Holds(cat, p, objects[ObjectKey(p)])
  }

  ghost predicate JobsAgree(env: Env, cat: Catalog, jobs: map<nat, Job>) {
    forall j | j in jobs :: Agrees(env, cat, jobs[j].r)
  }

  /** A payload in a run's hands is still what the row's path holds. */
  ghost predicate Fresh(objects: map<string, bytes>, run: Run) {
    run.fetched.Some? ==>
      && run.fetched.value.0.s3Path in objects
      && objects[run.fetched.value.0.s3Path] == run.fetched.value.1
  }

  ghost predicate RunsFresh(objects: map<string, bytes>, runs: map<nat, Run>) {
    forall n | n in runs :: Fresh(objects, runs[n])
  }

  /** An issue id is the fingerprint of the event that is archived at the path of its row. */
  ghost predicate Printed(c: Config, objects: map<string, bytes>, row: Row) {
    row.issueID.Some? ==>
      && EventAt(c, objects, row.s3Path).Some?
      && row.issueID.value == IssueID(c.digest, c.lower, EventAt(c, objects, row.s3Path).value)
  }

  ghost predicate RowsPrinted(c: Config, objects: map<string, bytes>, rows: map<RowKey, Row>) {
    forall k | k in rows :: Printed(c, objects, rows[k])
  }

  ghost predicate Prints(env: Env, c: Config, cat: Catalog, s: State) {
    && ObjectsMatch(cat, s.objects) && JobsAgree(env, cat, s.jobs)
    && RunsFresh(s.objects, s.runs) && RowsPrinted(c, s.objects, s.rows)
  }

  // ---------------------------------------------------------------- archives

  /** Between archives that match the catalog, no archived item changes. */
  lemma MatchIsStable(cat: Catalog, o1: map<string, bytes>, o2: map<string, bytes>, row: Row)
    requires ObjectsMatch(cat, o1) && ObjectsMatch(cat, o2) && o1.Keys <= o2.Keys && RowGood(o1, row)
    ensures o2[row.s3Path] == o1[row.s3Path]
  {
    var p :| RowAt(row, p);
    assert Holds(cat, p, o1[ObjectKey(p)]) && Holds(cat, p, o2[ObjectKey(p)]);
  }

  lemma PutItemMatches(cat: Catalog, objects: map<string, bytes>, p: Place, data: bytes)
    requires ObjectsMatch(cat, objects) && ValidPlace(p) && Holds(cat, p, data)
    ensures ObjectsMatch(cat, objects[ObjectKey(p) := data])
  {
    forall q | ValidPlace(q) && ObjectKey(q) in objects[ObjectKey(p) := data]
      ensures Holds(cat, q, objects[ObjectKey(p) := data][ObjectKey(q)])
    {
      if ObjectKey(q) == ObjectKey(p) {
        PlaceUnique(p, q);
      } else {
        assert Holds(cat, q, objects[ObjectKey(q)]);
      }
    }
  }

  lemma PutEnvelopeMatches(cat: Catalog, objects: map<string, bytes>, project: string, date: string, id: string, data: bytes)
    requires ObjectsMatch(cat, objects) && ValidEventID(id)
    ensures ObjectsMatch(cat, objects[EnvelopeKey(project, date, id) := data])
  {
    forall q | ValidPlace(q) && ObjectKey(q) in objects[EnvelopeKey(project, date, id) := data]
      ensures Holds(cat, q, objects[EnvelopeKey(project, date, id) := data][ObjectKey(q)])
    {
      ItemKeyIsNoEnvelopeKey(q.project, q.date, q.id, q.i, q.kind, project, date, id);
      assert Holds(cat, q, objects[ObjectKey(q)]);
    }
  }

  /** Rows and runs do not notice when a matching archive grows. */
  lemma GrowKeepsPrints(env: Env, c: Config, cat: Catalog, s: State, objects: map<string, bytes>)
    requires Inv(env, s) && Prints(env, c, cat, s) && s.objects.Keys <= objects.Keys && ObjectsMatch(cat, objects)
    ensures RunsFresh(objects, s.runs) && RowsPrinted(c, objects, s.rows)
  {
    forall n | n in s.runs && s.runs[n].fetched.Some?
      ensures Fresh(objects, s.runs[n])
    {
      assert RunGood(s.objects, s.rows, s.runs[n]) && Fresh(s.objects, s.runs[n]);
      MatchIsStable(cat, s.objects, objects, s.runs[n].fetched.value.0);
    }
    forall k | k in s.rows
      ensures Printed(c, objects, s.rows[k])
    {
      assert RowGood(s.objects, s.rows[k]) && Printed(c, s.objects, s.rows[k]);
      MatchIsStable(cat, s.objects, objects, s.rows[k]);
    }
  }

  // ---------------------------------------------------------------- steps

  lemma PutEnvelopeKeepsPrints(env: Env, c: Config, cat: Catalog, s: State, j: nat, o: Outcome)
    requires Inv(env, s) && Prints(env, c, cat, s) && j in s.jobs
    ensures Prints(env, c, cat, AfterPutEnvelope(env, s, j, o))
  {
    var r, t := s.jobs[j].r, AfterPutEnvelope(env, s, j, o);
    PutEnvelopeMatches(cat, s.objects, r.project, r.now.date, SafeID(env, r), r.raw);
    GrowKeepsPrints(env, c, cat, s, t.objects);
    SetAgrees(env, cat, s.jobs, j, t.jobs[j]);
  }

  lemma PutItemKeepsPrints(env: Env, c: Config, cat: Catalog, s: State, j: nat, i: nat, o: Outcome)
    requires Inv(env, s) && Prints(env, c, cat, s) && j in s.jobs && i < |s.jobs[j].r.items| && s.jobs[j].pc == AtObject(i)
    ensures Prints(env, c, cat, AfterPutItem(env, s, j, i, o))
  {
    var r, t := s.jobs[j].r, AfterPutItem(env, s, j, i, o);
    assert JobGood(env, s.objects, s.jobs[j]) && Agrees(env, cat, r);
    PutItemMatches(cat, s.objects, PlaceOf(env, r, i), r.items[i].payload);
    GrowKeepsPrints(env, c, cat, s, t.objects);
    SetAgrees(env, cat, s.jobs, j, t.jobs[j]);
  }

  lemma SetPrinted(c: Config, objects: map<string, bytes>, rows: map<RowKey, Row>, k: RowKey, row: Row)
    requires RowsPrinted(c, objects, rows) && Printed(c, objects, row)
    ensures RowsPrinted(c, objects, rows[k := row])
  {}

  lemma PutRowKeepsPrints(env: Env, c: Config, cat: Catalog, s: State, j: nat, i: nat, o: Outcome)
    requires Inv(env, s) && Prints(env, c, cat, s) && j in s.jobs && i < |s.jobs[j].r.items| && s.jobs[j].pc == AtRow(i)
    ensures Prints(env, c, cat, AfterPutRow(env, s, j, i, o))
  {
    SetPrinted(c, s.objects, s.rows, RowKeyOf(env, s.jobs[j].r, i), RowOf(env, s.jobs[j].r, i));
  }

  /** Rows with one key hold one payload, whatever day their items were archived on. */
  lemma SamePayload(cat: Catalog, objects: map<string, bytes>, a: Row, b: Row)
    requires ObjectsMatch(cat, objects) && RowGood(objects, a) && RowGood(objects, b) && KeyOf(a) == KeyOf(b)
    ensures objects[a.s3Path] == objects[b.s3Path]
  {
    var p :| RowAt(a, p);
    var q :| RowAt(b, q);
    SortKeyInjective(p.id, Sanitize(p.kind), p.i, q.id, Sanitize(q.kind), q.i);
    assert Holds(cat, p, objects[ObjectKey(p)]) && Holds(cat, q, objects[ObjectKey(q)]);
  }

  lemma UpdatePrints(c: Config, cat: Catalog, s: State, row: Row, raw: bytes, ai: Option<string>)
    requires ObjectsMatch(cat, s.objects) && RowsGood(s.objects, s.rows) && SeenGood(s.objects, s.rows, row)
    requires s.objects[row.s3Path] == raw && c.parse(raw).Some?
    requires Updated(s.rows, GroupedRow(c, row, c.parse(raw).value, ai)).Some?
    ensures Printed(c, s.objects, Updated(s.rows, GroupedRow(c, row, c.parse(raw).value, ai)).value)
  {
    var stored := s.rows[KeyOf(row)];
    assert RowGood(s.objects, stored) && KeyOf(stored) == KeyOf(row);
    SamePayload(cat, s.objects, row, stored);
    assert KeyOf(GroupedRow(c, row, c.parse(raw).value, ai)) == KeyOf(row);
  }

  lemma UpdateRowsPrinted(c: Config, cat: Catalog, s: State, n: nat, ai: Option<string>, o: Outcome)
    requires n in s.runs && s.runs[n].fetched.Some?
    requires ObjectsMatch(cat, s.objects) && RowsGood(s.objects, s.rows) && RowsPrinted(c, s.objects, s.rows)
    requires RunGood(s.objects, s.rows, s.runs[n]) && Fresh(s.objects, s.runs[n])
    ensures RowsPrinted(c, s.objects, AfterUpdate(c, s, n, ai, o).rows)
  {
    var (row, raw) := s.runs[n].fetched.value;
    if AfterUpdate(c, s, n, ai, o).rows != s.rows {
      UpdatePrints(c, cat, s, row, raw, ai);
      SetPrinted(c, s.objects, s.rows, KeyOf(row), Updated(s.rows, GroupedRow(c, row, c.parse(raw).value, ai)).value);
    }
  }

  lemma SetFresh(objects: map<string, bytes>, runs: map<nat, Run>, n: nat, run: Run)
    requires RunsFresh(objects, runs) && Fresh(objects, run)
    ensures RunsFresh(objects, runs[n := run])
  {}

  lemma UpdateKeepsPrints(env: Env, c: Config, cat: Catalog, s: State, n: nat, ai: Option<string>, o: Outcome)
    requires Inv(env, s) && Prints(env, c, cat, s) && n in s.runs && s.runs[n].fetched.Some?
    ensures Prints(env, c, cat, AfterUpdate(c, s, n, ai, o))
  {
    assert RunGood(s.objects, s.rows, s.runs[n]) && Fresh(s.objects, s.runs[n]);
    UpdateRowsPrinted(c, cat, s, n, ai, o);
    SetFresh(s.objects, s.runs, n, s.runs[n].(fetched := None));
  }

  /** Steps that write nothing to the stores. */
  lemma ReadKeepsPrints(env: Env, c: Config, cat: Catalog, s: State, e: Step)
    requires Prints(env, c, cat, s) && Enabled(s, e) && (e.StartRun? || e.See? || e.Fetch?)
    ensures Prints(env, c, cat, Next(env, c, s, e))
  {
    var run := Next(env, c, s, e).runs[e.run];
    assert !e.StartRun? ==> Fresh(s.objects, s.runs[e.run]);
    SetFresh(s.objects, s.runs, e.run, run);
  }

  lemma NextKeepsPrints(env: Env, c: Config, cat: Catalog, s: State, e: Step)
    requires Inv(env, s) && Prints(env, c, cat, s) && Enabled(s, e) && (e.Arrive? ==> Agrees(env, cat, e.r))
    ensures Prints(env, c, cat, Next(env, c, s, e))
  {
    match e
    case Arrive(j, r) => SetAgrees(env, cat, s.jobs, j, Job(r, AtEnvelope));
    case PutEnvelope(j, o) => PutEnvelopeKeepsPrints(env, c, cat, s, j, o);
    case PutItem(j, o) => PutItemKeepsPrints(env, c, cat, s, j, s.jobs[j].pc.i, o);
    case PutRow(j, o) => PutRowKeepsPrints(env, c, cat, s, j, s.jobs[j].pc.i, o);
    case Update(n, ai, o) => UpdateKeepsPrints(env, c, cat, s, n, ai, o);
    case _ => ReadKeepsPrints(env, c, cat, s, e);
  }

  lemma SetAgrees(env: Env, cat: Catalog, jobs: map<nat, Job>, j: nat, job: Job)
    requires JobsAgree(env, cat, jobs) && Agrees(env, cat, job.r)
    ensures JobsAgree(env, cat, jobs[j := job])
  {}

  /**
   In every reachable state in which event ids are always sent with the same items: the
   issue id of a row is the fingerprint of the payload archived at the row's path.
   */
  lemma {:induction false} AlwaysPrinted(env: Env, c: Config, cat: Catalog, steps: seq<Step>)
    requires AllAgree(env, cat, steps)
    ensures Inv(env, After(env, c, steps)) && Prints(env, c, cat, After(env, c, steps))
  {
    if steps != [] {
      var before := steps[..|steps| - 1];
      AlwaysPrinted(env, c, cat, before);
      var s, e := After(env, c, before), steps[|steps| - 1];
      if Enabled(s, e) {
        NextKeeps(env, c, s, e);
        NextKeepsPrints(env, c, cat, s, e);
      }
    }
  }
}
