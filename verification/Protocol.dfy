/**
 Ingest requests and scheduled processor runs at work on the same archive and index. Every
 single write is a step of its own; the steps of any number of requests and runs interleave
 in any order, any write may fail, and a run works on rows it saw at some earlier moment.
 */
module Protocol {
  import opened Base
  import opened Text
  import opened StorageKeys
  import opened Persist
  import opened Fingerprint
  import opened Processor

  // ---------------------------------------------------------------- states and steps

  /** Where a request is: before its envelope, before the object or the row of an item, done. */
  datatype Pc = AtEnvelope | AtObject(i: nat) | AtRow(i: nat) | Finished

  datatype Job = Job(r: Request, pc: Pc)

  /** A processor run: the rows it saw, and the row and payload it is working on. */
  datatype Run = Run(seen: set<Row>, fetched: Option<(Row, bytes)>)

  datatype State = State(objects: map<string, bytes>, rows: map<RowKey, Row>, jobs: map<nat, Job>, runs: map<nat, Run>)

  const EMPTY := State(map[], map[], map[], map[])

  datatype Step =
    | Arrive(job: nat, r: Request)
    | PutEnvelope(job: nat, outcome: Outcome)
    | PutItem(job: nat, outcome: Outcome)
    | PutRow(job: nat, outcome: Outcome)
    | StartRun(run: nat)
    | See(run: nat, key: RowKey)
    | Fetch(run: nat, row: Row)
    | Update(run: nat, ai: Option<string>, outcome: Outcome)

  function ItemFrom(r: Request, i: nat): Pc {
    if i < |r.items| then AtObject(i) else Finished
  }

  predicate Enabled(s: State, e: Step) {
    match e
    case Arrive(j, r) => j !in s.jobs && '/' !in r.now.date
    case PutEnvelope(j, _) => j in s.jobs && s.jobs[j].pc.AtEnvelope?
    case PutItem(j, _) => j in s.jobs && s.jobs[j].pc.AtObject? && s.jobs[j].pc.i < |s.jobs[j].r.items|
    case PutRow(j, _) => j in s.jobs && s.jobs[j].pc.AtRow? && s.jobs[j].pc.i < |s.jobs[j].r.items|
    case StartRun(n) => n !in s.runs
    case See(n, k) => n in s.runs && k in s.rows && Waiting(s.rows[k])
    case Fetch(n, row) => n in s.runs && row in s.runs[n].seen && row.s3Path in s.objects
    case Update(n, _, _) => n in s.runs && s.runs[n].fetched.Some?
  }

  /** A put, unless it fails. */
  function Stored<K, V>(m: map<K, V>, k: K, v: V, o: Outcome): map<K, V> {
    if o.Failed? then m else m[k := v]
  }

  function AfterPutEnvelope(env: Env, s: State, j: nat, o: Outcome): State
    requires j in s.jobs
  {
    var r := s.jobs[j].r;
    s.(objects := Stored(s.objects, EnvelopeKeyOf(env, r), r.raw, o),
    jobs := s.jobs[j := Job(r, if o.Done? then ItemFrom(r, 0) else Finished)])
  }

  function AfterPutItem(env: Env, s: State, j: nat, i: nat, o: Outcome): State
    requires j in s.jobs && i < |s.jobs[j].r.items|
  {
    var r := s.jobs[j].r;
    s.(objects := Stored(s.objects, ItemKeyOf(env, r, i), r.items[i].payload, o),
    jobs := s.jobs[j := Job(r, if o.Done? then AtRow(i) else ItemFrom(r, i + 1))])
  }

  function AfterPutRow(env: Env, s: State, j: nat, i: nat, o: Outcome): State
    requires j in s.jobs && i < |s.jobs[j].r.items|
  {
    var r := s.jobs[j].r;
    s.(rows := Stored(s.rows, RowKeyOf(env, r, i), RowOf(env, r, i), o),
    jobs := s.jobs[j := Job(r, ItemFrom(r, i + 1))])
  }

  function AfterUpdate(c: Config, s: State, n: nat, ai: Option<string>, o: Outcome): State
    requires n in s.runs && s.runs[n].fetched.Some?
  {
    var (row, raw) := s.runs[n].fetched.value;
    var idle := s.(runs := s.runs[n := s.runs[n].(fetched := None)]);
    var ev := c.parse(raw);
    if ev == None || o.Failed? then idle
    else
      var updated := Updated(s.rows, GroupedRow(c, row, ev.value, ai));
      if updated == None then idle else idle.(rows := s.rows[KeyOf(row) := updated.value])
  }

  function Next(env: Env, c: Config, s: State, e: Step): State
    requires Enabled(s, e)
  {
    match e
    case Arrive(j, r) => s.(jobs := s.jobs[j := Job(r, AtEnvelope)])
    case PutEnvelope(j, o) => AfterPutEnvelope(env, s, j, o)
    case PutItem(j, o) => AfterPutItem(env, s, j, s.jobs[j].pc.i, o)
    case PutRow(j, o) => AfterPutRow(env, s, j, s.jobs[j].pc.i, o)
    case StartRun(n) => s.(runs := s.runs[n := Run({}, None)])
    case See(n, k) => s.(runs := s.runs[n := s.runs[n].(seen := s.runs[n].seen + {s.rows[k]})])
    case Fetch(n, row) => s.(runs := s.runs[n := s.runs[n].(fetched := Some((row, s.objects[row.s3Path])))])
    case Update(n, ai, o) => AfterUpdate(c, s, n, ai, o)
  }

  /** The state after some steps; steps that are not enabled do nothing. */
  function After(env: Env, c: Config, steps: seq<Step>): State {
    if steps == [] then EMPTY
    else
      var s := After(env, c, steps[..|steps| - 1]);
      var e := steps[|steps| - 1];
      if Enabled(s, e) then Next(env, c, s, e) else s
  }

  // ---------------------------------------------------------------- invariant

  /** Which item of which request an object or a row belongs to. */
  datatype Place = Place(project: string, date: string, id: string, i: nat, kind: string)

  predicate ValidPlace(p: Place) {
    '/' !in p.date && ValidEventID(p.id)
  }

  function ObjectKey(p: Place): string {
    ItemKey(p.project, p.date, p.id, p.i, Sanitize(p.kind))
  }

  function FolderKey(p: Place): string {
    EnvelopeKey(p.project, p.date, p.id)
  }

  function PlaceOf(env: Env, r: Request, i: nat): Place
    requires i < |r.items|
  {
    Place(r.project, r.now.date, SafeID(env, r), i, r.items[i].kind)
  }

  /** Every archived item has its envelope archived. */
  ghost predicate EnvelopesFirst(objects: map<string, bytes>) {
    forall p | ValidPlace(p) && ObjectKey(p) in objects :: FolderKey(p) in objects
  }

  /** `row` is the row of the item at `p`. */
  ghost predicate RowAt(row: Row, p: Place) {
    && ValidPlace(p) && row.s3Path == ObjectKey(p)
    && row.projectID == p.project && row.eventID == SortKey(p.id, Sanitize(p.kind), p.i)
  }

  /** A row that points at an archived item, and is grouped exactly when it has an issue id. */
  ghost predicate RowGood(objects: map<string, bytes>, row: Row) {
    && row.s3Path in objects
    && (exists p :: RowAt(row, p))
    && row.status == (if row.issueID.Some? then "grouped" else "received")
  }

  /** What a request has reached so far. */
  ghost predicate JobGood(env: Env, objects: map<string, bytes>, job: Job) {
    && '/' !in job.r.now.date
    && match job.pc
       case AtEnvelope => true
       case AtObject(i) => i < |job.r.items| && EnvelopeKeyOf(env, job.r) in objects
       case AtRow(i) => i < |job.r.items| && EnvelopeKeyOf(env, job.r) in objects && ItemKeyOf(env, job.r, i) in objects
       case Finished => true
  }

  /** A row that a run has seen is good, and a row is still stored under its key. */
  ghost predicate SeenGood(objects: map<string, bytes>, rows: map<RowKey, Row>, row: Row) {
    RowGood(objects, row) && KeyOf(row) in rows
  }

  ghost predicate RunGood(objects: map<string, bytes>, rows: map<RowKey, Row>, run: Run) {
    && (forall row | row in run.seen :: SeenGood(objects, rows, row))
    && (run.fetched.Some? ==> SeenGood(objects, rows, run.fetched.value.0))
  }

  ghost predicate RowsGood(objects: map<string, bytes>, rows: map<RowKey, Row>) {
    Keyed(rows) && forall k | k in rows :: RowGood(objects, rows[k])
  }

  ghost predicate JobsGood(env: Env, objects: map<string, bytes>, jobs: map<nat, Job>) {
    forall j | j in jobs :: JobGood(env, objects, jobs[j])
  }

  ghost predicate RunsGood(objects: map<string, bytes>, rows: map<RowKey, Row>, runs: map<nat, Run>) {
    forall n | n in runs :: RunGood(objects, rows, runs[n])
  }

  ghost predicate Inv(env: Env, s: State) {
    && EnvelopesFirst(s.objects)
    && RowsGood(s.objects, s.rows)
    && JobsGood(env, s.objects, s.jobs)
    && RunsGood(s.objects, s.rows, s.runs)
  }

  // ---------------------------------------------------------------- it is kept

  lemma PlaceUnique(p: Place, q: Place)
    requires ValidPlace(p) && ValidPlace(q) && ObjectKey(p) == ObjectKey(q)
    ensures p.(kind := q.kind) == q && Sanitize(p.kind) == Sanitize(q.kind)
  {
    ItemKeyInjective(p.project, p.date, p.id, p.i, p.kind, q.project, q.date, q.id, q.i, q.kind);
  }

  /** Archive and index only grow: what was good stays good. */
  lemma GrowKeepsGood(env: Env, s: State, objects: map<string, bytes>)
    requires Inv(env, s) && s.objects.Keys <= objects.Keys
    ensures RowsGood(objects, s.rows) && JobsGood(env, objects, s.jobs) && RunsGood(objects, s.rows, s.runs)
  {
    forall k | k in s.rows
      ensures RowGood(objects, s.rows[k])
    {
      assert RowGood(s.objects, s.rows[k]);
    }
    forall j | j in s.jobs
      ensures JobGood(env, objects, s.jobs[j])
    {
      assert JobGood(env, s.objects, s.jobs[j]);
    }
    GrowKeepsRuns(s.objects, objects, s.rows, s.rows, s.runs);
  }

  lemma GrowKeepsRuns(o1: map<string, bytes>, o2: map<string, bytes>, r1: map<RowKey, Row>, r2: map<RowKey, Row>,
                      runs: map<nat, Run>)
    requires o1.Keys <= o2.Keys && r1.Keys <= r2.Keys && RunsGood(o1, r1, runs)
    ensures RunsGood(o2, r2, runs)
  {
    forall n | n in runs
      ensures RunGood(o2, r2, runs[n])
    {
      assert RunGood(o1, r1, runs[n]);
    }
  }

  lemma SetRow(objects: map<string, bytes>, rows: map<RowKey, Row>, row: Row)
    requires RowsGood(objects, rows) && RowGood(objects, row)
    ensures RowsGood(objects, rows[KeyOf(row) := row])
  {}

  lemma SetJob(env: Env, objects: map<string, bytes>, jobs: map<nat, Job>, j: nat, job: Job)
    requires JobsGood(env, objects, jobs) && JobGood(env, objects, job)
    ensures JobsGood(env, objects, jobs[j := job])
  {}

  lemma SetRun(objects: map<string, bytes>, rows: map<RowKey, Row>, runs: map<nat, Run>, n: nat, run: Run)
    requires RunsGood(objects, rows, runs) && RunGood(objects, rows, run)
    ensures RunsGood(objects, rows, runs[n := run])
  {}

  lemma PutItemKeepsFirst(objects: map<string, bytes>, p: Place, data: bytes)
    requires EnvelopesFirst(objects) && ValidPlace(p) && FolderKey(p) in objects
    ensures EnvelopesFirst(objects[ObjectKey(p) := data])
  {
    forall q | ValidPlace(q) && ObjectKey(q) in objects[ObjectKey(p) := data]
      ensures FolderKey(q) in objects[ObjectKey(p) := data]
    {
      if ObjectKey(q) !in objects {
        PlaceUnique(p, q);
      }
    }
  }

  lemma PutEnvelopeKeepsFirst(objects: map<string, bytes>, project: string, date: string, id: string, data: bytes)
    requires EnvelopesFirst(objects) && ValidEventID(id)
    ensures EnvelopesFirst(objects[EnvelopeKey(project, date, id) := data])
  {
    forall q | ValidPlace(q) && ObjectKey(q) in objects[EnvelopeKey(project, date, id) := data]
      ensures FolderKey(q) in objects[EnvelopeKey(project, date, id) := data]
    {
      ItemKeyIsNoEnvelopeKey(q.project, q.date, q.id, q.i, q.kind, project, date, id);
    }
  }

  lemma PutEnvelopeKeeps(env: Env, s: State, j: nat, o: Outcome)
    requires Inv(env, s) && j in s.jobs
    ensures Inv(env, AfterPutEnvelope(env, s, j, o))
  {
    var r, objects := s.jobs[j].r, AfterPutEnvelope(env, s, j, o).objects;
    PutEnvelopeKeepsFirst(s.objects, r.project, r.now.date, SafeID(env, r), r.raw);
    GrowKeepsGood(env, s, objects);
    assert JobGood(env, s.objects, s.jobs[j]);
  }

  lemma PutItemKeeps(env: Env, s: State, j: nat, i: nat, o: Outcome)
    requires Inv(env, s) && j in s.jobs && i < |s.jobs[j].r.items| && s.jobs[j].pc == AtObject(i)
    ensures Inv(env, AfterPutItem(env, s, j, i, o))
  {
    var r, objects := s.jobs[j].r, AfterPutItem(env, s, j, i, o).objects;
    assert JobGood(env, s.objects, s.jobs[j]);
    PutItemKeepsFirst(s.objects, PlaceOf(env, r, i), r.items[i].payload);
    GrowKeepsGood(env, s, objects);
  }

  lemma NewRowGood(env: Env, objects: map<string, bytes>, r: Request, i: nat)
    requires i < |r.items| && '/' !in r.now.date && ItemKeyOf(env, r, i) in objects
    ensures RowGood(objects, RowOf(env, r, i)) && KeyOf(RowOf(env, r, i)) == RowKeyOf(env, r, i)
  {
    assert RowAt(RowOf(env, r, i), PlaceOf(env, r, i));
  }

  lemma PutRowKeeps(env: Env, s: State, j: nat, i: nat, o: Outcome)
    requires Inv(env, s) && j in s.jobs && i < |s.jobs[j].r.items| && s.jobs[j].pc == AtRow(i)
    ensures Inv(env, AfterPutRow(env, s, j, i, o))
  {
    var r, t := s.jobs[j].r, AfterPutRow(env, s, j, i, o);
    assert JobGood(env, s.objects, s.jobs[j]);
    NewRowGood(env, s.objects, r, i);
    SetRow(s.objects, s.rows, RowOf(env, r, i));
    SetJob(env, s.objects, s.jobs, j, t.jobs[j]);
    GrowKeepsRuns(s.objects, s.objects, s.rows, t.rows, s.runs);
  }

  /** The conditional update finds its row, and what it leaves is a good row. */
  lemma UpdatedGood(s: State, row: Row, c: Config, ev: SentryEvent, ai: Option<string>)
    requires RowsGood(s.objects, s.rows) && KeyOf(row) in s.rows
    requires Updated(s.rows, GroupedRow(c, row, ev, ai)).Some?
    ensures var now := Updated(s.rows, GroupedRow(c, row, ev, ai)).value;
            RowGood(s.objects, now) && KeyOf(now) == KeyOf(row)
  {
    var stored := s.rows[KeyOf(row)];
    assert RowGood(s.objects, stored);
    var p :| RowAt(stored, p);
    assert KeyOf(GroupedRow(c, row, ev, ai)) == KeyOf(row);
    assert RowAt(Updated(s.rows, GroupedRow(c, row, ev, ai)).value, p);
  }

  lemma UpdateRowsGood(c: Config, s: State, n: nat, ai: Option<string>, o: Outcome)
    requires n in s.runs && s.runs[n].fetched.Some?
    requires RowsGood(s.objects, s.rows) && KeyOf(s.runs[n].fetched.value.0) in s.rows
    ensures var t := AfterUpdate(c, s, n, ai, o); RowsGood(s.objects, t.rows) && s.rows.Keys <= t.rows.Keys
  {
    var (row, raw) := s.runs[n].fetched.value;
    if AfterUpdate(c, s, n, ai, o).rows != s.rows {
      var ev := c.parse(raw).value;
      UpdatedGood(s, row, c, ev, ai);
      SetRow(s.objects, s.rows, Updated(s.rows, GroupedRow(c, row, ev, ai)).value);
    }
  }

  lemma UpdateShape(c: Config, s: State, n: nat, ai: Option<string>, o: Outcome)
    requires n in s.runs && s.runs[n].fetched.Some?
    ensures var t := AfterUpdate(c, s, n, ai, o);
            t == State(s.objects, t.rows, s.jobs, s.runs[n := s.runs[n].(fetched := None)])
  {}

  lemma SetRowsAndRun(env: Env, s: State, rows: map<RowKey, Row>, n: nat, run: Run)
    requires Inv(env, s) && RowsGood(s.objects, rows) && s.rows.Keys <= rows.Keys && RunGood(s.objects, s.rows, run)
    ensures Inv(env, State(s.objects, rows, s.jobs, s.runs[n := run]))
  {
    SetRun(s.objects, s.rows, s.runs, n, run);
    GrowKeepsRuns(s.objects, s.objects, s.rows, rows, s.runs[n := run]);
  }

  lemma UpdateKeeps(env: Env, c: Config, s: State, n: nat, ai: Option<string>, o: Outcome)
    requires Inv(env, s) && n in s.runs && s.runs[n].fetched.Some?
    ensures Inv(env, AfterUpdate(c, s, n, ai, o))
  {
    assert RunGood(s.objects, s.rows, s.runs[n]);
    UpdateRowsGood(c, s, n, ai, o);
    UpdateShape(c, s, n, ai, o);
    SetRowsAndRun(env, s, AfterUpdate(c, s, n, ai, o).rows, n, s.runs[n].(fetched := None));
  }

  lemma SeenAdd(objects: map<string, bytes>, rows: map<RowKey, Row>, run: Run, row: Row)
    requires RunGood(objects, rows, run) && SeenGood(objects, rows, row)
    ensures RunGood(objects, rows, run.(seen := run.seen + {row}))
  {}

  lemma SeeKeeps(env: Env, c: Config, s: State, n: nat, k: RowKey)
    requires Inv(env, s) && Enabled(s, See(n, k))
    ensures Inv(env, Next(env, c, s, See(n, k)))
  {
    assert RunGood(s.objects, s.rows, s.runs[n]) && SeenGood(s.objects, s.rows, s.rows[k]);
    SeenAdd(s.objects, s.rows, s.runs[n], s.rows[k]);
    SetRun(s.objects, s.rows, s.runs, n, s.runs[n].(seen := s.runs[n].seen + {s.rows[k]}));
  }

  lemma FetchKeeps(env: Env, c: Config, s: State, n: nat, row: Row)
    requires Inv(env, s) && Enabled(s, Fetch(n, row))
    ensures Inv(env, Next(env, c, s, Fetch(n, row)))
  {
    assert RunGood(s.objects, s.rows, s.runs[n]);
    SetRun(s.objects, s.rows, s.runs, n, s.runs[n].(fetched := Some((row, s.objects[row.s3Path]))));
  }

  lemma NextKeeps(env: Env, c: Config, s: State, e: Step)
    requires Inv(env, s) && Enabled(s, e)
    ensures Inv(env, Next(env, c, s, e))
  {
    match e
    case PutEnvelope(j, o) => PutEnvelopeKeeps(env, s, j, o);
    case PutItem(j, o) => PutItemKeeps(env, s, j, s.jobs[j].pc.i, o);
    case PutRow(j, o) => PutRowKeeps(env, s, j, s.jobs[j].pc.i, o);
    case Update(n, ai, o) => UpdateKeeps(env, c, s, n, ai, o);
    case See(n, k) => SeeKeeps(env, c, s, n, k);
    case Fetch(n, row) => FetchKeeps(env, c, s, n, row);
    case Arrive(j, r) => SetJob(env, s.objects, s.jobs, j, Job(r, AtEnvelope));
    case StartRun(n) => SetRun(s.objects, s.rows, s.runs, n, Run({}, None));
  }

  /**
   In every reachable state, whatever was interleaved and whatever failed: every archived
   item has its envelope archived, every row points at an archived item, and a row is
   grouped exactly when it has an issue id.
   */
  lemma {:induction false} AlwaysGood(env: Env, c: Config, steps: seq<Step>)
    ensures Inv(env, After(env, c, steps))
  {
    if steps != [] {
      var before := steps[..|steps| - 1];
      AlwaysGood(env, c, before);
      var s, e := After(env, c, before), steps[|steps| - 1];
      if Enabled(s, e) {
        NextKeeps(env, c, s, e);
      }
    }
  }
}
