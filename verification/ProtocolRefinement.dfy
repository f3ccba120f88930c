/**
 The interleaved protocol against the handlers it is made of: a request whose steps nobody
 interrupts does what persisting it does, and so does a run that works on one row.
 */
module ProtocolRefinement {
  import opened Base
  import opened WriteLog
  import opened Persist
  import opened Fingerprint
  import opened Processor
  import opened Protocol

  /** An enabled step appended to a run. */
  lemma AfterMore(env: Env, c: Config, steps: seq<Step>, e: Step)
    requires Enabled(After(env, c, steps), e)
    ensures After(env, c, steps + [e]) == Next(env, c, After(env, c, steps), e)
  {
    assert (steps + [e])[..|steps|] == steps;
  }

  // ---------------------------------------------------------------- a request alone

  /** Nothing but job `j` and the stores differs. */
  ghost predicate OnlyJob(s: State, t: State, j: nat) {
    t.runs == s.runs && forall k | k != j :: Lookup(t.jobs, k) == Lookup(s.jobs, k)
  }

  /** Both steps of one item, or the first alone if it is not acknowledged. */
  function ItemAlone(env: Env, s: State, j: nat, i: nat, w: Weather): State
    requires j in s.jobs && i < |s.jobs[j].r.items|
  {
    var t := AfterPutItem(env, s, j, i, w.objectPut(i));
    if w.objectPut(i).Done? then AfterPutRow(env, t, j, i, w.rowPut(i)) else t
  }

  /** They are steps of the protocol. */
  lemma ItemAloneIsSteps(env: Env, c: Config, steps: seq<Step>, j: nat, i: nat, w: Weather) returns (more: seq<Step>)
    requires var s := After(env, c, steps);
             j in s.jobs && i < |s.jobs[j].r.items| && s.jobs[j].pc == AtObject(i)
    ensures After(env, c, steps + more) == ItemAlone(env, After(env, c, steps), j, i, w)
  {
    var s, first, second := After(env, c, steps), PutItem(j, w.objectPut(i)), PutRow(j, w.rowPut(i));
    AfterMore(env, c, steps, first);
    more := [first];
    if w.objectPut(i).Done? {
      AfterMore(env, c, steps + [first], second);
      assert steps + [first] + [second] == steps + [first, second];
      more := [first, second];
    }
  }

  /** Job `j` is past the first `i` items of `r`, and the stores hold what these write. */
  ghost predicate Past(env: Env, s: State, j: nat, r: Request, w: Weather, start: Stores, i: nat) {
    && i <= |r.items| && j in s.jobs && s.jobs[j] == Job(r, ItemFrom(r, i))
    && s.objects == Apply(start.objects, ObjectLog(env, r, w), i)
    && s.rows == Apply(start.rows, RowLog(env, r, w), i)
  }

  lemma PutItemWrites(env: Env, s: State, j: nat, i: nat, w: Weather)
    requires j in s.jobs && i < |s.jobs[j].r.items|
    ensures AfterPutItem(env, s, j, i, w.objectPut(i)).objects
         == Put(s.objects, ObjectWrite(env, s.jobs[j].r, w, i))
  {}

  lemma PutRowWrites(env: Env, s: State, j: nat, i: nat, w: Weather)
    requires j in s.jobs && i < |s.jobs[j].r.items| && w.objectPut(i).Done?
    ensures AfterPutRow(env, s, j, i, w.rowPut(i)).rows == Put(s.rows, RowWrite(env, s.jobs[j].r, w, i))
  {}

  lemma ItemAloneWrites(env: Env, s: State, j: nat, w: Weather, i: nat)
    requires j in s.jobs && i < |s.jobs[j].r.items|
    ensures var r, t := s.jobs[j].r, ItemAlone(env, s, j, i, w);
            && j in t.jobs && t.jobs[j] == Job(r, ItemFrom(r, i + 1))
            && t.objects == Put(s.objects, ObjectWrite(env, r, w, i))
            && t.rows == Put(s.rows, RowWrite(env, r, w, i))
  {
    PutItemWrites(env, s, j, i, w);
    var t := AfterPutItem(env, s, j, i, w.objectPut(i));
    if w.objectPut(i).Done? {
      PutRowWrites(env, t, j, i, w);
    } else {
      assert RowWrite(env, s.jobs[j].r, w, i) == None;
    }
  }

  lemma ItemAloneStep(env: Env, s: State, j: nat, r: Request, w: Weather, start: Stores, i: nat)
    requires i < |r.items| && Past(env, s, j, r, w, start, i)
    ensures Past(env, ItemAlone(env, s, j, i, w), j, r, w, start, i + 1)
  {
    ItemAloneWrites(env, s, j, w, i);
    assert ObjectLog(env, r, w)[i] == ObjectWrite(env, r, w, i) && RowLog(env, r, w)[i] == RowWrite(env, r, w, i);
  }

  lemma ItemAloneElsewhere(env: Env, s: State, j: nat, i: nat, w: Weather)
    requires j in s.jobs && i < |s.jobs[j].r.items|
    ensures OnlyJob(s, ItemAlone(env, s, j, i, w), j)
  {}

  lemma ItemAloneRuns(env: Env, c: Config, steps: seq<Step>, j: nat, r: Request, w: Weather, start: Stores, i: nat)
    returns (more: seq<Step>)
    requires i < |r.items| && Past(env, After(env, c, steps), j, r, w, start, i)
    ensures Past(env, After(env, c, steps + more), j, r, w, start, i + 1)
    ensures OnlyJob(After(env, c, steps), After(env, c, steps + more), j)
  {
    ItemAloneStep(env, After(env, c, steps), j, r, w, start, i);
    ItemAloneElsewhere(env, After(env, c, steps), j, i, w);
    more := ItemAloneIsSteps(env, c, steps, j, i, w);
  }

  lemma OnlyJobTwice(s: State, t: State, u: State, j: nat)
    requires OnlyJob(s, t, j) && OnlyJob(t, u, j)
    ensures OnlyJob(s, u, j)
  {}

  lemma Regroup(steps: seq<Step>, a: seq<Step>, b: seq<Step>)
    ensures steps + a + b == steps + (a + b)
  {}

  /** The steps of all items from `i` on, one after the other. */
  lemma {:induction false} ItemsAlone(env: Env, c: Config, steps: seq<Step>, j: nat, r: Request, w: Weather,
                                      start: Stores, i: nat)
    returns (more: seq<Step>)
    requires i <= |r.items| && Past(env, After(env, c, steps), j, r, w, start, i)
    ensures Past(env, After(env, c, steps + more), j, r, w, start, |r.items|)
    ensures OnlyJob(After(env, c, steps), After(env, c, steps + more), j)
    decreases |r.items| - i
  {
    if i == |r.items| {
      more := [];
      assert steps + [] == steps;
    } else {
      var first := ItemAloneRuns(env, c, steps, j, r, w, start, i);
      var rest := ItemsAlone(env, c, steps + first, j, r, w, start, i + 1);
      more := first + rest;
      Regroup(steps, first, rest);
      OnlyJobTwice(After(env, c, steps), After(env, c, steps + first), After(env, c, steps + more), j);
    }
  }

  /** A request arrives and its envelope is put. */
  lemma EnvelopeAlone(env: Env, c: Config, steps: seq<Step>, j: nat, r: Request, w: Weather) returns (more: seq<Step>)
    requires j !in After(env, c, steps).jobs && '/' !in r.now.date
    ensures var s, t := After(env, c, steps), After(env, c, steps + more);
            && t.objects == (if w.envelope.Failed? then s.objects else s.objects[EnvelopeKeyOf(env, r) := r.raw])
            && t.rows == s.rows && OnlyJob(s, t, j)
            && (w.envelope.Done? ==> Past(env, t, j, r, w, Stores(t.objects, t.rows), 0))
  {
    var first, second := Arrive(j, r), PutEnvelope(j, w.envelope);
    AfterMore(env, c, steps, first);
    AfterMore(env, c, steps + [first], second);
    assert steps + [first] + [second] == steps + [first, second];
    more := [first, second];
  }

  lemma PastAllIsPersisted(env: Env, s: State, t: State, j: nat, r: Request, w: Weather)
    requires w.envelope.Done?
    requires Past(env, t, j, r, w, Stores(s.objects[EnvelopeKeyOf(env, r) := r.raw], s.rows), |r.items|)
    ensures Stores(t.objects, t.rows) == Persisted(env, Stores(s.objects, s.rows), r, w).0
  {}

  /**
   Uninterrupted, the steps of a request that arrives after any run leave the stores as
   persisting it does, and everything else as it was.
   */
  lemma RequestAlonePersists(env: Env, c: Config, steps: seq<Step>, j: nat, r: Request, w: Weather)
    returns (more: seq<Step>)
    requires j !in After(env, c, steps).jobs && '/' !in r.now.date
    ensures var s, t := After(env, c, steps), After(env, c, steps + more);
            && Stores(t.objects, t.rows) == Persisted(env, Stores(s.objects, s.rows), r, w).0
            && OnlyJob(s, t, j)
  {
    var s := After(env, c, steps);
    var first := EnvelopeAlone(env, c, steps, j, r, w);
    more := first;
    if w.envelope.Done? {
      var t := After(env, c, steps + first);
      var rest := ItemsAlone(env, c, steps + first, j, r, w, Stores(t.objects, t.rows), 0);
      more := first + rest;
      Regroup(steps, first, rest);
      PastAllIsPersisted(env, s, After(env, c, steps + more), j, r, w);
      OnlyJobTwice(s, t, After(env, c, steps + more), j);
    }
  }

  // ---------------------------------------------------------------- a run alone

  /** Reachable states are fit for a run: waiting rows have no issue id, and their payloads are there. */
  lemma ReachableIsReady(env: Env, c: Config, steps: seq<Step>)
    ensures var s := After(env, c, steps);
            && Keyed(s.rows) && Ungrouped(s.rows)
            && forall k | k in s.rows :: s.rows[k].s3Path in s.objects
  {
    AlwaysGood(env, c, steps);
    var s := After(env, c, steps);
    forall k | k in s.rows
      ensures s.rows[k].s3Path in s.objects
      ensures Waiting(s.rows[k]) ==> s.rows[k].issueID == None
    {
      assert RowGood(s.objects, s.rows[k]);
    }
  }

  /** Nothing but run `n` and the index differs. */
  ghost predicate OnlyRun(s: State, t: State, n: nat) {
    t.objects == s.objects && t.jobs == s.jobs && forall k | k != n :: Lookup(t.runs, k) == Lookup(s.runs, k)
  }

  /** Run `n` has seen the first `i` rows. */
  ghost predicate Sees(t: State, n: nat, batch: seq<Row>, i: nat) {
    i <= |batch| && n in t.runs && forall j | 0 <= j < i :: batch[j] in t.runs[n].seen
  }

  lemma RowSeen(env: Env, c: Config, steps: seq<Step>, n: nat, batch: seq<Row>, i: nat)
    requires var s := After(env, c, steps); IsScan(s.rows, batch) && i < |batch| && Sees(s, n, batch, i)
    ensures var s, t := After(env, c, steps), After(env, c, steps + [See(n, KeyOf(batch[i]))]);
            Sees(t, n, batch, i + 1) && t.rows == s.rows && OnlyRun(s, t, n)
  {
    assert batch[i] in batch;
    AfterMore(env, c, steps, See(n, KeyOf(batch[i])));
  }

  lemma OnlyRunTwice(s: State, t: State, u: State, n: nat)
    requires OnlyRun(s, t, n) && OnlyRun(t, u, n)
    ensures OnlyRun(s, u, n)
  {}

  lemma {:induction false} RowsSeen(env: Env, c: Config, steps: seq<Step>, n: nat, batch: seq<Row>, i: nat)
    returns (more: seq<Step>)
    requires var s := After(env, c, steps); IsScan(s.rows, batch) && Sees(s, n, batch, i)
    ensures var s, t := After(env, c, steps), After(env, c, steps + more);
            Sees(t, n, batch, |batch|) && t.rows == s.rows && OnlyRun(s, t, n)
    decreases |batch| - i
  {
    if i == |batch| {
      more := [];
      assert steps + [] == steps;
    } else {
      var first := [See(n, KeyOf(batch[i]))];
      RowSeen(env, c, steps, n, batch, i);
      var rest := RowsSeen(env, c, steps + first, n, batch, i + 1);
      more := first + rest;
      Regroup(steps, first, rest);
      OnlyRunTwice(After(env, c, steps), After(env, c, steps + first), After(env, c, steps + more), n);
    }
  }

  lemma UpdateWrites(c: Config, s: State, n: nat, row: Row, w: RunWeather, i: nat)
    requires row.s3Path in s.objects && w.fetches(i)
    requires n in s.runs && s.runs[n].fetched == Some((row, s.objects[row.s3Path]))
    ensures AfterUpdate(c, s, n, w.ai(i), w.updates(i)).rows == Put(s.rows, RunWrite(c, s.objects, s.rows, row, w, i))
  {}

  lemma UpdateOnlyRun(c: Config, s: State, n: nat, ai: Option<string>, o: Outcome, batch: seq<Row>, i: nat)
    requires n in s.runs && s.runs[n].fetched.Some? && Sees(s, n, batch, i)
    ensures var t := AfterUpdate(c, s, n, ai, o); OnlyRun(s, t, n) && Sees(t, n, batch, i)
  {}

  lemma RowFetched(env: Env, c: Config, steps: seq<Step>, n: nat, batch: seq<Row>, row: Row)
    requires var s := After(env, c, steps);
             Sees(s, n, batch, |batch|) && row in s.runs[n].seen && row.s3Path in s.objects
    ensures var s, t := After(env, c, steps), After(env, c, steps + [Fetch(n, row)]);
            && Sees(t, n, batch, |batch|) && t.rows == s.rows && OnlyRun(s, t, n)
            && t.runs[n].fetched == Some((row, s.objects[row.s3Path]))
  {
    AfterMore(env, c, steps, Fetch(n, row));
  }

  /** A fetched row is updated as the run's loop does it. */
  lemma RowUpdated(env: Env, c: Config, steps: seq<Step>, n: nat, batch: seq<Row>, row: Row, w: RunWeather, i: nat)
    requires var s := After(env, c, steps);
             && Sees(s, n, batch, |batch|) && row.s3Path in s.objects && w.fetches(i)
             && s.runs[n].fetched == Some((row, s.objects[row.s3Path]))
    ensures var s, t := After(env, c, steps), After(env, c, steps + [Update(n, w.ai(i), w.updates(i))]);
            && Sees(t, n, batch, |batch|) && OnlyRun(s, t, n)
            && t.rows == Put(s.rows, RunWrite(c, s.objects, s.rows, row, w, i))
  {
    var s := After(env, c, steps);
    AfterMore(env, c, steps, Update(n, w.ai(i), w.updates(i)));
    UpdateWrites(c, s, n, row, w, i);
    UpdateOnlyRun(c, s, n, w.ai(i), w.updates(i), batch, |batch|);
  }

  /** One turn of the loop: a payload that is not fetched takes no step. */
  lemma RowTurn(env: Env, c: Config, steps: seq<Step>, n: nat, batch: seq<Row>, w: RunWeather, i: nat)
    returns (more: seq<Step>)
    requires i < |batch|
    requires var s := After(env, c, steps); Sees(s, n, batch, |batch|) && batch[i].s3Path in s.objects
    ensures var s, t := After(env, c, steps), After(env, c, steps + more);
            && Sees(t, n, batch, |batch|) && OnlyRun(s, t, n)
            && t.rows == Put(s.rows, RunWrite(c, s.objects, s.rows, batch[i], w, i))
  {
    var s := After(env, c, steps);
    if w.fetches(i) {
      var fetch, update := [Fetch(n, batch[i])], [Update(n, w.ai(i), w.updates(i))];
      RowFetched(env, c, steps, n, batch, batch[i]);
      RowUpdated(env, c, steps + fetch, n, batch, batch[i], w, i);
      more := fetch + update;
      Regroup(steps, fetch, update);
      OnlyRunTwice(s, After(env, c, steps + fetch), After(env, c, steps + more), n);
    } else {
      more := [];
      assert steps + [] == steps;
    }
  }

  /** The index before, between and after the turns of a run. */
  ghost predicate Turns(c: Config, objects: map<string, bytes>, batch: seq<Row>, w: RunWeather, at: seq<map<RowKey, Row>>) {
    && |at| == |batch| + 1
    && (forall i | 0 <= i < |batch| :: batch[i].s3Path in objects)
    && forall i | 0 <= i < |batch| :: at[i + 1] == Put(at[i], RunWrite(c, objects, at[i], batch[i], w, i))
  }

  lemma LoopTurns(c: Config, objects: map<string, bytes>, rows: map<RowKey, Row>, batch: seq<Row>, w: RunWeather)
    returns (at: seq<map<RowKey, Row>>)
    requires DistinctKeys(batch) && forall row | row in batch :: row.s3Path in objects
    ensures Turns(c, objects, batch, w, at) && at[0] == rows && at[|batch|] == AfterRun(c, objects, rows, batch, w)
  {
    var log := RunLog(c, objects, rows, batch, w);
    at := seq(|batch| + 1, i requires 0 <= i <= |batch| => Apply(rows, log, i));
    forall i | 0 <= i < |batch|
      ensures at[i + 1] == Put(at[i], RunWrite(c, objects, at[i], batch[i], w, i))
    {
      TurnStep(c, objects, rows, batch, w, i);
    }
  }

  /** Since `s`, run `n` has seen all rows, the index has become `rows`, and nothing else has changed. */
  ghost predicate Turned(s: State, t: State, n: nat, batch: seq<Row>, rows: map<RowKey, Row>) {
    Sees(t, n, batch, |batch|) && OnlyRun(s, t, n) && t.rows == rows
  }

  lemma RowTurned(env: Env, c: Config, steps: seq<Step>, n: nat, s: State, batch: seq<Row>, w: RunWeather,
                  at: seq<map<RowKey, Row>>, i: nat)
    returns (more: seq<Step>)
    requires Turns(c, s.objects, batch, w, at) && i < |batch| && Turned(s, After(env, c, steps), n, batch, at[i])
    ensures Turned(s, After(env, c, steps + more), n, batch, at[i + 1])
  {
    more := RowTurn(env, c, steps, n, batch, w, i);
    OnlyRunTwice(s, After(env, c, steps), After(env, c, steps + more), n);
  }

  /** All turns from row `i` on. */
  lemma {:induction false} RowTurns(env: Env, c: Config, steps: seq<Step>, n: nat, s: State, batch: seq<Row>, w: RunWeather,
                                    at: seq<map<RowKey, Row>>, i: nat)
    returns (more: seq<Step>)
    requires Turns(c, s.objects, batch, w, at) && i <= |batch| && Turned(s, After(env, c, steps), n, batch, at[i])
    ensures Turned(s, After(env, c, steps + more), n, batch, at[|batch|])
    decreases |batch| - i
  {
    if i == |batch| {
      more := [];
      assert steps + [] == steps;
    } else {
      var first := RowTurned(env, c, steps, n, s, batch, w, at, i);
      var rest := RowTurns(env, c, steps + first, n, s, batch, w, at, i + 1);
      more := first + rest;
      Regroup(steps, first, rest);
    }
  }

  /** A run starts and sees all waiting rows. */
  lemma RunStarts(env: Env, c: Config, steps: seq<Step>, n: nat, batch: seq<Row>) returns (more: seq<Step>)
    requires var s := After(env, c, steps); n !in s.runs && IsScan(s.rows, batch)
    ensures var s, t := After(env, c, steps), After(env, c, steps + more);
            Sees(t, n, batch, |batch|) && t.rows == s.rows && OnlyRun(s, t, n)
  {
    var first := [StartRun(n)];
    AfterMore(env, c, steps, StartRun(n));
    var rest := RowsSeen(env, c, steps + first, n, batch, 0);
    more := first + rest;
    Regroup(steps, first, rest);
    OnlyRunTwice(After(env, c, steps), After(env, c, steps + first), After(env, c, steps + more), n);
  }

  /**
   Uninterrupted, the steps of a run that starts after any others leave the index as the
   run's loop does, whatever fails in it, and everything else as it was.
   */
  lemma RunAloneProcesses(env: Env, c: Config, steps: seq<Step>, n: nat, batch: seq<Row>, w: RunWeather)
    returns (more: seq<Step>)
    requires var s := After(env, c, steps); n !in s.runs && IsScan(s.rows, batch)
    ensures var s, t := After(env, c, steps), After(env, c, steps + more);
            t.rows == AfterRun(c, s.objects, s.rows, batch, w) && OnlyRun(s, t, n)
  {
    var s := After(env, c, steps);
    ReachableIsReady(env, c, steps);
    var first := RunStarts(env, c, steps, n, batch);
    var at := LoopTurns(c, s.objects, s.rows, batch, w);
    var rest := RowTurns(env, c, steps + first, n, s, batch, w, at, 0);
    more := first + rest;
    Regroup(steps, first, rest);
  }

  /**
   In any reachable state, a run in which nothing fails and nobody else writes groups every
   waiting row whose payload parses, and changes no other row.
   */
  lemma FairRunFromReachable(env: Env, c: Config, steps: seq<Step>, batch: seq<Row>, w: RunWeather, k: RowKey)
    requires var s := After(env, c, steps); IsScan(s.rows, batch) && Fair(w) && k in s.rows
    ensures var s := After(env, c, steps);
            var after := AfterRun(c, s.objects, s.rows, batch, w);
            && s.rows[k].s3Path in s.objects && k in after
            && if Waiting(s.rows[k]) && c.parse(s.objects[s.rows[k].s3Path]).Some?
               then IsGrouped(c, s.objects, s.rows[k], after[k])
               else after[k] == s.rows[k]
  {
    ReachableIsReady(env, c, steps);
    var s := After(env, c, steps);
    RunAtKey(c, s.objects, s.rows, batch, w, k);
  }
}
