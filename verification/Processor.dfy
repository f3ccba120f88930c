/**
 One scheduled run of the processor: it scans for event rows not grouped yet, computes the
 issue id of each from its archived payload, and updates the row if it has none.
 */
module Processor {
  import opened Base
  import opened Persist
  import opened WriteLog
  import opened Fingerprint

  /** JSON decoding of events, and what their fingerprint depends on. */
  datatype Config = Config(parse: bytes -> Option<SentryEvent>, lower: Lower, digest: Digest, hasAI: bool)

  /** The outcomes of a run: fetch, AI summary and update for each scanned row. */
  datatype RunWeather = RunWeather(fetches: nat -> bool, ai: nat -> Option<string>, updates: nat -> Outcome)

  /** No fetch and no update fails. */
  ghost predicate Fair(w: RunWeather) {
    forall i: nat :: w.fetches(i) && w.updates(i).Done?
  }

  function KeyOf(row: Row): RowKey {
    (row.projectID, row.eventID)
  }

  /** What a scan selects. */
  predicate Waiting(row: Row) {
    row.itemType == "event" && row.status == "received"
  }

  // ---------------------------------------------------------------- one row

  /** The scanned row as it is sent to the update. */
  function GroupedRow(c: Config, row: Row, ev: SentryEvent, ai: Option<string>): Row {
    var summary := if c.hasAI && ai.Some? then ai.value else Summary(ev);
    row.(issueID := Some(IssueID(c.digest, c.lower, ev)), summary := Some(summary), status := "grouped")
  }

  /** A row with nothing but its key, as an update of a missing row would start from. */
  function BlankRow(row: Row): Row {
    Row(row.projectID, row.eventID, "", "", "", "", 0, "", "", None, None, None)
  }

  /** The conditional update: status, issue id and summary are set unless there is an issue id. */
  function Updated(rows: map<RowKey, Row>, row: Row): Option<Row> {
    var stored := if KeyOf(row) in rows then rows[KeyOf(row)] else BlankRow(row);
    if stored.issueID.Some? then None
    else Some(stored.(status := row.status, issueID := row.issueID, summary := row.summary))
  }

  /** The event in the archive at the path of a row, if it is there and decodes. */
  function EventAt(c: Config, objects: map<string, bytes>, path: string): Option<SentryEvent> {
    if path in objects then c.parse(objects[path]) else None
  }

  /** What becomes of scanned row `i`. */
  datatype Fate = Unfetched | Unparsed | NotUpdated | Grouped

  function FateOf(c: Config, objects: map<string, bytes>, rows: map<RowKey, Row>, row: Row, w: RunWeather, i: nat): Fate {
    if !w.fetches(i) || row.s3Path !in objects then Unfetched
    else if c.parse(objects[row.s3Path]) == None then Unparsed
    else if Updated(rows, row) == None || !w.updates(i).Done? then NotUpdated
    else Grouped
  }

  /** What scanned row `i` writes to the index, when `rows` were there before the run. */
  function RunWrite(c: Config, objects: map<string, bytes>, rows: map<RowKey, Row>, row: Row, w: RunWeather, i: nat)
    : Write<RowKey, Row>
  {
    var ev := EventAt(c, objects, row.s3Path);
    if !w.fetches(i) || ev == None || w.updates(i).Failed? then None
    else
      var updated := Updated(rows, GroupedRow(c, row, ev.value, w.ai(i)));
      if updated == None then None else Some((KeyOf(row), updated.value))
  }

  function RunLog(c: Config, objects: map<string, bytes>, rows: map<RowKey, Row>, batch: seq<Row>, w: RunWeather)
    : seq<Write<RowKey, Row>>
  {
    seq(|batch|, i requires 0 <= i < |batch| => RunWrite(c, objects, rows, batch[i], w, i))
  }

  // ---------------------------------------------------------------- as it runs

  /** No key twice. */
  ghost predicate DistinctKeys(batch: seq<Row>) {
    forall i, j | 0 <= i < j < |batch| :: KeyOf(batch[i]) != KeyOf(batch[j])
  }

  /** Every row is stored under its own key. */
  ghost predicate Keyed(rows: map<RowKey, Row>) {
    forall k | k in rows :: KeyOf(rows[k]) == k
  }

  /** `batch` is the waiting rows, in any order. */
  ghost predicate IsScan(rows: map<RowKey, Row>, batch: seq<Row>) {
    && DistinctKeys(batch)
    && (forall row | row in batch :: Waiting(row) && KeyOf(row) in rows && rows[KeyOf(row)] == row)
    && forall k | k in rows && Waiting(rows[k]) :: rows[k] in batch
  }

  /** `batch` is the waiting rows among those whose keys are not in `todo`. */
  ghost predicate ScannedBut(rows: map<RowKey, Row>, todo: set<RowKey>, batch: seq<Row>) {
    && todo <= rows.Keys && DistinctKeys(batch)
    && (forall row | row in batch :: Waiting(row) && KeyOf(row) in rows - todo && rows[KeyOf(row)] == row)
    && forall k | k in rows - todo && Waiting(rows[k]) :: rows[k] in batch
  }

  lemma ScanOne(rows: map<RowKey, Row>, todo: set<RowKey>, batch: seq<Row>, k: RowKey)
    requires Keyed(rows) && ScannedBut(rows, todo, batch) && k in todo
    ensures ScannedBut(rows, todo - {k}, if Waiting(rows[k]) then batch + [rows[k]] else batch)
  {}

  /** One page of the scan: it evaluates some of the rows that are left, at least one if there are any. */
  method ScanPage(index: Index, todo: set<RowKey>, ghost before: seq<Row>) returns (items: seq<Row>, rest: set<RowKey>)
    requires Keyed(index.rows) && ScannedBut(index.rows, todo, before)
    ensures ScannedBut(index.rows, rest, before + items)
    ensures rest <= todo && (todo != {} ==> rest < todo)
  {
    items, rest := [], todo;
    assert before + [] == before;
    var full := false;
    while rest != {} && !full
      invariant rest <= todo && ScannedBut(index.rows, rest, before + items)
      invariant full ==> rest < todo
      decreases rest
    {
      var k :| k in rest;
      ScanOne(index.rows, rest, before + items, k);
      if Waiting(index.rows[k]) {
        assert before + items + [index.rows[k]] == before + (items + [index.rows[k]]);
        items := items + [index.rows[k]];
      }
      rest := rest - {k};
      full := *;
    }
  }

  /** All pages; one may announce another although no row is left. */
  method Scan(index: Index) returns (batch: seq<Row>)
    requires Keyed(index.rows)
    ensures IsScan(index.rows, batch)
  {
    batch := [];
    var todo, more := index.rows.Keys, true;
    while more
      invariant ScannedBut(index.rows, todo, batch) && (todo != {} ==> more)
      decreases todo, more
    {
      var items, rest := ScanPage(index, todo, batch);
      var announced: bool := *;
      more := rest != {} || (todo != {} && announced);
      batch, todo := batch + items, rest;
    }
  }

  /** The update of one row; a failed condition is an error like any other. */
  method Update(index: Index, row: Row, outcome: Outcome) returns (ok: bool)
    modifies index
    ensures ok <==> Updated(old(index.rows), row).Some? && outcome.Done?
    ensures index.rows == if Updated(old(index.rows), row) == None || outcome.Failed? then old(index.rows)
                          else old(index.rows)[KeyOf(row) := Updated(old(index.rows), row).value]
  {
    var updated := Updated(index.rows, row);
    if updated.Some? && !outcome.Failed? {
      index.rows := index.rows[KeyOf(row) := updated.value];
    }
    ok := updated.Some? && outcome.Done?;
  }

  /** One turn of the run's loop. */
  method ProcessRow(c: Config, arch: Archive, index: Index, row: Row, w: RunWeather, i: nat) returns (fate: Fate)
    modifies index
    ensures fate == FateOf(c, arch.objects, old(index.rows), row, w, i)
    ensures index.rows == Put(old(index.rows), RunWrite(c, arch.objects, old(index.rows), row, w, i))
  {
    if !w.fetches(i) || row.s3Path !in arch.objects {
      return Unfetched;
    }
    var ev := c.parse(arch.objects[row.s3Path]);
    if ev == None {
      return Unparsed;
    }
    var ok := Update(index, GroupedRow(c, row, ev.value, w.ai(i)), w.updates(i));
    fate := if ok then Grouped else NotUpdated;
  }

  function Fates(c: Config, objects: map<string, bytes>, rows: map<RowKey, Row>, batch: seq<Row>, w: RunWeather)
    : seq<Fate>
  {
    seq(|batch|, i requires 0 <= i < |batch| => FateOf(c, objects, rows, batch[i], w, i))
  }

  function CountFate(fates: seq<Fate>, f: Fate, n: nat): nat
    requires n <= |fates|
  {
    if n == 0 then 0 else CountFate(fates, f, n - 1) + if fates[n - 1] == f then 1 else 0
  }

  /** The rows written so far are others than row `i`'s: its update sees what was there before the run. */
  lemma RowStillThere(c: Config, objects: map<string, bytes>, rows: map<RowKey, Row>, batch: seq<Row>, w: RunWeather, i: nat)
    requires DistinctKeys(batch) && i < |batch|
    ensures Lookup(Apply(rows, RunLog(c, objects, rows, batch, w), i), KeyOf(batch[i])) == Lookup(rows, KeyOf(batch[i]))
  {
    ApplySpares(rows, RunLog(c, objects, rows, batch, w), i, KeyOf(batch[i]));
  }

  lemma UpdateSees(c: Config, objects: map<string, bytes>, r1: map<RowKey, Row>, r2: map<RowKey, Row>, row: Row, w: RunWeather, i: nat)
    requires Lookup(r1, KeyOf(row)) == Lookup(r2, KeyOf(row))
    ensures RunWrite(c, objects, r1, row, w, i) == RunWrite(c, objects, r2, row, w, i)
    ensures FateOf(c, objects, r1, row, w, i) == FateOf(c, objects, r2, row, w, i)
  {}

  /** The turn of row `i` against the index as the turns before it left it. */
  lemma TurnStep(c: Config, objects: map<string, bytes>, rows: map<RowKey, Row>, batch: seq<Row>, w: RunWeather, i: nat)
    requires DistinctKeys(batch) && i < |batch|
    ensures var log := RunLog(c, objects, rows, batch, w);
            var now := Apply(rows, log, i);
            && Put(now, RunWrite(c, objects, now, batch[i], w, i)) == Apply(rows, log, i + 1)
            && FateOf(c, objects, now, batch[i], w, i) == Fates(c, objects, rows, batch, w)[i]
  {
    RowStillThere(c, objects, rows, batch, w, i);
    UpdateSees(c, objects, rows, Apply(rows, RunLog(c, objects, rows, batch, w), i), batch[i], w, i);
  }

  /** The loop over the scanned rows. */
  method ProcessBatch(c: Config, arch: Archive, index: Index, batch: seq<Row>, w: RunWeather) returns (grouped: nat)
    requires DistinctKeys(batch)
    modifies index
    ensures index.rows == Apply(old(index.rows), RunLog(c, arch.objects, old(index.rows), batch, w), |batch|)
    ensures grouped == CountFate(Fates(c, arch.objects, old(index.rows), batch, w), Grouped, |batch|)
  {
    grouped := 0;
    ghost var objects, rows := arch.objects, index.rows;
    ghost var log, fates := RunLog(c, objects, rows, batch, w), Fates(c, objects, rows, batch, w);
    for i := 0 to |batch|
      invariant arch.objects == objects
      invariant index.rows == Apply(rows, log, i) && grouped == CountFate(fates, Grouped, i)
    {
      TurnStep(c, objects, rows, batch, w, i);
      var fate := ProcessRow(c, arch, index, batch[i], w, i);
      if fate == Grouped {
        grouped := grouped + 1;
      }
    }
  }

  // ---------------------------------------------------------------- main results

  /** Every scanned row is grouped or skipped for one of three reasons. */
  lemma {:induction false} FatesAddUp(fates: seq<Fate>, n: nat)
    requires n <= |fates|
    ensures n == CountFate(fates, Grouped, n) + CountFate(fates, Unfetched, n)
                 + CountFate(fates, Unparsed, n) + CountFate(fates, NotUpdated, n)
  {
    if n > 0 {
      FatesAddUp(fates, n - 1);
    }
  }

  /** A row whose archived payload is there and decodes. */
  predicate Groupable(c: Config, objects: map<string, bytes>, row: Row) {
    Waiting(row) && EventAt(c, objects, row.s3Path).Some?
  }

  /** `now` is `row` with the fingerprint of its payload, and nothing else but status and summary changed. */
  ghost predicate IsGrouped(c: Config, objects: map<string, bytes>, row: Row, now: Row)
    requires Groupable(c, objects, row)
  {
    && now == row.(status := "grouped", summary := now.summary,
              issueID := Some(IssueID(c.digest, c.lower, EventAt(c, objects, row.s3Path).value)))
    && now.summary.Some?
  }

  /** A row that a run wrote, and no other turn did, is what its own turn made of it. */
  lemma RowAfterRun(c: Config, objects: map<string, bytes>, rows: map<RowKey, Row>, batch: seq<Row>, w: RunWeather, i: nat)
    requires IsScan(rows, batch) && i < |batch|
    ensures Lookup(AfterRun(c, objects, rows, batch, w), KeyOf(batch[i]))
         == if RunWrite(c, objects, rows, batch[i], w, i) == None then Some(batch[i])
            else Some(RunWrite(c, objects, rows, batch[i], w, i).value.1)
  {
    var log, k := RunLog(c, objects, rows, batch, w), KeyOf(batch[i]);
    assert batch[i] in batch;
    forall j | 0 <= j < |batch| && j != i
      ensures Spares(log[j], k)
    {
      assert KeyOf(batch[if i < j then i else j]) != KeyOf(batch[if i < j then j else i]);
    }
    if RunWrite(c, objects, rows, batch[i], w, i) == None {
      assert Spares(log[i], k);
      ApplySpares(rows, log, |batch|, k);
    } else {
      WriteKey(c, objects, rows, batch[i], w, i);
      ApplyHolds(rows, log, |batch|, i, k, log[i].value.1);
    }
  }

  lemma WriteKey(c: Config, objects: map<string, bytes>, rows: map<RowKey, Row>, row: Row, w: RunWeather, i: nat)
    ensures var write := RunWrite(c, objects, rows, row, w, i); write.Some? ==> write.value.0 == KeyOf(row)
  {}

  /** What the fate of scanned row `i` says about its payload and about the row after the run. */
  ghost predicate Explains(c: Config, objects: map<string, bytes>, fate: Fate, row: Row, now: Option<Row>,
                           fetches: bool, outcome: Outcome)
  {
    match fate
    case Unfetched => (!fetches || row.s3Path !in objects) && now == Some(row)
    case Unparsed => row.s3Path in objects && c.parse(objects[row.s3Path]) == None && now == Some(row)
    case NotUpdated =>
      && Groupable(c, objects, row)
      && if row.issueID.Some? || outcome.Failed? then now == Some(row)
         else outcome.Unacknowledged? && now.Some? && IsGrouped(c, objects, row, now.value)
    case Grouped => Groupable(c, objects, row) && outcome.Done? && now.Some? && IsGrouped(c, objects, row, now.value)
  }

  lemma FateExplains(c: Config, objects: map<string, bytes>, rows: map<RowKey, Row>, batch: seq<Row>, w: RunWeather, i: nat)
    requires IsScan(rows, batch) && i < |batch|
    ensures Explains(c, objects, Fates(c, objects, rows, batch, w)[i], batch[i],
                     Lookup(AfterRun(c, objects, rows, batch, w), KeyOf(batch[i])), w.fetches(i), w.updates(i))
  {
    assert batch[i] in batch;
    RowAfterRun(c, objects, rows, batch, w, i);
  }

  /** A run; without a scan there is none. Every scanned row is grouped or skipped for one of three reasons. */
  method HandleRun(c: Config, arch: Archive, index: Index, scans: bool, w: RunWeather)
    returns (batch: seq<Row>, grouped: nat, ghost fates: seq<Fate>)
    requires Keyed(index.rows)
    modifies index
    ensures !scans ==> batch == [] && grouped == 0 && index.rows == old(index.rows)
    ensures scans ==> IsScan(old(index.rows), batch)
    ensures scans ==> index.rows == AfterRun(c, arch.objects, old(index.rows), batch, w)
    ensures |fates| == |batch| && grouped == CountFate(fates, Grouped, |fates|)
    ensures |batch| == grouped + CountFate(fates, Unfetched, |fates|) + CountFate(fates, Unparsed, |fates|)
                       + CountFate(fates, NotUpdated, |fates|)
    ensures forall i | 0 <= i < |batch| ::
              Explains(c, arch.objects, fates[i], batch[i], Lookup(index.rows, KeyOf(batch[i])), w.fetches(i), w.updates(i))
  {
    if !scans {
      return [], 0, [];
    }
    batch := Scan(index);
    ghost var rows := index.rows;
    grouped := ProcessBatch(c, arch, index, batch, w);
    fates := Fates(c, arch.objects, rows, batch, w);
    FatesAddUp(fates, |fates|);
    forall i | 0 <= i < |batch|
      ensures Explains(c, arch.objects, fates[i], batch[i], Lookup(index.rows, KeyOf(batch[i])), w.fetches(i), w.updates(i))
    {
      FateExplains(c, arch.objects, rows, batch, w, i);
    }
  }

  /** Waiting rows have no issue id yet. */
  ghost predicate Ungrouped(rows: map<RowKey, Row>) {
    forall k | k in rows && Waiting(rows[k]) :: rows[k].issueID == None
  }

  ghost function AfterRun(c: Config, objects: map<string, bytes>, rows: map<RowKey, Row>, batch: seq<Row>, w: RunWeather)
    : map<RowKey, Row>
  {
    Apply(rows, RunLog(c, objects, rows, batch, w), |batch|)
  }

  lemma RunAtKey(c: Config, objects: map<string, bytes>, rows: map<RowKey, Row>, batch: seq<Row>, w: RunWeather, k: RowKey)
    requires Keyed(rows) && IsScan(rows, batch) && Ungrouped(rows) && Fair(w) && k in rows
    ensures var after := AfterRun(c, objects, rows, batch, w);
            && k in after
            && if Groupable(c, objects, rows[k]) then IsGrouped(c, objects, rows[k], after[k]) else after[k] == rows[k]
  {
    var log := RunLog(c, objects, rows, batch, w);
    if Groupable(c, objects, rows[k]) {
      var i :| 0 <= i < |batch| && batch[i] == rows[k];
      forall j | i < j < |batch|
        ensures Spares(log[j], k)
      {
        assert KeyOf(batch[i]) != KeyOf(batch[j]);
      }
      ApplyHolds(rows, log, |batch|, i, k, log[i].value.1);
    } else {
      forall j | 0 <= j < |batch|
        ensures Spares(log[j], k)
      {
        assert batch[j] in batch;
      }
      ApplySpares(rows, log, |batch|, k);
    }
  }

  lemma {:induction false} RunAddsNoKey(c: Config, objects: map<string, bytes>, rows: map<RowKey, Row>, batch: seq<Row>,
                                        w: RunWeather, n: nat)
    requires IsScan(rows, batch) && n <= |batch|
    ensures Apply(rows, RunLog(c, objects, rows, batch, w), n).Keys == rows.Keys
  {
    if n > 0 {
      RunAddsNoKey(c, objects, rows, batch, w, n - 1);
      assert batch[n - 1] in batch;
    }
  }

  /**
   A run in which nothing fails and nobody else writes groups exactly the waiting rows
   whose payload is archived and decodes, and leaves every other row as it was.
   */
  lemma FairRunGroupsAll(c: Config, objects: map<string, bytes>, rows: map<RowKey, Row>, batch: seq<Row>, w: RunWeather)
    requires Keyed(rows) && IsScan(rows, batch) && Ungrouped(rows) && Fair(w)
    ensures var after := AfterRun(c, objects, rows, batch, w);
            && after.Keys == rows.Keys
            && forall k | k in rows ::
                 if Groupable(c, objects, rows[k]) then IsGrouped(c, objects, rows[k], after[k])
                 else after[k] == rows[k]
  {
    RunAddsNoKey(c, objects, rows, batch, w, |batch|);
    forall k | k in rows
      ensures var after := AfterRun(c, objects, rows, batch, w);
              k in after
              && if Groupable(c, objects, rows[k]) then IsGrouped(c, objects, rows[k], after[k]) else after[k] == rows[k]
    {
      RunAtKey(c, objects, rows, batch, w, k);
    }
  }

  lemma {:induction false} NothingToWrite(c: Config, objects: map<string, bytes>, rows: map<RowKey, Row>, batch: seq<Row>,
                                          w: RunWeather, n: nat)
    requires n <= |batch| && forall row | row in batch :: !Groupable(c, objects, row)
    requires forall row | row in batch :: Waiting(row)
    ensures Apply(rows, RunLog(c, objects, rows, batch, w), n) == rows
  {
    if n > 0 {
      NothingToWrite(c, objects, rows, batch, w, n - 1);
      assert batch[n - 1] in batch;
    }
  }

  /** After such a run a second one, whatever fails in it, finds nothing it could change. */
  lemma SecondRunIsIdle(c: Config, objects: map<string, bytes>, rows: map<RowKey, Row>, batch: seq<Row>, w: RunWeather,
                        batch2: seq<Row>, w2: RunWeather)
    requires Keyed(rows) && IsScan(rows, batch) && Ungrouped(rows) && Fair(w)
    requires IsScan(AfterRun(c, objects, rows, batch, w), batch2)
    ensures var after := AfterRun(c, objects, rows, batch, w); AfterRun(c, objects, after, batch2, w2) == after
  {
    FairRunGroupsAll(c, objects, rows, batch, w);
    var after := AfterRun(c, objects, rows, batch, w);
    forall row | row in batch2
      ensures !Groupable(c, objects, row)
    {
      var k := KeyOf(row);
      assert after[k] == row;
    }
    NothingToWrite(c, objects, after, batch2, w2, |batch2|);
  }
}
