/** What issue ids say: which events share one, over single events, runs and whole histories. */
module IssueIDs {
  import opened Base
  import opened Text
  import opened Persist
  import opened Fingerprint
  import opened Grouping
  import opened Processor
  import P = ProtocolFingerprints
  import Protocol

  // ---------------------------------------------------------------- alike events

  predicate SameLetters(lower: Lower, a: string, b: string) {
    |a| == |b| && forall i | 0 <= i < |a| :: lower(a[i]) == lower(b[i])
  }

  /** The same text but for case and surrounding blanks. */
  ghost predicate SameText(lower: Lower, s: string, t: string) {
    exists a, b :: IsCore(a, s) && IsCore(b, t) && SameLetters(lower, a, b)
  }

  lemma NormalizeIff(lower: Lower, s: string, t: string)
    ensures Normalize(lower, s) == Normalize(lower, t) <==> SameText(lower, s, t)
  {
    TrimIff(s, Trim(s));
    TrimIff(t, Trim(t));
    LoweredIff(lower, Trim(s), Trim(t));
    if SameText(lower, s, t) {
      var a, b :| IsCore(a, s) && IsCore(b, t) && SameLetters(lower, a, b);
      TrimIff(s, a);
      TrimIff(t, b);
    }
  }

  function Lowered(lower: Lower, t: string): string {
    seq(|t|, i requires 0 <= i < |t| => lower(t[i]))
  }

  lemma LoweredIff(lower: Lower, a: string, b: string)
    ensures Lowered(lower, a) == Lowered(lower, b) <==> SameLetters(lower, a, b)
  {
    if Lowered(lower, a) == Lowered(lower, b) {
      assert |Lowered(lower, a)| == |a| && |Lowered(lower, b)| == |b|;
      forall i | 0 <= i < |a|
        ensures lower(a[i]) == lower(b[i])
      {
        assert Lowered(lower, a)[i] == Lowered(lower, b)[i];
      }
    }
  }

  ghost predicate SameFrame(lower: Lower, f: Frame, g: Frame) {
    SameText(lower, f.file, g.file) && SameText(lower, f.function_, g.function_) && f.lineno == g.lineno
  }

  /** The same exception, raised at the same place: of the stack only the first frame counts. */
  ghost predicate SameException(lower: Lower, v: ExceptionValue, u: ExceptionValue) {
    && SameText(lower, v.kind, u.kind) && SameText(lower, v.value, u.value)
    && if v.frames == [] || u.frames == [] then v.frames == u.frames else SameFrame(lower, v.frames[0], u.frames[0])
  }

  /** The same crash: of the exceptions only the first counts, and the message only if there is none. */
  ghost predicate SameCrash(lower: Lower, a: SentryEvent, b: SentryEvent) {
    && SameText(lower, a.platform, b.platform)
    && if a.values == [] || b.values == [] then a.values == b.values && SameText(lower, a.message, b.message)
       else SameException(lower, a.values[0], b.values[0])
  }

  lemma FrameIff(lower: Lower, f: Frame, g: Frame)
    ensures SameFrame(lower, f, g) <==>
            && Normalize(lower, f.file) == Normalize(lower, g.file)
            && Normalize(lower, f.function_) == Normalize(lower, g.function_) && f.lineno == g.lineno
  {
    NormalizeIff(lower, f.file, g.file);
    NormalizeIff(lower, f.function_, g.function_);
  }

  /** Groups are the classes of the same crash. */
  lemma GroupIff(lower: Lower, a: SentryEvent, b: SentryEvent)
    ensures GroupOf(lower, a) == GroupOf(lower, b) <==> SameCrash(lower, a, b)
  {
    NormalizeIff(lower, a.platform, b.platform);
    NormalizeIff(lower, a.message, b.message);
    if a.values != [] && b.values != [] {
      var v, u := a.values[0], b.values[0];
      NormalizeIff(lower, v.kind, u.kind);
      NormalizeIff(lower, v.value, u.value);
      if v.frames != [] && u.frames != [] {
        FrameIff(lower, v.frames[0], u.frames[0]);
      }
    }
  }

  // ---------------------------------------------------------------- issue ids of events

  ghost predicate Injective(digest: Digest) {
    forall s, t | digest(s) == digest(t) :: s == t
  }

  /** Two events with bars in some fields only. */
  ghost predicate BarsIn(lower: Lower, fs: set<Field>, a: SentryEvent, b: SentryEvent) {
    BarsOnlyIn(GroupOf(lower, a), fs) && BarsOnlyIn(GroupOf(lower, b), fs)
  }

  /** The same crash has one issue id, whatever the digest is. */
  lemma SameCrashSameIssue(digest: Digest, lower: Lower, a: SentryEvent, b: SentryEvent)
    requires SameCrash(lower, a, b)
    ensures IssueID(digest, lower, a) == IssueID(digest, lower, b)
  {
    GroupIff(lower, a, b);
    TextJoinsFields(lower, a);
    TextJoinsFields(lower, b);
  }

  /** If bars stay in one field, and not in the platform or the message, one issue id means the same crash. */
  lemma IssueIff(digest: Digest, lower: Lower, fs: set<Field>, a: SentryEvent, b: SentryEvent)
    requires Injective(digest) && AtMostOne(fs) && BarsIn(lower, fs, a, b)
    ensures IssueID(digest, lower, a) == IssueID(digest, lower, b) <==> SameCrash(lower, a, b)
  {
    if IssueID(digest, lower, a) == IssueID(digest, lower, b) {
      ExactIff(fs);
      ExactTellsApart(lower, fs);
      assert HashedText(lower, a) == HashedText(lower, b);
      GroupIff(lower, a, b);
    }
    if SameCrash(lower, a, b) {
      SameCrashSameIssue(digest, lower, a, b);
    }
  }

  /** Issue ids are those of crashes for events with bars in `fs` only. */
  ghost predicate IssuesAreCrashes(digest: Digest, lower: Lower, fs: set<Field>) {
    forall a, b | BarsIn(lower, fs, a, b) ::
      IssueID(digest, lower, a) == IssueID(digest, lower, b) <==> SameCrash(lower, a, b)
  }

  /** Of all sets of fields, these are the only ones for which that holds. */
  lemma IssuesAreCrashesIff(digest: Digest, lower: Lower, fs: set<Field>)
    requires Injective(digest) && Keeps(lower)
    ensures IssuesAreCrashes(digest, lower, fs) <==> AtMostOne(fs)
  {
    if AtMostOne(fs) {
      forall a, b | BarsIn(lower, fs, a, b)
        ensures IssueID(digest, lower, a) == IssueID(digest, lower, b) <==> SameCrash(lower, a, b)
      {
        IssueIff(digest, lower, fs, a, b);
      }
    } else {
      var a, b := EventsCollide(lower, fs);
      GroupIff(lower, a, b);
      assert BarsIn(lower, fs, a, b);
    }
  }

  // ---------------------------------------------------------------- issue ids of rows

  /** Two rows with issue ids that are the fingerprints of their payloads. */
  lemma PrintedIssues(c: Config, objects: map<string, bytes>, row1: Row, row2: Row, fs: set<Field>)
    requires P.Printed(c, objects, row1) && P.Printed(c, objects, row2) && row1.issueID.Some? && row2.issueID.Some?
    requires Injective(c.digest) && AtMostOne(fs)
    requires BarsIn(c.lower, fs, EventAt(c, objects, row1.s3Path).value, EventAt(c, objects, row2.s3Path).value)
    ensures row1.issueID == row2.issueID <==>
            SameCrash(c.lower, EventAt(c, objects, row1.s3Path).value, EventAt(c, objects, row2.s3Path).value)
  {
    IssueIff(c.digest, c.lower, fs, EventAt(c, objects, row1.s3Path).value, EventAt(c, objects, row2.s3Path).value);
  }

  /** Of two rows that a run groups, payloads of the same crash get one issue id, and no others do. */
  lemma RunGroupsCrashes(c: Config, objects: map<string, bytes>, rows: map<RowKey, Row>, batch: seq<Row>, w: RunWeather,
                         i: nat, j: nat, fs: set<Field>)
    requires IsScan(rows, batch) && i < |batch| && j < |batch|
    requires Fates(c, objects, rows, batch, w)[i] == Grouped && Fates(c, objects, rows, batch, w)[j] == Grouped
    ensures Groupable(c, objects, batch[i]) && Groupable(c, objects, batch[j])
    ensures var after := AfterRun(c, objects, rows, batch, w);
            var a, b := EventAt(c, objects, batch[i].s3Path).value, EventAt(c, objects, batch[j].s3Path).value;
            && KeyOf(batch[i]) in after && KeyOf(batch[j]) in after
            && (Injective(c.digest) && AtMostOne(fs) && BarsIn(c.lower, fs, a, b) ==>
                  (after[KeyOf(batch[i])].issueID == after[KeyOf(batch[j])].issueID <==> SameCrash(c.lower, a, b)))
  {
    FateExplains(c, objects, rows, batch, w, i);
    FateExplains(c, objects, rows, batch, w, j);
    var a, b := EventAt(c, objects, batch[i].s3Path).value, EventAt(c, objects, batch[j].s3Path).value;
    if Injective(c.digest) && AtMostOne(fs) && BarsIn(c.lower, fs, a, b) {
      IssueIff(c.digest, c.lower, fs, a, b);
    }
  }

  /**
   In every reachable state, if event ids keep their items, rows with issue ids share one
   exactly if their payloads are the same crash, whenever and by which runs they were grouped.
   */
  lemma ReachableIssues(env: Env, c: Config, cat: P.Catalog, steps: seq<Protocol.Step>, k1: RowKey, k2: RowKey,
                        fs: set<Field>)
    requires P.AllAgree(env, cat, steps) && Injective(c.digest) && AtMostOne(fs)
    requires var s := Protocol.After(env, c, steps);
             k1 in s.rows && k2 in s.rows && s.rows[k1].issueID.Some? && s.rows[k2].issueID.Some?
    ensures var s := Protocol.After(env, c, steps);
            var e1, e2 := EventAt(c, s.objects, s.rows[k1].s3Path), EventAt(c, s.objects, s.rows[k2].s3Path);
            && e1.Some? && e2.Some?
            && (BarsIn(c.lower, fs, e1.value, e2.value) ==>
                  (s.rows[k1].issueID == s.rows[k2].issueID <==> SameCrash(c.lower, e1.value, e2.value)))
  {
    P.AlwaysPrinted(env, c, cat, steps);
    var s := Protocol.After(env, c, steps);
    assert P.Printed(c, s.objects, s.rows[k1]) && P.Printed(c, s.objects, s.rows[k2]);
    var e1, e2 := EventAt(c, s.objects, s.rows[k1].s3Path), EventAt(c, s.objects, s.rows[k2].s3Path);
    if BarsIn(c.lower, fs, e1.value, e2.value) {
      PrintedIssues(c, s.objects, s.rows[k1], s.rows[k2], fs);
    }
  }

  // ---------------------------------------------------------------- summaries

  /** The summary without AI: type and value of the first exception, or the message, blanks around both cut off. */
  lemma SummarySays(ev: SentryEvent)
    ensures ev.values != [] ==>
              var v := ev.values[0];
              if Blank(v.value) then Summary(ev) == v.kind
              else exists core :: IsCore(core, v.value) && Summary(ev) == v.kind + ": " + core
    ensures ev.values == [] ==>
              if Blank(ev.message) then Summary(ev) == "unknown error" else IsCore(Summary(ev), ev.message)
  {
    if ev.values != [] {
      BlankIff(ev.values[0].value);
      TrimIff(ev.values[0].value, Trim(ev.values[0].value));
    } else {
      BlankIff(ev.message);
      TrimIff(ev.message, Trim(ev.message));
    }
  }

  lemma BlankIff(s: string)
    ensures Blank(s) <==> Trim(s) == ""
  {
    TrimIff(s, "");
    if Blank(s) {
      assert Around(s, "", "", s);
    }
    if IsCore("", s) {
      var l, r :| Around(l, "", r, s);
      assert s == l + r;
    }
  }

  /** A grouped row is summed up by the AI if there is one and it answers. */
  lemma GroupedSummary(c: Config, objects: map<string, bytes>, rows: map<RowKey, Row>, batch: seq<Row>, w: RunWeather,
                       i: nat)
    requires IsScan(rows, batch) && i < |batch| && Fates(c, objects, rows, batch, w)[i] == Grouped
    ensures Groupable(c, objects, batch[i])
    ensures var now := Lookup(AfterRun(c, objects, rows, batch, w), KeyOf(batch[i]));
            now.Some? && now.value.summary
                         == if c.hasAI && w.ai(i).Some? then w.ai(i)
                            else Some(Summary(EventAt(c, objects, batch[i].s3Path).value))
  {
    FateExplains(c, objects, rows, batch, w, i);
    RowAfterRun(c, objects, rows, batch, w, i);
    assert batch[i] in batch;
  }
}
