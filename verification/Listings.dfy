/** A whole listing: what a query selects, page by page, is what was asked for. */
module Listings {
  import opened Base
  import Text
  import opened QueryPlan
  import opened Paging
  import opened Persist
  import opened StorageKeys
  import Cursor
  import Processor

  predicate AllHold(p: Plan, clauses: seq<Clause>, row: Attributes) {
    forall cl | cl in clauses :: Defined(p, cl) && Holds(p, cl, row)
  }

  /** What the store evaluates: the rows that the key condition selects. */
  function InRange(q: Listing): Attributes -> bool {
    row => AllHold(PlanOf(q), PlanOf(q).keyCondition, row)
  }

  /** What it keeps of them. */
  function Passes(q: Listing): Attributes -> bool {
    row => AllHold(PlanOf(q), PlanOf(q).filter, row)
  }

  function Wanted(q: Listing): Attributes -> bool {
    row => Matches(q, row)
  }

  lemma {:induction false} FilterTwice<R>(rows: seq<Entry<R>>, f: R -> bool, g: R -> bool, h: R -> bool)
    requires forall r | r in rows :: h(r.row) <==> f(r.row) && g(r.row)
    ensures Filtered(Filtered(rows, f), g) == Filtered(rows, h)
  {
    if rows != [] {
      FilterTwice(rows[1..], f, g, h);
      var first := if f(rows[0].row) then [rows[0]] else [];
      FilteredAdds(first, Filtered(rows[1..], f), g);
      assert rows[0] in rows;
    }
  }

  lemma WantedIff(q: Listing, row: Attributes)
    requires !Refused(q)
    ensures Wanted(q)(row) <==> InRange(q)(row) && Passes(q)(row)
  {
    SelectsIff(q, row);
    var p := PlanOf(q);
    assert forall cl | cl in Clauses(p) :: cl in p.keyCondition || cl in p.filter;
    assert forall cl | cl in p.keyCondition || cl in p.filter :: cl in Clauses(p);
  }

  /**
   On a table nobody writes to, following the cursors of a listing to the end returns
   exactly the rows that match it, in key order, each once.
   */
  lemma ListingReturnsMatches(q: Listing, all: seq<Entry<Attributes>>, tables: seq<seq<Entry<Attributes>>>,
                              limits: seq<nat>, pages: seq<Page<Attributes>>)
    requires !Refused(q) && Follows(tables, limits, pages) && Ended(pages)
    requires Static(tables, Filtered(all, InRange(q)))
    ensures Returned(pages, Passes(q)) == Filtered(all, Wanted(q))
  {
    StaticScanReturnsAll(Filtered(all, InRange(q)), tables, limits, pages, Passes(q));
    forall e | e in all
      ensures Wanted(q)(e.row) <==> InRange(q)(e.row) && Passes(q)(e.row)
    {
      WantedIff(q, e.row);
    }
    FilterTwice(all, InRange(q), Passes(q), Wanted(q));
  }

  // ---------------------------------------------------------------- order

  /** Entries are kept in the order of attribute `a` of their rows. */
  ghost predicate KeptBy(all: seq<Entry<Attributes>>, a: string) {
    forall e | e in all ::
      a in e.row && forall f | f in all && a in f.row && Text.Less(e.key, f.key) :: Text.AtMost(e.row[a], f.row[a])
  }

  /** Rows come in the order of attribute `a`. */
  ghost predicate InOrderOf(rows: seq<Entry<Attributes>>, a: string) {
    forall i, j | 0 <= i < j < |rows| ::
      a in rows[i].row && a in rows[j].row && Text.AtMost(rows[i].row[a], rows[j].row[a])
  }

  lemma {:induction false} FilteredSorted<R>(rows: seq<Entry<R>>, keep: R -> bool)
    requires Sorted(rows)
    ensures Sorted(Filtered(rows, keep)) && forall e | e in Filtered(rows, keep) :: e in rows
  {
    if rows != [] {
      var rest := Filtered(rows[1..], keep);
      FilteredSorted(rows[1..], keep);
      forall k | 0 <= k < |rest|
        ensures Text.Less(rows[0].key, rest[k].key)
      {
        assert rest[k] in rest;
        var i :| 0 <= i < |rows[1..]| && rows[1..][i] == rest[k];
        assert rows[i + 1] == rest[k];
      }
    }
  }

  /**
   Without time bounds a listing comes in the order of event ids, with one in the order of
   timestamps: that is how what the plan queries is kept.
   */
  lemma ListingInOrder(q: Listing, all: seq<Entry<Attributes>>, tables: seq<seq<Entry<Attributes>>>,
                       limits: seq<nat>, pages: seq<Page<Attributes>>)
    requires !Refused(q) && Follows(tables, limits, pages) && Ended(pages)
    requires Static(tables, Filtered(all, InRange(q))) && Sorted(all)
    requires KeptBy(all, SchemaOf(PlanOf(q).index).value.range)
    ensures InOrderOf(Returned(pages, Passes(q)), if q.from == "" && q.to == "" then "event_id" else "timestamp")
  {
    ListingReturnsMatches(q, all, tables, limits, pages);
    var rows, a := Filtered(all, Wanted(q)), SchemaOf(PlanOf(q).index).value.range;
    FilteredSorted(all, Wanted(q));
    forall i, j | 0 <= i < j < |rows|
      ensures a in rows[i].row && a in rows[j].row && Text.AtMost(rows[i].row[a], rows[j].row[a])
    {
      assert rows[i] in rows && rows[j] in rows;
    }
  }

  // ---------------------------------------------------------------- cursors as clients see them

  /** How keys of the store are made of the keys that rows are ordered by, and back. */
  datatype Keys = Keys(of: string -> Cursor.Key, back: Cursor.Key -> string)

  ghost predicate KeysInverse(keys: Keys) {
    forall k :: keys.back(keys.of(k)) == k
  }

  /** The `next_cursor` that goes with a page: empty at the end, else the key of its last row, in any order. */
  ghost predicate Announces<R>(j: Cursor.Json, keys: Keys, page: Page<R>, text: string) {
    if page.next == None then text == ""
    else exists parts :: Cursor.Lists(parts, keys.of(page.next.value)) && text == Cursor.Encoded(j, parts)
  }

  /** Where a request with this `cursor` parameter starts; none if the cursor is refused. */
  function StartOf(j: Cursor.Json, keys: Keys, cursor: string): Option<Option<string>> {
    if cursor == "" then Some(None)
    else
      match Cursor.Decoded(j, cursor)
      case None => None
      case Some(key) => Some(Some(keys.back(key)))
  }

  /** A cursor starts a page exactly if it is empty, or unpadded base64url of what decodes as JSON pairs. */
  lemma CursorRefusedIff(j: Cursor.Json, keys: Keys, cursor: string)
    ensures StartOf(j, keys, cursor).Some? <==>
            || cursor == ""
            || (Cursor.Decodable(cursor)
                && exists raw :: Cursor.FromBase64(cursor) == Some(raw) && j.unmarshal(raw).Some?)
  {
    Cursor.DecodableIff(cursor);
  }

  /** The `cursor` parameter of request `i`: none at first, then what came with the page before. */
  function ParamOf(texts: seq<string>, i: nat): string
    requires i <= |texts|
  {
    if i == 0 then "" else texts[i - 1]
  }

  /** Request `i`, with the cursor text of the page before, is answered from the table as it is then. */
  ghost predicate AnswersText<R>(j: Cursor.Json, keys: Keys, table: seq<Entry<R>>, limit: nat, pages: seq<Page<R>>,
                                 texts: seq<string>, i: nat)
    requires i < |pages| == |texts|
  {
    && Sorted(table) && 1 <= limit <= MAX_LIMIT && Announces(j, keys, pages[i], texts[i])
    && (i + 1 < |pages| ==> texts[i] != "")
    && StartOf(j, keys, ParamOf(texts, i)).Some?
    && IsPage(table, StartOf(j, keys, ParamOf(texts, i)).value, limit, pages[i])
  }

  ghost predicate FollowsTexts<R>(j: Cursor.Json, keys: Keys, tables: seq<seq<Entry<R>>>, limits: seq<nat>,
                                  pages: seq<Page<R>>, texts: seq<string>)
  {
    && |tables| == |limits| == |pages| == |texts|
    && forall i | 0 <= i < |pages| :: AnswersText(j, keys, tables[i], limits[i], pages, texts, i)
  }

  lemma TextStarts<R>(j: Cursor.Json, keys: Keys, page: Page<R>, text: string)
    requires Cursor.Inverse(j) && KeysInverse(keys) && Announces(j, keys, page, text)
    ensures text == "" <==> page.next == None
    ensures StartOf(j, keys, text) == Some(page.next)
  {
    if page.next.Some? {
      var parts :| Cursor.Lists(parts, keys.of(page.next.value)) && text == Cursor.Encoded(j, parts);
      Cursor.CursorNotEmpty(j, parts);
      Cursor.CursorRoundTrip(j, parts, keys.of(page.next.value));
    }
  }

  /** A client that sends back the cursor texts follows the keys they stand for. */
  lemma TextsFollow<R>(j: Cursor.Json, keys: Keys, tables: seq<seq<Entry<R>>>, limits: seq<nat>,
                       pages: seq<Page<R>>, texts: seq<string>)
    requires Cursor.Inverse(j) && KeysInverse(keys) && FollowsTexts(j, keys, tables, limits, pages, texts)
    ensures Follows(tables, limits, pages)
    ensures pages != [] ==> (Ended(pages) <==> texts[|texts| - 1] == "")
  {
    forall i | 0 <= i < |pages|
      ensures Answers(tables[i], limits[i], pages, i) && (texts[i] == "" <==> pages[i].next == None)
    {
      assert AnswersText(j, keys, tables[i], limits[i], pages, texts, i);
      TextStarts(j, keys, pages[i], texts[i]);
      if i > 0 {
        assert AnswersText(j, keys, tables[i - 1], limits[i - 1], pages, texts, i - 1);
        TextStarts(j, keys, pages[i - 1], texts[i - 1]);
      }
    }
  }

  /**
   On a table nobody writes to, a client that sends back each `next_cursor` until it gets an
   empty one has got exactly the rows that match the listing, in key order, each once.
   */
  lemma ClientGetsMatches(q: Listing, j: Cursor.Json, keys: Keys, all: seq<Entry<Attributes>>,
                          tables: seq<seq<Entry<Attributes>>>, limits: seq<nat>, pages: seq<Page<Attributes>>,
                          texts: seq<string>)
    requires !Refused(q) && Cursor.Inverse(j) && KeysInverse(keys)
    requires FollowsTexts(j, keys, tables, limits, pages, texts) && texts != [] && texts[|texts| - 1] == ""
    requires Static(tables, Filtered(all, InRange(q)))
    ensures Returned(pages, Passes(q)) == Filtered(all, Wanted(q))
  {
    TextsFollow(j, keys, tables, limits, pages, texts);
    ListingReturnsMatches(q, all, tables, limits, pages);
  }

  // ---------------------------------------------------------------- ingested rows

  function Present(a: string, v: string): map<string, string> {
    if v == "" then map[] else map[a := v]
  }

  /** The string attributes of a row as it is stored; empty level and platform are left out. */
  function AttributesOf(row: Row): Attributes {
    map["project_id" := row.projectID, "event_id" := row.eventID, "timestamp" := row.timestamp,
        "item_type" := row.itemType, "status" := row.status, "s3_path" := row.s3Path]
    + Present("level", row.level) + Present("platform", row.platform)
  }

  /** The time a listing finds item `i` at: the event's own, or else when it came in. */
  function ListedTime(env: Env, r: Request, i: nat): string
    requires i < |r.items|
  {
    var own := env.decodeMeta(r.items[i].payload).timestamp;
    if KindOf(r, i) == "event" && own != "" then own else r.now.text
  }

  /** The level it is found under; items that are no events have none. */
  function ListedLevel(env: Env, r: Request, i: nat): string
    requires i < |r.items|
  {
    if KindOf(r, i) == "event" then env.decodeMeta(r.items[i].payload).level else ""
  }

  /** Which listings are meant to show item `i` of a request. */
  predicate ShowsItem(q: Listing, env: Env, r: Request, i: nat)
    requires i < |r.items|
  {
    && q.project == r.project
    && (q.from != "" ==> Text.AtMost(q.from, ListedTime(env, r, i)))
    && (q.to != "" ==> Text.AtMost(ListedTime(env, r, i), q.to))
    && (q.itemType == "all" || KindOf(r, i) == TypeOf(q))
    && (q.level == "" || q.level == ListedLevel(env, r, i))
  }

  lemma AttributesMatch(q: Listing, row: Row)
    ensures Matches(q, AttributesOf(row)) <==>
            && row.projectID == q.project
            && (q.from != "" ==> Text.AtMost(q.from, row.timestamp))
            && (q.to != "" ==> Text.AtMost(row.timestamp, q.to))
            && (q.itemType != "all" ==> row.itemType == TypeOf(q))
            && (q.level != "" ==> row.level == q.level)
  {
    var a := AttributesOf(row);
    assert Lookup(a, "project_id") == Some(row.projectID) && Lookup(a, "timestamp") == Some(row.timestamp);
    assert Lookup(a, "item_type") == Some(row.itemType);
    assert Lookup(a, "level") == if row.level == "" then None else Some(row.level);
  }

  lemma RowSays(env: Env, r: Request, i: nat)
    requires i < |r.items|
    ensures var row := RowOf(env, r, i);
            && row.projectID == r.project && row.itemType == KindOf(r, i)
            && row.timestamp == ListedTime(env, r, i) && row.level == ListedLevel(env, r, i)
  {}

  lemma RowMatches(q: Listing, env: Env, r: Request, i: nat)
    requires i < |r.items|
    ensures Matches(q, AttributesOf(RowOf(env, r, i))) <==> ShowsItem(q, env, r, i)
  {
    RowSays(env, r, i);
    AttributesMatch(q, RowOf(env, r, i));
  }

  /**
   From ingest to listing: an item whose two writes are acknowledged has a row, and the
   listings that select it are those for its project, its type or all types, its time and
   its level.
   */
  lemma IngestedItemIsListed(q: Listing, env: Env, s: Stores, r: Request, w: Weather, i: nat)
    requires '/' !in r.now.date && w.envelope.Done? && i < |r.items| && Persists(w, i) && !Refused(q)
    ensures var rows := Persisted(env, s, r, w).0.rows;
            && RowKeyOf(env, r, i) in rows
            && Accepted(PlanOf(q))
            && (Selects(PlanOf(q), AttributesOf(rows[RowKeyOf(env, r, i)])) <==> ShowsItem(q, env, r, i))
  {
    ItemStored(env, s, r, w, i);
    RowMatches(q, env, r, i);
    SelectsIff(q, AttributesOf(RowOf(env, r, i)));
  }

  lemma AttributesWait(row: Row)
    ensures HasValue(AttributesOf(row), "item_type", "event") && HasValue(AttributesOf(row), "status", "received")
       <==> Processor.Waiting(row)
  {
    var a := AttributesOf(row);
    assert Lookup(a, "item_type") == Some(row.itemType) && Lookup(a, "status") == Some(row.status);
  }

  /** The rows that the processor means to scan are those its filter selects once it is accepted. */
  lemma ScanMeansWaiting(row: Row, attributes: Attributes)
    requires attributes == AttributesOf(row)
    ensures Evaluable(AliasedScan()) && (Selects(AliasedScan(), attributes) <==> Processor.Waiting(row))
  {
    AliasedScanSelects(attributes);
    AttributesWait(row);
  }
}
