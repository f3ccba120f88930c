/**
 Paging through a listing: each request evaluates some rows behind a cursor, in key order,
 filters them after the limit, and hands out a new cursor unless the end was reached.
 */
module Paging {
  import opened Base
  import opened Text

  /**
   A row of one project under its key: the event id, or in the time index the timestamp and
   what breaks ties behind it, as one string.
   */
  datatype Entry<R> = Entry(key: string, row: R)

  ghost predicate Sorted<R>(rows: seq<Entry<R>>) {
    forall i, j | 0 <= i < j < |rows| :: Less(rows[i].key, rows[j].key)
  }

  /** Whether `k` is behind the cursor; without a cursor every key is. */
  predicate Behind(cursor: Option<string>, k: string) {
    cursor == None || Less(cursor.value, k)
  }

  /** The rows behind a cursor. */
  function Tail<R>(rows: seq<Entry<R>>, cursor: Option<string>): seq<Entry<R>> {
    if rows == [] || Behind(cursor, rows[0].key) then rows else Tail(rows[1..], cursor)
  }

  /** The rows one request evaluates, before filtering, and the cursor it hands out. */
  datatype Page<R> = Page(evaluated: seq<Entry<R>>, next: Option<string>)

  /**
   What the store may answer: some rows right behind the cursor, no more than the limit. It
   may stop early; it must hand out the last key it evaluated if it left rows out, and may
   if it did not.
   */
  ghost predicate IsPage<R>(rows: seq<Entry<R>>, cursor: Option<string>, limit: nat, page: Page<R>) {
    var tail := Tail(rows, cursor);
    && |page.evaluated| <= limit
    && page.evaluated <= tail
    && (page.next.Some? ==> page.evaluated != [] && page.next.value == page.evaluated[|page.evaluated| - 1].key)
    && (page.next == None ==> page.evaluated == tail)
  }

  const DEFAULT_LIMIT := 50
  const MAX_LIMIT := 200

  /** The largest machine integer; larger numbers are not read. */
  const MAX_INT := 0x7FFF_FFFF_FFFF_FFFF

  /** The `limit` parameter of a request: not given, not a number, or a number of any size. */
  datatype LimitParam = NotGiven | NotANumber | Number(n: int)

  /** The limit of a request; none if the parameter is refused. */
  function LimitOf(p: LimitParam): (r: Option<nat>)
    ensures r.Some? ==> 1 <= r.value <= 200 == MAX_LIMIT
    ensures r == None <==> p == NotANumber || (p.Number? && !(0 < p.n < 9223372036854775808))
    ensures p.Number? && r.Some? ==> r.value <= p.n && (r.value < p.n ==> r.value == 200)
    ensures p == NotGiven ==> r == Some(50)
  {
    match p
    case NotGiven => Some(DEFAULT_LIMIT)
    case NotANumber => None
    case Number(n) => if n > MAX_INT || n <= 0 then None else Some(Min(n, MAX_LIMIT))
  }

  /** The cursor of request `i`: none at first, then what the page before handed out. */
  function CursorOf<R>(pages: seq<Page<R>>, i: nat): Option<string>
    requires i <= |pages|
  {
    if i == 0 then None else pages[i - 1].next
  }

  /** Page `i` answers request `i` from the table as it is at that time. */
  ghost predicate Answers<R>(table: seq<Entry<R>>, limit: nat, pages: seq<Page<R>>, i: nat)
    requires i < |pages|
  {
    && Sorted(table) && 1 <= limit <= MAX_LIMIT && IsPage(table, CursorOf(pages, i), limit, pages[i])
    && (i + 1 < |pages| ==> pages[i].next.Some?)
  }

  /** Following cursors, while the table may change between the requests. */
  ghost predicate Follows<R>(tables: seq<seq<Entry<R>>>, limits: seq<nat>, pages: seq<Page<R>>) {
    && |tables| == |limits| == |pages|
    && forall i | 0 <= i < |pages| :: Answers(tables[i], limits[i], pages, i)
  }

  /** The end was reached. */
  ghost predicate Ended<R>(pages: seq<Page<R>>) {
    pages != [] && pages[|pages| - 1].next == None
  }

  function Filtered<R>(rows: seq<Entry<R>>, keep: R -> bool): seq<Entry<R>> {
    if rows == [] then []
    else (if keep(rows[0].row) then [rows[0]] else []) + Filtered(rows[1..], keep)
  }

  /** All rows that the pages return, filtered page by page. */
  function Returned<R>(pages: seq<Page<R>>, keep: R -> bool): seq<Entry<R>> {
    if pages == [] then []
    else Filtered(pages[0].evaluated, keep) + Returned(pages[1..], keep)
  }

  // ---------------------------------------------------------------- one page

  lemma {:induction false} TailIsSuffix<R>(rows: seq<Entry<R>>, cursor: Option<string>) returns (n: nat)
    requires Sorted(rows)
    ensures n <= |rows| && Tail(rows, cursor) == rows[n..]
    ensures forall i | 0 <= i < |rows| :: Behind(cursor, rows[i].key) <==> n <= i
  {
    if rows == [] || Behind(cursor, rows[0].key) {
      n := 0;
      forall i | 1 <= i < |rows|
        ensures Behind(cursor, rows[i].key)
      {
        if cursor.Some? {
          LessTransitive(cursor.value, rows[0].key, rows[i].key);
        }
      }
    } else {
      var m := TailIsSuffix(rows[1..], cursor);
      n := m + 1;
      assert rows[1..][m..] == rows[n..];
      assert forall i | 1 <= i < |rows| :: rows[i] == rows[1..][i - 1];
    }
  }

  /** The rows behind the key of row `last` are the rows after it. */
  lemma TailAfter<R>(rows: seq<Entry<R>>, last: nat)
    requires Sorted(rows) && last < |rows|
    ensures Tail(rows, Some(rows[last].key)) == rows[last + 1..]
  {
    var m := TailIsSuffix(rows, Some(rows[last].key));
    LessTotal(rows[last].key, rows[last].key);
    assert last + 1 < |rows| ==> Less(rows[last].key, rows[last + 1].key);
  }

  lemma TailBehind<R>(rows: seq<Entry<R>>, cursor: Option<string>, m: nat)
    requires Sorted(rows) && 0 < m <= |rows| && cursor.Some? && cursor.value == rows[m - 1].key
    ensures cursor == Some(rows[m - 1].key) && Tail(rows, cursor) == rows[m..]
  {
    TailAfter(rows, m - 1);
  }

  lemma PrefixOfSuffix<T>(s: seq<T>, n: nat, part: seq<T>)
    requires n <= |s| && part <= s[n..]
    ensures n + |part| <= |s| && part == s[n..n + |part|]
    ensures part != [] ==> part[|part| - 1] == s[n + |part| - 1]
  {
    assert part == s[n..][..|part|] == s[n..n + |part|];
  }

  lemma RangeOfPage<R>(rows: seq<Entry<R>>, n: nat, page: Page<R>) returns (m: nat)
    requires n <= |rows| && page.evaluated <= rows[n..]
    requires page.next.Some? ==>
               page.evaluated != [] && page.next.value == page.evaluated[|page.evaluated| - 1].key
    requires page.next == None ==> page.evaluated == rows[n..]
    ensures n <= m <= |rows| && page.evaluated == rows[n..m]
    ensures page.next == None ==> m == |rows|
    ensures page.next.Some? ==> n < m && page.next.value == rows[m - 1].key
  {
    m := n + |page.evaluated|;
    PrefixOfSuffix(rows, n, page.evaluated);
  }

  /** A page is a range of the table, from the first row behind its cursor on. */
  lemma PageIsRange<R>(rows: seq<Entry<R>>, cursor: Option<string>, limit: nat, page: Page<R>) returns (n: nat, m: nat)
    requires Sorted(rows) && IsPage(rows, cursor, limit, page)
    ensures n <= m <= |rows| && page.evaluated == rows[n..m]
    ensures Tail(rows, cursor) == rows[n..]
    ensures forall i | 0 <= i < |rows| :: Behind(cursor, rows[i].key) <==> n <= i
    ensures page.next == None ==> m == |rows|
    ensures page.next.Some? ==> n < m && page.next.value == rows[m - 1].key
  {
    n := TailIsSuffix(rows, cursor);
    m := RangeOfPage(rows, n, page);
  }

  /** What is behind the cursor is the page and then what is behind the next cursor. */
  lemma PageSplitsTail<R>(rows: seq<Entry<R>>, cursor: Option<string>, limit: nat, page: Page<R>) returns (n: nat, m: nat)
    requires Sorted(rows) && IsPage(rows, cursor, limit, page)
    ensures n <= m <= |rows| && page.evaluated == rows[n..m]
    ensures Tail(rows, cursor) == rows[n..]
    ensures forall i | 0 <= i < |rows| :: Behind(cursor, rows[i].key) <==> n <= i
    ensures if page.next == None then m == |rows|
            else n < m && page.next == Some(rows[m - 1].key) && Tail(rows, page.next) == rows[m..]
  {
    n, m := PageIsRange(rows, cursor, limit, page);
    if page.next.Some? {
      TailBehind(rows, page.next, m);
    }
  }

  lemma NextTailIsShorter<R>(rows: seq<Entry<R>>, cursor: Option<string>, limit: nat, page: Page<R>)
    requires Sorted(rows) && IsPage(rows, cursor, limit, page) && page.next.Some?
    ensures |Tail(rows, page.next)| < |Tail(rows, cursor)|
  {
    var n, m := PageSplitsTail(rows, cursor, limit, page);
  }

  lemma {:induction false} FilteredAdds<R>(a: seq<Entry<R>>, b: seq<Entry<R>>, keep: R -> bool)
    ensures Filtered(a + b, keep) == Filtered(a, keep) + Filtered(b, keep)
  {
    if a == [] {
      assert a + b == b;
    } else {
      var first := if keep(a[0].row) then [a[0]] else [];
      assert (a + b)[0] == a[0] && (a + b)[1..] == a[1..] + b;
      FilteredAdds(a[1..], b, keep);
      assert Filtered(a + b, keep) == first + Filtered(a[1..] + b, keep);
    }
  }

  // ---------------------------------------------------------------- a table nobody writes to

  ghost predicate Static<R>(tables: seq<seq<Entry<R>>>, rows: seq<Entry<R>>) {
    forall i | 0 <= i < |tables| :: tables[i] == rows
  }

  lemma SplitAt<T>(s: seq<T>, n: nat, m: nat)
    requires n <= m <= |s|
    ensures s[n..] == s[n..m] + s[m..]
  {}

  lemma FilteredPage<R>(rows: seq<Entry<R>>, cursor: Option<string>, limit: nat, page: Page<R>, keep: R -> bool)
    requires Sorted(rows) && IsPage(rows, cursor, limit, page) && page.next.Some?
    ensures Filtered(Tail(rows, cursor), keep)
         == Filtered(page.evaluated, keep) + Filtered(Tail(rows, page.next), keep)
  {
    var n, m := PageSplitsTail(rows, cursor, limit, page);
    SplitAt(rows, n, m);
    FilteredAdds(page.evaluated, Tail(rows, page.next), keep);
  }

  lemma {:induction false} RestReturned<R>(rows: seq<Entry<R>>, tables: seq<seq<Entry<R>>>, limits: seq<nat>,
                                           pages: seq<Page<R>>, keep: R -> bool, i: nat)
    requires Follows(tables, limits, pages) && Ended(pages) && Static(tables, rows) && i < |pages|
    ensures Returned(pages[i..], keep) == Filtered(Tail(rows, CursorOf(pages, i)), keep)
    decreases |pages| - i
  {
    assert Answers(tables[i], limits[i], pages, i);
    assert pages[i..][1..] == pages[i + 1..];
    if i + 1 < |pages| {
      FilteredPage(rows, CursorOf(pages, i), limits[i], pages[i], keep);
      RestReturned(rows, tables, limits, pages, keep, i + 1);
    }
  }

  /** On a table nobody writes to, the pages return the filtered rows in key order, each once. */
  lemma StaticScanReturnsAll<R>(rows: seq<Entry<R>>, tables: seq<seq<Entry<R>>>, limits: seq<nat>,
                                pages: seq<Page<R>>, keep: R -> bool)
    requires Follows(tables, limits, pages) && Ended(pages) && Static(tables, rows)
    ensures Returned(pages, keep) == Filtered(rows, keep)
  {
    RestReturned(rows, tables, limits, pages, keep, 0);
    assert pages[0..] == pages;
  }

  lemma {:induction false} TailShrinks<R>(rows: seq<Entry<R>>, tables: seq<seq<Entry<R>>>, limits: seq<nat>,
                                          pages: seq<Page<R>>, i: nat)
    requires Follows(tables, limits, pages) && Static(tables, rows) && i < |pages|
    ensures |Tail(rows, CursorOf(pages, i))| + i <= |rows|
  {
    if i > 0 {
      TailShrinks(rows, tables, limits, pages, i - 1);
      assert Answers(tables[i - 1], limits[i - 1], pages, i - 1);
      NextTailIsShorter(rows, CursorOf(pages, i - 1), limits[i - 1], pages[i - 1]);
    }
  }

  /** On such a table following cursors ends. */
  lemma StaticScanEnds<R>(rows: seq<Entry<R>>, tables: seq<seq<Entry<R>>>, limits: seq<nat>, pages: seq<Page<R>>)
    requires Follows(tables, limits, pages) && Static(tables, rows)
    ensures |pages| <= |rows| + 1
  {
    if pages != [] {
      TailShrinks(rows, tables, limits, pages, |pages| - 1);
    }
  }

  // ---------------------------------------------------------------- a table that changes

  lemma NotLessTransitive(a: string, b: string, c: string)
    requires !Less(b, a) && !Less(c, b)
    ensures !Less(c, a)
  {
    if Less(c, a) {
      LessTotal(a, b);
      LessTotal(b, c);
      if a != b && b != c {
        LessTransitive(c, a, b);
      }
    }
  }

  lemma BetweenLess(a: string, b: string, c: string)
    requires !Less(b, a) && Less(b, c)
    ensures Less(a, c)
  {
    LessTotal(a, b);
    if a != b {
      LessTransitive(a, b, c);
    }
  }

  lemma {:induction false} CursorsAdvance<R>(tables: seq<seq<Entry<R>>>, limits: seq<nat>, pages: seq<Page<R>>, i: nat, j: nat)
    requires Follows(tables, limits, pages) && i < j < |pages|
    ensures pages[i].next.Some? && pages[j - 1].next.Some?
    ensures !Less(pages[j - 1].next.value, pages[i].next.value)
    decreases j
  {
    assert Answers(tables[j - 1], limits[j - 1], pages, j - 1);
    if i < j - 1 {
      CursorsAdvance(tables, limits, pages, i, j - 1);
      var n, m := PageSplitsTail(tables[j - 1], CursorOf(pages, j - 1), limits[j - 1], pages[j - 1]);
      var before, after := pages[j - 2].next.value, pages[j - 1].next.value;
      assert Less(before, after);
      LessTotal(before, after);
      NotLessTransitive(pages[i].next.value, before, after);
    } else {
      LessTotal(pages[i].next.value, pages[i].next.value);
    }
  }

  lemma InSlice<T>(s: seq<T>, n: nat, m: nat, x: T)
    requires n <= m <= |s|
    ensures x in s[n..m] <==> exists i | n <= i < m :: s[i] == x
  {
    forall i | n <= i < m
      ensures s[i] in s[n..m]
    {
      assert s[n..m][i - n] == s[i];
    }
  }

  /** The rows of a page are those behind its cursor and not behind the next. */
  lemma PageRange<R>(rows: seq<Entry<R>>, cursor: Option<string>, limit: nat, page: Page<R>, e: Entry<R>)
    requires Sorted(rows) && IsPage(rows, cursor, limit, page)
    ensures e in page.evaluated <==>
            e in rows && Behind(cursor, e.key) && (page.next == None || !Less(page.next.value, e.key))
  {
    var n, m := PageSplitsTail(rows, cursor, limit, page);
    InSlice(rows, n, m, e);
    if page.next.Some? {
      var m' := TailIsSuffix(rows, page.next);
      assert |rows[m'..]| == |rows[m..]|;
    }
  }

  /** Keys only go up from page to page, so none is returned twice, whatever is written in between. */
  lemma KeysGoUp<R>(tables: seq<seq<Entry<R>>>, limits: seq<nat>, pages: seq<Page<R>>, i: nat, j: nat, a: Entry<R>, b: Entry<R>)
    requires Follows(tables, limits, pages) && i < j < |pages|
    requires a in pages[i].evaluated && b in pages[j].evaluated
    ensures Less(a.key, b.key)
  {
    CursorsAdvance(tables, limits, pages, i, j);
    assert Answers(tables[i], limits[i], pages, i) && Answers(tables[j], limits[j], pages, j);
    PageRange(tables[i], CursorOf(pages, i), limits[i], pages[i], a);
    PageRange(tables[j], CursorOf(pages, j), limits[j], pages[j], b);
    NotLessTransitive(a.key, pages[i].next.value, pages[j - 1].next.value);
    BetweenLess(a.key, pages[j - 1].next.value, b.key);
  }

  /** The page whose range holds `k`. */
  lemma {:induction false} FindPage<R>(pages: seq<Page<R>>, k: string, from: nat) returns (i: nat)
    requires Ended(pages) && from < |pages| && Behind(CursorOf(pages, from), k)
    ensures i < |pages| && Behind(CursorOf(pages, i), k)
    ensures pages[i].next == None || !Less(pages[i].next.value, k)
    decreases |pages| - from
  {
    if pages[from].next == None || !Less(pages[from].next.value, k) {
      i := from;
    } else {
      i := FindPage(pages, k, from + 1);
    }
  }

  lemma {:induction false} InFiltered<R>(rows: seq<Entry<R>>, keep: R -> bool, e: Entry<R>)
    ensures e in Filtered(rows, keep) <==> e in rows && keep(e.row)
  {
    if rows != [] {
      InFiltered(rows[1..], keep, e);
      assert rows == [rows[0]] + rows[1..];
    }
  }

  /** Some row under `key`. */
  ghost predicate HasKey<R>(rows: seq<Entry<R>>, key: string) {
    exists e | e in rows :: e.key == key
  }

  /** Some row under `key` that passes the filter. */
  ghost predicate HasPassing<R>(rows: seq<Entry<R>>, keep: R -> bool, key: string) {
    exists e | e in rows :: e.key == key && keep(e.row)
  }

  lemma SameKeySameRow<R>(rows: seq<Entry<R>>, a: Entry<R>, b: Entry<R>)
    requires Sorted(rows) && a in rows && b in rows && a.key == b.key
    ensures a == b
  {
    var i :| 0 <= i < |rows| && rows[i] == a;
    var j :| 0 <= j < |rows| && rows[j] == b;
    LessTotal(a.key, b.key);
  }

  lemma PassingIsReturned<R>(rows: seq<Entry<R>>, cursor: Option<string>, limit: nat, page: Page<R>, keep: R -> bool,
                             key: string)
    requires Sorted(rows) && IsPage(rows, cursor, limit, page) && HasPassing(rows, keep, key)
    requires Behind(cursor, key) && (page.next == None || !Less(page.next.value, key))
    ensures HasKey(Filtered(page.evaluated, keep), key)
  {
    var e :| e in rows && e.key == key && keep(e.row);
    PageRange(rows, cursor, limit, page, e);
    InFiltered(page.evaluated, keep, e);
  }

  lemma ReturnedOnOnePage<R>(tables: seq<seq<Entry<R>>>, limits: seq<nat>, pages: seq<Page<R>>, keep: R -> bool,
                             key: string, i: nat, j: nat)
    requires Follows(tables, limits, pages) && i < j < |pages|
    requires HasKey(Filtered(pages[i].evaluated, keep), key)
    ensures !HasKey(Filtered(pages[j].evaluated, keep), key)
  {
    if HasKey(Filtered(pages[j].evaluated, keep), key) {
      var a :| a in Filtered(pages[i].evaluated, keep) && a.key == key;
      var b :| b in Filtered(pages[j].evaluated, keep) && b.key == key;
      InFiltered(pages[i].evaluated, keep, a);
      InFiltered(pages[j].evaluated, keep, b);
      KeysGoUp(tables, limits, pages, i, j, a, b);
      LessTotal(key, key);
    }
  }

  /** A page returns no two rows under one key. */
  lemma ReturnedOnceOnPage<R>(rows: seq<Entry<R>>, cursor: Option<string>, limit: nat, page: Page<R>, keep: R -> bool,
                              a: Entry<R>, b: Entry<R>)
    requires Sorted(rows) && IsPage(rows, cursor, limit, page)
    requires a in Filtered(page.evaluated, keep) && b in Filtered(page.evaluated, keep) && a.key == b.key
    ensures a == b
  {
    InFiltered(page.evaluated, keep, a);
    InFiltered(page.evaluated, keep, b);
    PageRange(rows, cursor, limit, page, a);
    PageRange(rows, cursor, limit, page, b);
    SameKeySameRow(rows, a, b);
  }

  /**
   If throughout a scan there is a row under `key` that passes the filter, the same or one
   written in its place, then exactly one page returns a row under it.
   */
  lemma StayingKeyReturnedOnce<R>(tables: seq<seq<Entry<R>>>, limits: seq<nat>, pages: seq<Page<R>>, keep: R -> bool,
                                  key: string) returns (i: nat)
    requires Follows(tables, limits, pages) && Ended(pages)
    requires forall t | t in tables :: HasPassing(t, keep, key)
    ensures i < |pages| && forall j | 0 <= j < |pages| :: HasKey(Filtered(pages[j].evaluated, keep), key) <==> j == i
  {
    i := FindPage(pages, key, 0);
    assert tables[i] in tables && Answers(tables[i], limits[i], pages, i);
    PassingIsReturned(tables[i], CursorOf(pages, i), limits[i], pages[i], keep, key);
    forall j | 0 <= j < |pages| && j != i
      ensures !HasKey(Filtered(pages[j].evaluated, keep), key)
    {
      if HasKey(Filtered(pages[j].evaluated, keep), key) {
        ReturnedOnOnePage(tables, limits, pages, keep, key, if i < j then i else j, if i < j then j else i);
      }
    }
  }
}
