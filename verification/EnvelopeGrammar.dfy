/**
 The envelope wire format: a parser over a whole byte sequence, a grammar that says
 which bodies are envelopes without mentioning how they are read, and the proof that
 the two agree. JSON decoding is a parameter (`Decoder`).
 */
module EnvelopeGrammar {
  import opened Base

  const MAX_ITEMS := 100
  const MAX_LINE := 16384
  const MAX_ITEM_BYTES := 1048576

  /** What JSON decoding yields for an item header line. */
  datatype ItemMeta = ItemMeta(kind: string, length: Option<int>)

  /** JSON decoding of the envelope header (its DSN, empty if absent) and of item headers. */
  datatype Decoder = Decoder(header: bytes -> Option<string>, item: bytes -> Option<ItemMeta>)

  datatype Item = Item(raw: bytes, meta: ItemMeta, payload: bytes)

  datatype Envelope = Envelope(raw: bytes, dsn: string, items: seq<Item>)

  datatype Fault =
    | HeaderMissing
    | HeaderTooLong
    | HeaderEmpty
    | HeaderNotJson
    | TooManyItems
    | ItemHeaderTooLong
    | EmptyItemHeader
    | EmptyItemHeaderBeforeContent
    | ItemHeaderNotJson
    | NegativeLength
    | PayloadTooLarge
    | PayloadTruncated
    | PayloadNotFollowedByNewline
    | PayloadMissing
    | PayloadLineTooLong

  // ---------------------------------------------------------------- lines

  /** Index of the first newline, or the length of `s` when there is none. */
  function FindNewline(s: bytes): (k: nat)
    ensures k <= |s|
    ensures k < |s| ==> s[k] == NL
    ensures forall i | 0 <= i < k :: s[i] != NL
  {
    if s == [] || s[0] == NL then 0 else 1 + FindNewline(s[1..])
  }

  datatype Line = AtEof | TooLong | Line(text: bytes, rest: bytes)

  /** One line off the front of `s`: up to a newline, which is dropped, or up to the end. */
  function NextLine(s: bytes): Line {
    var k := FindNewline(s);
    if s == [] then AtEof
    else if k < |s| then
      if k <= MAX_LINE then Line(s[..k], s[k + 1..]) else TooLong
    else
    if k <= MAX_LINE then Line(s, []) else TooLong
  }

  ghost predicate IsText(t: bytes) {
    NL !in t && |t| <= MAX_LINE
  }

  lemma NextLineTerminated(t: bytes, u: bytes)
    requires IsText(t)
    ensures NextLine(t + [NL] + u) == Line(t, u)
  {
    var s := t + [NL] + u;
    assert s[|t|] == NL;
    assert forall i | 0 <= i < |t| :: s[i] == t[i];
    assert FindNewline(s) == |t|;
  }

  lemma NextLineAtEnd(t: bytes)
    requires IsText(t) && t != []
    ensures NextLine(t) == Line(t, [])
  {
    assert FindNewline(t) == |t|;
  }

  lemma NextLineSound(s: bytes)
    requires NextLine(s).Line?
    ensures var l := NextLine(s);
            && IsText(l.text)
            && (s == l.text + [NL] + l.rest || (s == l.text && l.rest == [] && s != []))
  {
    var k := FindNewline(s);
    if k < |s| {
      assert s == s[..k] + [NL] + s[k + 1..];
    }
  }

  // ---------------------------------------------------------------- parser

  /** The payload announced by `meta` off the front of `s`. */
  function NextPayload(meta: ItemMeta, s: bytes): (r: Result<(bytes, bytes), Fault>)
    ensures r.Ok? ==> |r.value.1| <= |s|
  {
    match meta.length
    case Some(n) =>
      if n < 0 then Err(NegativeLength)
      else if n > MAX_ITEM_BYTES then Err(PayloadTooLarge)
      else if |s| < n then Err(PayloadTruncated)
      else if |s| == n then Ok((s, []))
      else if s[n] != NL then Err(PayloadNotFollowedByNewline)
      else Ok((s[..n], s[n + 1..]))
    case None =>
      // No size check here: a line is at most MAX_LINE bytes, far below MAX_ITEM_BYTES.
      match NextLine(s)
      case AtEof => Err(PayloadMissing)
      case TooLong => Err(PayloadLineTooLong)
      case Line(text, rest) => Ok((text, rest))
  }

  /** One item off the front of `s`, or none when the envelope ends there. */
  function NextItem(dec: Decoder, s: bytes): (r: Result<Option<(Item, bytes)>, Fault>)
    ensures r.Ok? && r.value.Some? ==> |r.value.value.1| < |s|
  {
    match NextLine(s)
    case AtEof => Ok(None)
    case TooLong => Err(ItemHeaderTooLong)
    case Line(text, rest) =>
      if text == [] then AfterBlankLine(rest) else AfterHeader(dec, text, rest)
  }

  /** The item with header line `text` and its payload off the front of `s`. */
  function AfterHeader(dec: Decoder, text: bytes, s: bytes): (r: Result<Option<(Item, bytes)>, Fault>)
    ensures r.Ok? ==> r.value.Some? && |r.value.value.1| <= |s|
  {
    match dec.item(text)
    case None => Err(ItemHeaderNotJson)
    case Some(meta) =>
      match NextPayload(meta, s)
      case Err(e) => Err(e)
      case Ok(p) => Ok(Some((Item(text, meta, p.0), p.1)))
  }

  /** A blank line where an item header is expected ends the envelope or is malformed. */
  function AfterBlankLine(s: bytes): (r: Result<Option<(Item, bytes)>, Fault>)
    ensures r.Ok? ==> r.value == None && s == []
  {
    match NextLine(s)
    case AtEof => Ok(None)
    case TooLong => Err(ItemHeaderTooLong)
    case Line(next, _) => Err(if next == [] then EmptyItemHeader else EmptyItemHeaderBeforeContent)
  }

  /** All items off the front of `s`, when `n` items have been read before. */
  function ParseItems(dec: Decoder, s: bytes, n: nat): Result<seq<Item>, Fault>
    decreases |s|
  {
    if n >= MAX_ITEMS then Err(TooManyItems)
    else
      match NextItem(dec, s)
      case Err(e) => Err(e)
      case Ok(None) => Ok([])
      case Ok(Some(p)) => Prepend([p.0], ParseItems(dec, p.1, n + 1))
  }

  function Prepend(items: seq<Item>, r: Result<seq<Item>, Fault>): Result<seq<Item>, Fault> {
    match r
    case Ok(more) => Ok(items + more)
    case Err(e) => Err(e)
  }

  function Parse(dec: Decoder, body: bytes): Result<Envelope, Fault> {
    match NextLine(body)
    case AtEof => Err(HeaderMissing)
    case TooLong => Err(HeaderTooLong)
    case Line(text, rest) =>
      if text == [] then Err(HeaderEmpty)
      else
        match dec.header(text)
        case None => Err(HeaderNotJson)
        case Some(dsn) =>
          match ParseItems(dec, rest, 0)
          case Err(e) => Err(e)
          case Ok(items) => Ok(Envelope(text, dsn, items))
  }

  // ---------------------------------------------------------------- grammar

  ghost predicate WellFormedItem(dec: Decoder, it: Item) {
    && IsText(it.raw) && it.raw != []
    && dec.item(it.raw) == Some(it.meta)
    && match it.meta.length
       case Some(n) => 0 <= n <= MAX_ITEM_BYTES && |it.payload| == n
       case None => IsText(it.payload)
  }

  ghost predicate WellFormedItems(dec: Decoder, items: seq<Item>) {
    forall i | 0 <= i < |items| :: WellFormedItem(dec, items[i])
  }

  ghost predicate WellFormed(dec: Decoder, env: Envelope) {
    && IsText(env.raw) && env.raw != []
    && dec.header(env.raw) == Some(env.dsn)
    && WellFormedItems(dec, env.items)
    && |env.items| < MAX_ITEMS
  }

  function RenderItem(it: Item): bytes {
    it.raw + [NL] + it.payload + [NL]
  }

  function RenderItems(items: seq<Item>): bytes {
    if items == [] then [] else RenderItem(items[0]) + RenderItems(items[1..])
  }

  /** The envelope with every line and payload ended by a newline. */
  function Render(env: Envelope): bytes {
    env.raw + [NL] + RenderItems(env.items)
  }

  /**
   The ways `s` may spell `full`, a rendering that ends with `items`: exactly; with one
   blank line more; without the last newline (unless that would leave an empty line
   payload with nothing at all to read); or, when the last item declares length 0,
   without the last two.
   */
  ghost predicate Spells(s: bytes, full: bytes, items: seq<Item>) {
    || s == full
    || s == full + [NL]
    || (s + [NL] == full && (items != [] && Last(items).meta.length == None ==> Last(items).payload != []))
    || (s + [NL, NL] == full && items != [] && Last(items).meta.length == Some(0))
  }

  function Last<T>(s: seq<T>): T
    requires s != []
  {
    s[|s| - 1]
  }

  /** `body` is an envelope, and `env` is what it says. */
  ghost predicate Derives(dec: Decoder, body: bytes, env: Envelope) {
    WellFormed(dec, env) && Spells(body, Render(env), env.items)
  }

  // ---------------------------------------------------------------- parser = grammar

  /** A spelling of `head` and then some items starts with all of `head`. */
  lemma SpellsCut(head: bytes, s: bytes, items: seq<Item>) returns (t: bytes)
    requires items != [] && Spells(s, head + RenderItems(items), items)
    requires Last(items).meta.length == Some(0) ==> Last(items).payload == []
    ensures s == head + t && Spells(t, RenderItems(items), items)
  {
    var tail := RenderItems(items);
    RenderItemsEnd(items);
    if s == head + tail {
      t := tail;
    } else if s == head + tail + [NL] {
      t := tail + [NL];
    } else if s + [NL] == head + tail {
      t := tail[..|tail| - 1];
      CutSuffix(s, [NL], head, t);
    } else {
      t := tail[..|tail| - 2];
      CutSuffix(s, [NL, NL], head, t);
    }
  }

  lemma SplitHead(it: Item, s: bytes, t: bytes)
    requires s == RenderItem(it) + t
    ensures s == it.raw + [NL] + (it.payload + [NL] + t)
  {}

  lemma CutSuffix(s: bytes, x: bytes, head: bytes, t: bytes)
    requires s + x == head + (t + x)
    ensures s == head + t
  {
    assert s + x == head + t + x;
    assert s == (s + x)[..|s|] == (head + t + x)[..|s|];
  }

  /** The first item of a spelling parses to that item and leaves a spelling of the others. */
  lemma FirstItemComplete(dec: Decoder, s: bytes, items: seq<Item>) returns (u: bytes)
    requires items != [] && WellFormedItems(dec, items) && Spells(s, RenderItems(items), items)
    ensures ReadsItem(dec, s, items[0], u)
    ensures WellFormedItems(dec, items[1..]) && Spells(u, RenderItems(items[1..]), items[1..])
  {
    var it := items[0];
    assert WellFormedItem(dec, it);
    if |items| >= 2 {
      assert WellFormedItem(dec, Last(items)) && Last(items[1..]) == Last(items);
      u := SpellsCut(RenderItem(it), s, items[1..]);
      SplitHead(it, s, u);
      NextLineTerminated(it.raw, it.payload + [NL] + u);
      PayloadComplete(it, u);
    } else {
      assert RenderItems(items) == RenderItem(it) + RenderItems(items[1..]) == RenderItem(it);
      u := OnlyItemComplete(dec, s, it);
    }
  }

  /** One turn of the parser's loop on `s` reads `it` and leaves `u`. */
  ghost predicate ReadsItem(dec: Decoder, s: bytes, it: Item, u: bytes) {
    && NextLine(s).Line? && NextLine(s).text == it.raw != []
    && dec.item(it.raw) == Some(it.meta)
    && NextPayload(it.meta, NextLine(s).rest) == Ok((it.payload, u))
    && |u| < |s|
  }

  lemma OnlyItemComplete(dec: Decoder, s: bytes, it: Item) returns (u: bytes)
    requires WellFormedItem(dec, it) && Spells(s, RenderItem(it), [it])
    ensures ReadsItem(dec, s, it, u) && u in {[], [NL]}
  {
    var full := RenderItem(it);
    u := if s == full + [NL] then [NL] else [];
    if s == full || s == full + [NL] {
      assert s == it.raw + [NL] + (it.payload + [NL] + u);
      NextLineTerminated(it.raw, it.payload + [NL] + u);
      PayloadComplete(it, u);
    } else if s + [NL] == full {
      assert s == full[..|full| - 1] == it.raw + [NL] + it.payload;
      NextLineTerminated(it.raw, it.payload);
      if it.meta.length == None {
        NextLineAtEnd(it.payload);
      }
    } else {
      assert s == full[..|full| - 2] == it.raw;
      NextLineAtEnd(it.raw);
    }
  }

  lemma PayloadComplete(it: Item, t: bytes)
    requires match it.meta.length
             case Some(n) => 0 <= n <= MAX_ITEM_BYTES && |it.payload| == n
             case None => IsText(it.payload)
    ensures NextPayload(it.meta, it.payload + [NL] + t) == Ok((it.payload, t))
  {
    var s := it.payload + [NL] + t;
    if it.meta.length == None {
      NextLineTerminated(it.payload, t);
    } else {
      assert s[..|it.payload|] == it.payload && s[|it.payload| + 1..] == t;
    }
  }

  /** A rendering ends with a newline, and with two when the last item is an empty payload. */
  lemma {:induction false} RenderItemsEnd(items: seq<Item>)
    requires items != []
    ensures var r := RenderItems(items);
            && |r| >= 2 && r[|r| - 1] == NL
            && r == r[..|r| - 1] + [NL]
            && (Last(items).payload == [] ==> r == r[..|r| - 2] + [NL, NL])
  {
    var r := RenderItems(items);
    if |items| == 1 {
      assert r == RenderItem(items[0]);
    } else {
      RenderItemsEnd(items[1..]);
      assert Last(items) == Last(items[1..]);
    }
  }

  lemma {:induction false} ItemsComplete(dec: Decoder, s: bytes, items: seq<Item>, n: nat)
    requires WellFormedItems(dec, items) && n + |items| < MAX_ITEMS
    requires Spells(s, RenderItems(items), items)
    ensures ParseItems(dec, s, n) == Ok(items)
    decreases |items|
  {
    if items == [] {
      SpellsNothing(s);
      NoItemsComplete(dec, s, n);
    } else {
      assert [items[0]] + items[1..] == items;
      var u := FirstItemComplete(dec, s, items);
      ItemsComplete(dec, u, items[1..], n + 1);
      ItemsPrepend(dec, s, items[0], u, items[1..], n);
    }
  }

  lemma SpellsNothing(s: bytes)
    requires Spells(s, RenderItems([]), [])
    ensures s == [] || s == [NL]
  {}

  lemma NoItemsComplete(dec: Decoder, s: bytes, n: nat)
    requires n < MAX_ITEMS && (s == [] || s == [NL])
    ensures ParseItems(dec, s, n) == Ok([])
  {
    if s == [NL] {
      NextLineTerminated([], []);
      assert [] + [NL] + [] == s;
    }
  }

  /** One unfolding of the parser, from its parts. */
  lemma ItemsPrepend(dec: Decoder, s: bytes, it: Item, u: bytes, items: seq<Item>, n: nat)
    requires n < MAX_ITEMS && ReadsItem(dec, s, it, u)
    requires ParseItems(dec, u, n + 1) == Ok(items)
    ensures ParseItems(dec, s, n) == Ok([it] + items)
  {}

  /** The converse step: a parsed item in front of a spelling of the others. */
  lemma FirstItemSound(dec: Decoder, s: bytes, it: Item, u: bytes, items: seq<Item>)
    requires ReadsItem(dec, s, it, u)
    requires WellFormedItems(dec, items) && Spells(u, RenderItems(items), items)
    ensures WellFormedItems(dec, [it] + items)
    ensures Spells(s, RenderItems([it] + items), [it] + items)
  {
    HeadSound(dec, s, it, u);
    assert items != [] ==> WellFormedItem(dec, items[0]);
    SpellsPrepend(s, it, u, items);
  }

  /** `s` is one item in full and then `u`, or all there is of it when `u` is empty. */
  ghost predicate Consumes(s: bytes, it: Item, u: bytes) {
    || s == RenderItem(it) + u
    || (u == [] && Spells(s, RenderItem(it), [it]))
  }

  lemma HeadSound(dec: Decoder, s: bytes, it: Item, u: bytes)
    requires ReadsItem(dec, s, it, u)
    ensures WellFormedItem(dec, it) && Consumes(s, it, u)
  {
    var l := NextLine(s);
    NextLineSound(s);
    PayloadSound(it.meta, l.rest);
    ConsumesParts(s, it, l.rest, u);
  }

  lemma ConsumesParts(s: bytes, it: Item, rest: bytes, u: bytes)
    requires s == it.raw + [NL] + rest || (s == it.raw && rest == [])
    requires rest == it.payload + [NL] + u
             || (rest == it.payload && u == [] && (it.meta.length == None ==> it.payload != []))
    requires it.meta.length.Some? ==> |it.payload| == it.meta.length.value
    ensures Consumes(s, it, u)
  {
    if rest == it.payload + [NL] + u {
      assert s == RenderItem(it) + u;
    } else if s == it.raw {
      assert s + [NL, NL] == RenderItem(it);
    } else {
      assert s + [NL] == RenderItem(it);
    }
  }

  lemma SpellsPrepend(s: bytes, it: Item, u: bytes, items: seq<Item>)
    requires Consumes(s, it, u) && Spells(u, RenderItems(items), items)
    requires items != [] ==> items[0].raw != []
    ensures Spells(s, RenderItems([it] + items), [it] + items)
  {
    var all, head, tail := [it] + items, RenderItem(it), RenderItems(items);
    assert all[1..] == items;
    if items == [] {
      assert all == [it] && head + tail == head;
    } else {
      assert Last(all) == Last(items);
      RenderItemsEnd(items);
      assert |tail| >= 3;
      SpellsBehind(head, u, tail, all);
    }
  }

  lemma PayloadSound(meta: ItemMeta, s: bytes)
    requires NextPayload(meta, s).Ok?
    ensures var (p, u) := NextPayload(meta, s).value;
            && (s == p + [NL] + u || (s == p && u == [] && (meta.length == None ==> p != [])))
            && (match meta.length
                case Some(n) => 0 <= n <= MAX_ITEM_BYTES && |p| == n
                case None => IsText(p))
  {
    match meta.length {
      case None => NextLineSound(s);
      case Some(n) =>
        if |s| > n {
          assert s == s[..n] + [NL] + s[n + 1..];
        }
    }
  }

  lemma {:induction false} ItemsSound(dec: Decoder, s: bytes, n: nat)
    requires n < MAX_ITEMS && ParseItems(dec, s, n).Ok?
    ensures var items := ParseItems(dec, s, n).value;
            && WellFormedItems(dec, items) && n + |items| < MAX_ITEMS
            && Spells(s, RenderItems(items), items)
    decreases |s|
  {
    match NextItem(dec, s).value {
      case None =>
        EndSound(dec, s);
      case Some(p) =>
        StepSound(dec, s, p.0, p.1);
        ItemsSound(dec, p.1, n + 1);
        FirstItemSound(dec, s, p.0, p.1, ParseItems(dec, p.1, n + 1).value);
    }
  }

  lemma EndSound(dec: Decoder, s: bytes)
    requires NextItem(dec, s) == Ok(None)
    ensures s == [] || s == [NL]
  {
    if s != [] {
      NextLineSound(s);
    }
  }

  lemma StepSound(dec: Decoder, s: bytes, it: Item, u: bytes)
    requires NextItem(dec, s) == Ok(Some((it, u)))
    ensures ReadsItem(dec, s, it, u)
  {}

  // ---------------------------------------------------------------- main results

  /** The parser accepts exactly the envelopes of the grammar, with the derived content. */
  lemma ParseIffDerives(dec: Decoder, body: bytes, env: Envelope)
    ensures Parse(dec, body) == Ok(env) <==> Derives(dec, body, env)
  {
    if Derives(dec, body, env) {
      ParseComplete(dec, body, env);
    }
    if Parse(dec, body) == Ok(env) {
      ParseSound(dec, body, env);
    }
  }

  lemma ParseComplete(dec: Decoder, body: bytes, env: Envelope)
    requires Derives(dec, body, env)
    ensures Parse(dec, body) == Ok(env)
  {
    if env.items != [] {
      assert WellFormedItem(dec, Last(env.items));
      var rest := SpellsCut(env.raw + [NL], body, env.items);
      NextLineTerminated(env.raw, rest);
      ItemsComplete(dec, rest, env.items, 0);
    } else if body + [NL] == env.raw + [NL] {
      assert body == (body + [NL])[..|body|] == env.raw;
      NextLineAtEnd(env.raw);
    } else {
      var rest := if body == env.raw + [NL] + [NL] then [NL] else [];
      assert body == env.raw + [NL] + rest;
      NextLineTerminated(env.raw, rest);
      NoItemsComplete(dec, rest, 0);
    }
  }

  lemma ParseSound(dec: Decoder, body: bytes, env: Envelope)
    requires Parse(dec, body) == Ok(env)
    ensures Derives(dec, body, env)
  {
    var l := NextLine(body);
    NextLineSound(body);
    ItemsSound(dec, l.rest, 0);
    if body == env.raw + [NL] + l.rest {
      SpellsBehind(env.raw + [NL], l.rest, RenderItems(env.items), env.items);
    } else {
      assert ParseItems(dec, [], 0) == Ok([]);
      assert body + [NL] == Render(env);
    }
  }

  lemma SpellsBehind(head: bytes, s: bytes, full: bytes, items: seq<Item>)
    requires Spells(s, full, items)
    ensures Spells(head + s, head + full, items)
  {
    if s == full + [NL] {
      assert head + s == head + full + [NL];
    } else if s + [NL] == full {
      assert head + s + [NL] == head + full;
    } else if s + [NL, NL] == full {
      assert head + s + [NL, NL] == head + full;
    }
  }

  /** A body has at most one derivation. */
  lemma DerivationUnique(dec: Decoder, body: bytes, e1: Envelope, e2: Envelope)
    requires Derives(dec, body, e1) && Derives(dec, body, e2)
    ensures e1 == e2
  {
    ParseIffDerives(dec, body, e1);
    ParseIffDerives(dec, body, e2);
  }

  /** What is written is read back, whatever bytes the length-prefixed payloads hold. */
  lemma RenderThenParse(dec: Decoder, env: Envelope)
    requires WellFormed(dec, env)
    ensures Parse(dec, Render(env)) == Ok(env)
  {
    ParseIffDerives(dec, Render(env), env);
  }

  /** What is read is written back, up to two missing or one extra newline at the end. */
  lemma ParseThenRender(dec: Decoder, body: bytes)
    requires Parse(dec, body).Ok?
    ensures var r := Render(Parse(dec, body).value);
            body == r || body == r + [NL] || body + [NL] == r || body + [NL, NL] == r
  {
    ParseIffDerives(dec, body, Parse(dec, body).value);
  }

  // ---------------------------------------------------------------- limits

  /** An envelope that can be written down: lines hold no newline, headers decode, declared lengths are true. */
  ghost predicate Writable(dec: Decoder, env: Envelope) {
    && NL !in env.raw && env.raw != [] && dec.header(env.raw) == Some(env.dsn)
    && forall i | 0 <= i < |env.items| :: WritableItem(dec, env.items[i])
  }

  ghost predicate WritableItem(dec: Decoder, it: Item) {
    && NL !in it.raw && it.raw != [] && dec.item(it.raw) == Some(it.meta)
    && match it.meta.length
       case Some(n) => |it.payload| == n
       case None => NL !in it.payload
  }

  /** What is limited: 99 items, lines of 16384 bytes, declared payloads of 1 MiB. */
  ghost predicate WithinLimits(env: Envelope) {
    && |env.items| <= 99 && |env.raw| <= 16384
    && forall i | 0 <= i < |env.items| ::
         && |env.items[i].raw| <= 16384
         && |env.items[i].payload| <= if env.items[i].meta.length == None then 16384 else 1048576
  }

  /** What is written down is read back exactly within these limits. */
  lemma LimitsAreMet(dec: Decoder, env: Envelope)
    requires Writable(dec, env)
    ensures Parse(dec, Render(env)) == Ok(env) <==> WithinLimits(env)
  {
    if WithinLimits(env) {
      forall i | 0 <= i < |env.items|
        ensures WellFormedItem(dec, env.items[i])
      {
        assert WritableItem(dec, env.items[i]);
      }
      RenderThenParse(dec, env);
    }
    if Parse(dec, Render(env)) == Ok(env) {
      ParseIffDerives(dec, Render(env), env);
      forall i | 0 <= i < |env.items|
        ensures |env.items[i].raw| <= 16384
        ensures |env.items[i].payload| <= if env.items[i].meta.length == None then 16384 else 1048576
      {
        assert WellFormedItem(dec, env.items[i]) && WritableItem(dec, env.items[i]);
      }
    }
  }

  // ---------------------------------------------------------------- offsets

  /** Length of an envelope's header line and of these items after it, all newlines counted. */
  function Size(raw: bytes, items: seq<Item>): nat {
    |raw| + 1 + |RenderItems(items)|
  }

  /** Offset of the payload of item `i` in the body. */
  function Offset(raw: bytes, items: seq<Item>, i: nat): nat
    requires i < |items|
  {
    Size(raw, items[..i]) + |items[i].raw| + 1
  }

  lemma {:induction false} SizeAppend(raw: bytes, items: seq<Item>, it: Item)
    ensures Size(raw, items + [it]) == Size(raw, items) + |it.raw| + |it.payload| + 2
  {
    if items == [] {
      assert items + [it] == [it];
    } else {
      SizeAppend(raw, items[1..], it);
      assert (items + [it])[1..] == items[1..] + [it];
    }
  }

  /**
   How much of `s` one item takes: its newlines may be missing at the end of the body.
   A line payload is right behind the header line.
   */
  lemma ItemSize(dec: Decoder, s: bytes, it: Item, u: bytes)
    requires NextItem(dec, s) == Ok(Some((it, u)))
    ensures s != []
    ensures var size := |it.raw| + |it.payload| + 2;
            || |s| - |u| == size
            || (u == [] && |s| == size - 1)
            || (u == [] && |s| == size - 2 && it.meta.length == Some(0) && it.payload == [])
    ensures it.meta.length == None ==>
              var lo := |it.raw| + 1; lo + |it.payload| <= |s| && s[lo..lo + |it.payload|] == it.payload
  {
    StepSound(dec, s, it, u);
    HeadSound(dec, s, it, u);
    if s != RenderItem(it) + u && it.meta.length == None {
      if s == RenderItem(it) + [NL] {
      } else {
        assert s == (s + [NL])[..|s|] == RenderItem(it)[..|s|];
      }
    }
  }
}
