/**
 When payloads kept as views of the reader's window are what was sent: what the exact
 condition comes to in cases a sender can check, and bodies for which it fails.
 */
module SharedPayloads {
  import opened Base
  import opened EnvelopeGrammar
  import opened Refills
  import opened EnvelopeReader

  // ---------------------------------------------------------------- where payloads are in a body

  lemma {:induction false} RenderItemsAppend(a: seq<Item>, b: seq<Item>)
    ensures RenderItems(a + b) == RenderItems(a) + RenderItems(b)
  {
    if a == [] {
      assert a + b == b;
    } else {
      assert (a + b)[0] == a[0] && (a + b)[1..] == a[1..] + b;
      RenderItemsAppend(a[1..], b);
      assert RenderItems(a + b) == RenderItem(a[0]) + (RenderItems(a[1..]) + RenderItems(b));
    }
  }

  /** A rendering in front of item `i`, the item, and what follows it. */
  lemma RenderSplits(env: Envelope, i: nat)
    requires i < |env.items|
    ensures Render(env)
         == (env.raw + [NL] + RenderItems(env.items[..i])) + (RenderItem(env.items[i]) + RenderItems(env.items[i + 1..]))
  {
    var items := env.items;
    assert items == items[..i] + items[i..];
    RenderItemsAppend(items[..i], items[i..]);
    assert items[i..][1..] == items[i + 1..];
  }

  lemma PayloadInRender(env: Envelope, i: nat)
    requires i < |env.items|
    ensures var off, p := Offset(env.raw, env.items, i), env.items[i].payload;
            && off + |p| + 1 + |RenderItems(env.items[i + 1..])| == |Render(env)|
            && HoldsAt(Render(env), off, p)
  {
    RenderSplits(env, i);
    var head := env.raw + [NL] + RenderItems(env.items[..i]);
    var it, rest := env.items[i], RenderItems(env.items[i + 1..]);
    assert Render(env) == (head + it.raw + [NL]) + it.payload + ([NL] + rest);
  }

  lemma LaterItemsAreLong(env: Envelope, i: nat)
    requires i + 1 < |env.items|
    ensures |RenderItems(env.items[i + 1..])| >= 2
  {
    RenderItemsEnd(env.items[i + 1..]);
  }

  ghost predicate HoldsAt(body: bytes, off: nat, p: bytes) {
    off + |p| <= |body| && body[off..off + |p|] == p
  }

  ghost predicate LengthsAgree(items: seq<Item>) {
    forall i | 0 <= i < |items| && items[i].meta.length.Some? :: items[i].meta.length.value == |items[i].payload|
  }

  lemma ParsedLengths(dec: Decoder, body: bytes, env: Envelope)
    requires Parse(dec, body) == Ok(env)
    ensures LengthsAgree(env.items)
    ensures forall i | 0 <= i < |env.items| && env.items[i].meta.length == None :: IsText(env.items[i].payload)
  {
    ParseIffDerives(dec, body, env);
    forall i | 0 <= i < |env.items|
      ensures WellFormedItem(dec, env.items[i])
    {}
  }

  /** Every line payload is in the body at its offset. */
  lemma PayloadInBody(dec: Decoder, body: bytes, env: Envelope, i: nat)
    requires Parse(dec, body) == Ok(env) && i < |env.items| && env.items[i].meta.length == None
    ensures HoldsAt(body, Offset(env.raw, env.items, i), env.items[i].payload)
  {
    ParseIffDerives(dec, body, env);
    PayloadInRender(env, i);
    if i + 1 < |env.items| {
      LaterItemsAreLong(env, i);
    }
    BodyInRender(body, env);
    HoldsInBody(body, Render(env), Offset(env.raw, env.items, i), env.items[i].payload);
  }

  lemma HoldsInBody(body: bytes, full: bytes, off: nat, p: bytes)
    requires HoldsAt(full, off, p) && off + |p| <= |body|
    requires forall k | 0 <= k < |body| && k < |full| :: body[k] == full[k]
    ensures HoldsAt(body, off, p)
  {}

  lemma BodyInRender(body: bytes, env: Envelope)
    requires Spells(body, Render(env), env.items)
    ensures |body| + 2 >= |Render(env)|
    ensures |body| + 2 == |Render(env)| ==> env.items != [] && Last(env.items).meta.length == Some(0)
    ensures forall k | 0 <= k < |body| && k < |Render(env)| :: body[k] == Render(env)[k]
  {
    var full := Render(env);
    if body + [NL] == full {
      assert body == full[..|body|];
    } else if body + [NL, NL] == full {
      assert body == full[..|body|];
    }
  }

  // ---------------------------------------------------------------- refills that do no harm

  /** `b` is the window `a` after some more refills. */
  ghost predicate Extends(a: Window, b: Window) {
    a.refills <= b.refills
  }

  /** No refill after the first `n` reaches index `lo` of the window. */
  ghost predicate OutOfReach(body: bytes, refills: seq<nat>, n: nat, lo: int) {
    forall i | n <= i < |refills| :: refills[i] + lo >= |body|
  }

  lemma {:induction false} ShownStays(body: bytes, refills: seq<nat>, n: nat, k: int)
    requires 0 < n <= |refills| && OutOfReach(body, refills, n, k)
    requires 0 <= k < WINDOW && refills[n - 1] + k < |body|
    ensures Shown(body, refills, k) == body[refills[n - 1] + k]
  {
    if n < |refills| {
      var front := refills[..|refills| - 1];
      ShownStays(body, front, n, k);
    }
  }

  lemma {:induction false} ItemsExtend(body: bytes, raw: bytes, items: seq<Item>, i: nat)
    requires i <= |items|
    ensures Extends(AfterItems(body, raw, items[..i]), AfterItems(body, raw, items))
    decreases |items|
  {
    if i == |items| {
      assert items[..i] == items;
    } else {
      var front := items[..|items| - 1];
      ItemsExtend(body, raw, front, i);
      assert front[..i] == items[..i];
      ItemExtends(body, AfterItems(body, raw, front), Size(raw, front), items[|items| - 1].raw, items[|items| - 1].meta);
    }
  }

  lemma ItemExtends(body: bytes, win: Window, at: nat, raw: bytes, meta: ItemMeta)
    ensures Extends(win, AfterItem(body, win, at, raw, meta))
  {}

  lemma EndExtends(body: bytes, win: Window, at: nat)
    ensures Extends(win, AfterEnd(body, win, at))
  {}

  // ---------------------------------------------------------------- places are in the window

  /** The window fits what is read next at offset `at`: it shows it, or it is used up. */
  ghost predicate Fits(win: Window, at: nat) {
    win.refills != [] && Last(win.refills) <= at && (at < win.end ==> win.end <= Last(win.refills) + WINDOW)
  }

  lemma PayloadFits(body: bytes, win: Window, at: nat, meta: ItemMeta, next: nat)
    requires Fits(win, at) && at < next
    requires meta.length.Some? ==> 0 <= meta.length.value && next == at + meta.length.value + 1
    ensures Fits(AfterPayload(body, win, at, meta), next)
  {
    if meta.length.Some? {
      BytesFit(|body|, win, at, meta.length.value);
    }
  }

  lemma BytesFit(size: nat, win: Window, at: nat, n: nat)
    requires Fits(win, at)
    ensures Fits(AfterBytes(size, win, at, n), at + n)
    ensures Fits(AfterByte(size, AfterBytes(size, win, at, n), at + n), at + n + 1)
  {}

  lemma LineFits(body: bytes, win: Window, at: nat, next: nat)
    requires Fits(win, at) && at < next
    ensures Fits(AfterLine(body, win, at), next)
  {}

  lemma ItemIsPayload(body: bytes, win: Window, at: nat, raw: bytes, meta: ItemMeta) returns (mid: Window)
    requires at + |raw| + 1 <= |body| && Fits(win, at)
    ensures AfterItem(body, win, at, raw, meta) == AfterPayload(body, mid, at + |raw| + 1, meta)
    ensures Fits(mid, at + |raw| + 1)
  {
    LineFits(body, win, at, at + |raw| + 1);
    mid := AfterLine(body, win, at);
  }

  lemma ItemFits(body: bytes, win: Window, at: nat, it: Item)
    requires Fits(win, at) && at + |it.raw| + 1 <= |body|
    requires it.meta.length.Some? ==> it.meta.length.value == |it.payload|
    ensures Fits(AfterItem(body, win, at, it.raw, it.meta), at + |it.raw| + |it.payload| + 2)
  {
    var mid := ItemIsPayload(body, win, at, it.raw, it.meta);
    PayloadFits(body, mid, at + |it.raw| + 1, it.meta, at + |it.raw| + |it.payload| + 2);
  }

  lemma {:induction false} ItemsFit(body: bytes, raw: bytes, items: seq<Item>)
    requires LengthsAgree(items) && Size(raw, items) <= |body|
    ensures Fits(AfterItems(body, raw, items), Size(raw, items))
    decreases |items|
  {
    if items != [] {
      var front, it := items[..|items| - 1], items[|items| - 1];
      assert items == front + [it];
      SizeAppend(raw, front, it);
      ItemsFit(body, raw, front);
      ItemFits(body, AfterItems(body, raw, front), Size(raw, front), it);
    }
  }

  /** A line is shown in full where it is returned. */
  lemma LinePlace(body: bytes, win: Window, off: nat, p: bytes)
    requires Fits(win, off) && IsText(p) && HoldsAt(body, off, p)
    ensures var lo := off - Last(AfterLine(body, win, off).refills); 0 <= lo && lo + |p| <= WINDOW
  {
    if HasNewline(body, off, win.end) {
      var k :| off <= k < win.end && k < |body| && body[k] == NL;
      assert forall j | off <= j < off + |p| :: body[j] == p[j - off];
    }
  }

  lemma PlaceIs(body: bytes, raw: bytes, items: seq<Item>, i: nat)
    requires i < |items|
    ensures PlaceOf(body, raw, items, i)
         == Offset(raw, items, i)
            - Last(AfterItem(body, AfterItems(body, raw, items[..i]), Size(raw, items[..i]),
                             items[i].raw, items[i].meta).refills)
  {
    assert items[..i + 1] == items[..i] + [items[i]];
    AfterItemsMore(body, raw, items[..i], items[i]);
  }

  lemma LineItemPlace(body: bytes, win: Window, at: nat, it: Item)
    requires Fits(win, at) && it.meta.length == None && IsText(it.payload)
    requires HoldsAt(body, at + |it.raw| + 1, it.payload)
    ensures var lo := at + |it.raw| + 1 - Last(AfterItem(body, win, at, it.raw, it.meta).refills);
            0 <= lo && lo + |it.payload| <= WINDOW
  {
    LineFits(body, win, at, at + |it.raw| + 1);
    LinePlace(body, AfterLine(body, win, at), at + |it.raw| + 1, it.payload);
  }

  lemma PlaceFitsAt(body: bytes, env: Envelope, i: nat)
    requires i < |env.items| && env.items[i].meta.length == None && IsText(env.items[i].payload)
    requires LengthsAgree(env.items) && HoldsAt(body, Offset(env.raw, env.items, i), env.items[i].payload)
    ensures 0 <= PlaceOf(body, env.raw, env.items, i)
    ensures PlaceOf(body, env.raw, env.items, i) + |env.items[i].payload| <= WINDOW
  {
    PlaceIs(body, env.raw, env.items, i);
    ItemsFit(body, env.raw, env.items[..i]);
    LineItemPlace(body, AfterItems(body, env.raw, env.items[..i]), Size(env.raw, env.items[..i]), env.items[i]);
  }

  lemma PlaceFits(dec: Decoder, body: bytes, env: Envelope, i: nat)
    requires Parse(dec, body) == Ok(env) && i < |env.items| && env.items[i].meta.length == None
    ensures 0 <= PlaceOf(body, env.raw, env.items, i)
    ensures PlaceOf(body, env.raw, env.items, i) + |env.items[i].payload| <= WINDOW
  {
    ParsedLengths(dec, body, env);
    PayloadInBody(dec, body, env, i);
    PlaceFitsAt(body, env, i);
  }

  // ---------------------------------------------------------------- what a sender can check

  lemma OutOfReachShows(body: bytes, refills: seq<nat>, n: nat, lo: nat, off: nat, p: bytes)
    requires 0 < n <= |refills| && refills[n - 1] + lo == off && lo + |p| <= WINDOW
    requires HoldsAt(body, off, p) && OutOfReach(body, refills, n, lo)
    ensures Shows(body, refills, lo, p)
  {
    forall k | 0 <= k < |p|
      ensures Shown(body, refills, lo + k) == p[k]
    {
      ShownStays(body, refills, n, lo + k);
      assert p[k] == body[off..off + |p|][k];
    }
  }

  /** From index `lo` on, `p` is shown. */
  ghost predicate Shows(body: bytes, refills: seq<nat>, lo: int, p: bytes) {
    forall k | 0 <= k < |p| :: Shown(body, refills, lo + k) == p[k]
  }

  lemma ShowsIffEqual(body: bytes, refills: seq<nat>, lo: int, shown: bytes, p: bytes)
    requires |shown| == |p| && forall k | 0 <= k < |p| :: shown[k] == Shown(body, refills, lo + k)
    ensures shown == p <==> Shows(body, refills, lo, p)
  {}

  lemma KeptIff(body: bytes, env: Envelope, i: nat)
    requires i < |env.items| && env.items[i].meta.length == None
    ensures KeptPayload(body, env, i) == env.items[i].payload <==>
            Shows(body, AtLast(body, env).refills, PlaceOf(body, env.raw, env.items, i), env.items[i].payload)
  {
    ShowsIffEqual(body, AtLast(body, env).refills, PlaceOf(body, env.raw, env.items, i),
                  ShownPayload(body, env, i), env.items[i].payload);
  }

  lemma RefillsExtend(body: bytes, env: Envelope, i: nat)
    requires i < |env.items|
    ensures AfterItems(body, env.raw, env.items[..i + 1]).refills <= AtLast(body, env).refills
  {
    ItemsExtend(body, env.raw, env.items, i + 1);
    var size := Size(env.raw, env.items);
    EndExtends(body, AfterItems(body, env.raw, env.items), if size < |body| then size else |body|);
  }

  lemma ShowsOutOfReach(body: bytes, refills: seq<nat>, first: seq<nat>, lo: nat, off: nat, p: bytes)
    requires first != [] && first <= refills && Last(first) + lo == off && lo + |p| <= WINDOW
    requires HoldsAt(body, off, p) && OutOfReach(body, refills, |first|, lo)
    ensures Shows(body, refills, lo, p)
  {
    assert refills[|first| - 1] == Last(first);
    OutOfReachShows(body, refills, |first|, lo, off, p);
  }

  /** A line payload is as it was sent if no refill after the one it is returned from reaches it. */
  lemma OutOfReachStands(dec: Decoder, body: bytes, env: Envelope, i: nat)
    requires Parse(dec, body) == Ok(env) && i < |env.items| && env.items[i].meta.length == None
    requires OutOfReach(body, AtLast(body, env).refills, |AfterItems(body, env.raw, env.items[..i + 1]).refills|,
                        PlaceOf(body, env.raw, env.items, i))
    ensures KeptPayload(body, env, i) == env.items[i].payload
  {
    PayloadInBody(dec, body, env, i);
    PlaceFits(dec, body, env, i);
    RefillsExtend(body, env, i);
    ShowsOutOfReach(body, AtLast(body, env).refills, AfterItems(body, env.raw, env.items[..i + 1]).refills,
                    PlaceOf(body, env.raw, env.items, i), Offset(env.raw, env.items, i), env.items[i].payload);
    KeptIff(body, env, i);
  }
}
