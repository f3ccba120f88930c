/**
 When line payloads of a body that fits the reader's window are as they were sent: only a
 last line that no newline ends moves bytes in the window, and it is known which.
 */
module SmallBodies {
  import opened Base
  import opened EnvelopeGrammar
  import opened Refills
  import opened SharedPayloads
  import EnvelopeReader

  /** The window after its first fill, with all of the body in it. */
  function Filled(body: bytes): Window {
    Window([0], |body|)
  }

  // ---------------------------------------------------------------- items that are ended

  /** An item whose two newlines are in the body is read without a refill. */
  lemma EndedItemStays(body: bytes, at: nat, it: Item)
    requires at + |it.raw| + |it.payload| + 2 <= |body|
    requires body[at + |it.raw|] == NL && body[at + |it.raw| + 1 + |it.payload|] == NL
    requires it.meta.length.Some? ==> it.meta.length.value == |it.payload|
    ensures AfterItem(body, Filled(body), at, it.raw, it.meta) == Filled(body)
  {
    var off := at + |it.raw| + 1;
    assert HasNewline(body, at, |body|) && HasNewline(body, off, |body|);
  }

  /** All of an envelope up to and with these items. */
  function Head(raw: bytes, items: seq<Item>): (h: bytes)
    ensures |h| == Size(raw, items) && h != []
  {
    raw + [NL] + RenderItems(items)
  }

  lemma HeadAppend(raw: bytes, front: seq<Item>, it: Item)
    ensures Head(raw, front + [it]) == Head(raw, front) + RenderItem(it)
  {
    RenderItemsAppend(front, [it]);
    assert RenderItems([it]) == RenderItem(it) + [];
  }

  lemma ItemNewlines(body: bytes, head: bytes, it: Item)
    requires head + RenderItem(it) <= body
    ensures head <= body && |head| + |it.raw| + |it.payload| + 2 <= |body|
    ensures body[|head| + |it.raw|] == NL && body[|head| + |it.raw| + 1 + |it.payload|] == NL
  {
    var full := head + RenderItem(it);
    assert body[|head| + |it.raw|] == full[|head| + |it.raw|] == RenderItem(it)[|it.raw|];
    assert body[|head| + |it.raw| + 1 + |it.payload|] == full[|head| + |it.raw| + 1 + |it.payload|];
  }

  predicate LengthAgrees(it: Item) {
    it.meta.length.Some? ==> it.meta.length.value == |it.payload|
  }

  lemma EndedItemInBody(body: bytes, head: bytes, it: Item)
    requires head + RenderItem(it) <= body && LengthAgrees(it)
    ensures head <= body && AfterItem(body, Filled(body), |head|, it.raw, it.meta) == Filled(body)
  {
    ItemNewlines(body, head, it);
    EndedItemStays(body, |head|, it);
  }

  lemma {:induction false} EndedItemsStay(body: bytes, raw: bytes, items: seq<Item>)
    requires 0 < |body| <= WINDOW && LengthsAgree(items) && Head(raw, items) <= body
    ensures AfterItems(body, raw, items) == Filled(body)
    decreases |items|
  {
    if items != [] {
      var front, it := items[..|items| - 1], items[|items| - 1];
      assert items == front + [it];
      HeadAppend(raw, front, it);
      EndedItemInBody(body, Head(raw, front), it);
      EndedItemsStay(body, raw, front);
    }
  }

  // ---------------------------------------------------------------- the last item

  function MovedByte(body: bytes, last: nat, k: nat): byte
    requires k < |body|
  {
    if last + k < |body| then body[last + k] else body[k]
  }

  /** The window shows the body, its front overwritten by what stands from offset `last` on. */
  ghost predicate Moved(body: bytes, refills: seq<nat>, last: nat) {
    forall k | 0 <= k < |body| :: Shown(body, refills, k) == MovedByte(body, last, k)
  }

  lemma FilledShows(body: bytes)
    requires |body| <= WINDOW
    ensures forall k | 0 <= k < |body| :: Shown(body, [0], k) == body[k]
    ensures Moved(body, [0], |body|)
  {
    assert Add([], 0) == [0];
    forall k | 0 <= k < |body|
      ensures Shown(body, [0], k) == body[k]
    {
      ShownAdd(body, [], 0, k);
    }
  }

  lemma RefillMoves(body: bytes, refills: seq<nat>, last: nat)
    requires |body| <= WINDOW && forall k | 0 <= k < |body| :: Shown(body, refills, k) == body[k]
    ensures Moved(body, Add(refills, last), last)
  {
    forall k | 0 <= k < |body|
      ensures Shown(body, Add(refills, last), k) == MovedByte(body, last, k)
    {
      ShownAdd(body, refills, last, k);
    }
  }

  /** A refill at the end puts nothing into the window. */
  lemma EndMovesNothing(body: bytes, refills: seq<nat>, last: nat)
    requires Moved(body, refills, last)
    ensures Moved(body, Add(refills, |body|), last)
  {
    forall k | 0 <= k < |body|
      ensures Shown(body, Add(refills, |body|), k) == MovedByte(body, last, k)
    {
      ShownAdd(body, refills, |body|, k);
    }
  }

  /** A line payload that ends with the body is moved to the front. */
  lemma UnendedLineMoves(body: bytes, at: nat, it: Item)
    requires |body| <= WINDOW && at + |it.raw| + 1 + |it.payload| == |body| && body[at + |it.raw|] == NL
    requires it.meta.length == None && it.payload != [] && NL !in it.payload && HoldsAt(body, at + |it.raw| + 1, it.payload)
    ensures AfterItem(body, Filled(body), at, it.raw, it.meta) == Window([0, at + |it.raw| + 1], |body|)
  {
    var off := at + |it.raw| + 1;
    assert HasNewline(body, at, |body|);
    assert forall k | off <= k < |body| :: body[k] == body[off..off + |it.payload|][k - off];
  }

  /** A declared payload that ends with the body moves nothing. */
  lemma UnendedPayloadStays(body: bytes, at: nat, it: Item)
    requires |body| <= WINDOW && at + |it.raw| + 1 + |it.payload| == |body| && body[at + |it.raw|] == NL
    requires it.meta.length == Some(|it.payload|)
    ensures AfterItem(body, Filled(body), at, it.raw, it.meta) == Window([0, |body|], |body|)
  {
    assert HasNewline(body, at, |body|);
  }

  /** An item header that ends with the body is moved to the front. */
  lemma UnendedHeaderMoves(body: bytes, at: nat, it: Item)
    requires 0 < at && |body| <= WINDOW && at + |it.raw| == |body| && it.raw != [] && NL !in it.raw
    requires it.meta.length == Some(0) && HoldsAt(body, at, it.raw)
    ensures AfterItem(body, Filled(body), at, it.raw, it.meta) == Window([0, at, |body|], |body|)
  {
    assert forall k | at <= k < |body| :: body[k] == body[at..at + |it.raw|][k - at];
  }

  // ---------------------------------------------------------------- ends of a body

  /** `t` spells the item: with both newlines and maybe one more, without the last, or without both. */
  ghost predicate SpellsItem(t: bytes, it: Item) {
    || t == RenderItem(it)
    || t == RenderItem(it) + [NL]
    || (t == it.raw + [NL] + it.payload && (it.meta.length == None ==> it.payload != []))
    || (t == it.raw && it.meta.length == Some(0) && it.payload == [])
  }

  lemma OneItemSpelled(t: bytes, it: Item)
    requires Spells(t, RenderItem(it), [it]) && (it.meta.length == Some(0) ==> it.payload == [])
    ensures SpellsItem(t, it)
  {
    var full := RenderItem(it);
    if t + [NL] == full {
      assert t == full[..|full| - 1] == it.raw + [NL] + it.payload;
    } else if t + [NL, NL] == full {
      assert t == full[..|full| - 2] == it.raw;
    }
  }

  /** A parsed body is its front and a spelling of its last item. */
  lemma CutLast(dec: Decoder, body: bytes, env: Envelope, front: seq<Item>, it: Item) returns (t: bytes)
    requires Parse(dec, body) == Ok(env) && env.items == front + [it]
    ensures body == Head(env.raw, front) + t && SpellsItem(t, it)
    ensures LengthsAgree(front) && WellFormedItem(dec, it)
  {
    ParseIffDerives(dec, body, env);
    ParsedLengths(dec, body, env);
    HeadAppend(env.raw, front, it);
    var head := Head(env.raw, front);
    assert RenderItems([it]) == RenderItem(it) + [];
    assert Render(env) == head + RenderItems([it]);
    assert WellFormedItem(dec, env.items[|front|]);
    assert Last(env.items) == it == Last([it]);
    t := SpellsCut(head, body, [it]);
    OneItemSpelled(t, it);
    assert forall i | 0 <= i < |front| :: front[i] == env.items[i];
  }

  /** Where the last line begins, if no newline ends it: a payload, or a header that declares nothing. */
  function UnendedAt(body: bytes, env: Envelope): int {
    if env.items == [] then |body| else LastLineAt(|body|, Size(env.raw, env.items) - |body|, Last(env.items))
  }

  function LastLineAt(n: nat, missing: int, it: Item): int {
    if missing <= 0 then n
    else if it.meta.length == None then n - |it.payload|
    else if missing == 2 then n - |it.raw|
    else n
  }

  /** The window is read up, and shows the body with its front overwritten from `last` on. */
  ghost predicate Done(body: bytes, win: Window, last: nat) {
    win.refills != [] && win.end == |body| && Moved(body, win.refills, last)
  }

  lemma HeaderEnds(body: bytes, head: bytes, it: Item)
    requires body == head + (it.raw + [NL] + it.payload)
    ensures |head| + |it.raw| + 1 + |it.payload| == |body| && body[|head| + |it.raw|] == NL
    ensures HoldsAt(body, |head| + |it.raw| + 1, it.payload)
  {
    assert body == (head + it.raw) + [NL] + it.payload;
  }

  /** What these refills show in the end. */
  lemma RefillsDone(body: bytes, last: nat)
    requires |body| <= WINDOW && 0 < last
    ensures Done(body, Filled(body), |body|)
    ensures Done(body, Window([0, last], |body|), last)
    ensures Done(body, Window([0, last, |body|], |body|), last) || last == |body|
  {
    FilledShows(body);
    RefillMoves(body, [0], last);
    assert Add([0], last) == [0, last];
    EndMovesNothing(body, [0, last], last);
    assert last != |body| ==> Add([0, last], |body|) == [0, last, |body|];
  }

  lemma LineMoves(body: bytes, head: bytes, it: Item)
    requires |body| <= WINDOW && body == head + (it.raw + [NL] + it.payload)
    requires it.meta.length == None && it.payload != [] && NL !in it.payload
    ensures AfterItem(body, Filled(body), |head|, it.raw, it.meta) == Window([0, |body| - |it.payload|], |body|)
    ensures |head| + |it.raw| + 1 + |it.payload| == |body|
  {
    HeaderEnds(body, head, it);
    UnendedLineMoves(body, |head|, it);
  }

  lemma DeclaredStays(body: bytes, head: bytes, it: Item)
    requires |body| <= WINDOW && body == head + (it.raw + [NL] + it.payload) && it.meta.length == Some(|it.payload|)
    ensures AfterItem(body, Filled(body), |head|, it.raw, it.meta) == Window([0, |body|], |body|)
  {
    HeaderEnds(body, head, it);
    UnendedPayloadStays(body, |head|, it);
  }

  lemma HeaderMoves(body: bytes, head: bytes, it: Item)
    requires |body| <= WINDOW && head != [] && body == head + it.raw && it.raw != [] && NL !in it.raw
    requires it.meta.length == Some(0)
    ensures AfterItem(body, Filled(body), |head|, it.raw, it.meta) == Window([0, |head|, |body|], |body|)
  {
    UnendedHeaderMoves(body, |head|, it);
  }

  /** After the last item, when `head` is in front of it. */
  lemma LastItemDone(body: bytes, head: bytes, t: bytes, it: Item)
    requires head != [] && body == head + t && SpellsItem(t, it) && |body| <= WINDOW
    requires it.raw != [] && NL !in it.raw && LengthAgrees(it) && (it.meta.length == None ==> NL !in it.payload)
    ensures var missing := |head| + |it.raw| + |it.payload| + 2 - |body|;
            var win := AfterItem(body, Filled(body), |head|, it.raw, it.meta);
            && missing <= 2 && LastLineAt(|body|, missing, it) >= 0
            && Done(body, win, LastLineAt(|body|, missing, it))
            && (it.meta.length == None ==>
                  Last(win.refills) == if missing <= 0 then 0 else |head| + |it.raw| + 1)
  {
    var off := |head| + |it.raw| + 1;
    RefillsDone(body, |body|);
    if t == RenderItem(it) || t == RenderItem(it) + [NL] {
      assert head + RenderItem(it) <= body;
      EndedItemInBody(body, head, it);
    } else if t == it.raw + [NL] + it.payload {
      if it.meta.length == None {
        LineMoves(body, head, it);
        RefillsDone(body, off);
      } else {
        DeclaredStays(body, head, it);
      }
    } else {
      HeaderMoves(body, head, it);
      RefillsDone(body, |head|);
    }
  }

  // ---------------------------------------------------------------- whole bodies

  lemma EndDone(body: bytes, win: Window, at: nat, last: nat)
    requires Done(body, win, last) && at <= |body| && (at < |body| ==> body[|body| - 1] == NL)
    ensures Moved(body, AfterEnd(body, win, at).refills, last)
  {
    EndMovesNothing(body, win.refills, last);
    if at < |body| {
      assert HasNewline(body, at, |body|);
    }
  }

  lemma SpellingEnds(t: bytes, it: Item)
    requires SpellsItem(t, it) && |t| > |it.raw| + |it.payload| + 2
    ensures t[|t| - 1] == NL
  {}

  /** A parsed body, cut in front of its last item. */
  ghost predicate Cut(body: bytes, env: Envelope, front: seq<Item>, it: Item, t: bytes) {
    && env.items == front + [it] && body == Head(env.raw, front) + t && |body| <= WINDOW
    && SpellsItem(t, it) && LengthsAgree(front)
    && it.raw != [] && NL !in it.raw && LengthAgrees(it) && (it.meta.length == None ==> NL !in it.payload)
  }

  lemma ParsedIsCut(dec: Decoder, body: bytes, env: Envelope, front: seq<Item>, it: Item) returns (t: bytes)
    requires Parse(dec, body) == Ok(env) && env.items == front + [it] && |body| <= WINDOW
    ensures Cut(body, env, front, it, t)
  {
    t := CutLast(dec, body, env, front, it);
  }

  lemma CutMissing(body: bytes, env: Envelope, front: seq<Item>, it: Item, t: bytes)
    requires Cut(body, env, front, it, t)
    ensures Size(env.raw, env.items) == Size(env.raw, front) + |it.raw| + |it.payload| + 2
    ensures UnendedAt(body, env) == LastLineAt(|body|, Size(env.raw, front) + |it.raw| + |it.payload| + 2 - |body|, it)
    ensures Size(env.raw, env.items) < |body| ==> body[|body| - 1] == NL
  {
    SizeAppend(env.raw, front, it);
    if Size(env.raw, env.items) < |body| {
      SpellingEnds(t, it);
    }
  }

  lemma LastRead(body: bytes, env: Envelope, front: seq<Item>, it: Item, t: bytes)
    requires Cut(body, env, front, it, t)
    ensures AfterItems(body, env.raw, env.items) == AfterItem(body, Filled(body), Size(env.raw, front), it.raw, it.meta)
  {
    EndedItemsStay(body, env.raw, front);
    EnvelopeReader.AfterItemsMore(body, env.raw, front, it);
  }

  lemma CutDone(body: bytes, env: Envelope, front: seq<Item>, it: Item, t: bytes, win: Window)
    requires Cut(body, env, front, it, t) && win == AfterItem(body, Filled(body), Size(env.raw, front), it.raw, it.meta)
    ensures var missing := Size(env.raw, front) + |it.raw| + |it.payload| + 2 - |body|;
            var last := LastLineAt(|body|, missing, it);
            && last >= 0 && Done(body, win, last)
            && (it.meta.length == None ==> Last(win.refills) == if missing <= 0 then 0 else |body| - |it.payload|)
  {
    LastItemDone(body, Head(env.raw, front), t, it);
  }

  /** The window when all items are read, and where the last line payload is returned. */
  lemma ItemsDone(body: bytes, env: Envelope, front: seq<Item>, it: Item, t: bytes, win: Window)
    requires Cut(body, env, front, it, t) && win == AfterItems(body, env.raw, env.items)
    ensures UnendedAt(body, env) >= 0 && Done(body, win, UnendedAt(body, env))
    ensures var base := if Size(env.raw, env.items) <= |body| then 0 else |body| - |it.payload|;
            it.meta.length == None ==> Last(win.refills) == base
  {
    LastRead(body, env, front, it, t);
    CutDone(body, env, front, it, t, win);
    CutMissing(body, env, front, it, t);
  }

  lemma AllDone(body: bytes, env: Envelope, front: seq<Item>, it: Item, t: bytes)
    requires Cut(body, env, front, it, t)
    ensures UnendedAt(body, env) >= 0 && Moved(body, AtLast(body, env).refills, UnendedAt(body, env))
  {
    ItemsDone(body, env, front, it, t, AfterItems(body, env.raw, env.items));
    CutMissing(body, env, front, it, t);
    var size := Size(env.raw, env.items);
    EndDone(body, AfterItems(body, env.raw, env.items), if size < |body| then size else |body|, UnendedAt(body, env));
  }

  lemma HeadOfFront(raw: bytes, front: seq<Item>, i: nat)
    requires i <= |front|
    ensures Head(raw, front[..i]) <= Head(raw, front)
  {
    RenderItemsAppend(front[..i], front[i..]);
    assert front[..i] + front[i..] == front;
  }

  /** Earlier payloads are returned where they are in the body. */
  lemma EarlierPlace(body: bytes, raw: bytes, front: seq<Item>, it: Item, i: nat)
    requires i < |front| && 0 < |body| <= WINDOW && LengthsAgree(front) && Head(raw, front) <= body
    ensures PlaceOf(body, raw, front + [it], i) == Offset(raw, front + [it], i)
  {
    assert (front + [it])[..i + 1] == front[..i + 1];
    HeadOfFront(raw, front, i + 1);
    EndedItemsStay(body, raw, front[..i + 1]);
  }

  /** The bytes of `p`, from offset `off` on, are the same as those behind `last` by as much. */
  ghost predicate SameBehind(body: bytes, last: int, off: nat, p: bytes) {
    forall k | 0 <= k < |p| && 0 <= last + off + k < |body| :: body[last + off + k] == p[k]
  }

  lemma ShowsIff(body: bytes, refills: seq<nat>, last: nat, off: nat, p: bytes)
    requires Moved(body, refills, last) && HoldsAt(body, off, p)
    ensures Shows(body, refills, off, p) <==> SameBehind(body, last, off, p)
  {
    assert forall k | 0 <= k < |p| :: p[k] == body[off..off + |p|][k] == body[off + k];
    if Shows(body, refills, off, p) {
      forall k | 0 <= k < |p| && 0 <= last + off + k < |body|
        ensures body[last + off + k] == p[k]
      {
        assert Shown(body, refills, off + k) == MovedByte(body, last, off + k);
      }
    } else {
      var k :| 0 <= k < |p| && Shown(body, refills, off + k) != p[k];
      assert Shown(body, refills, off + k) == MovedByte(body, last, off + k);
    }
  }

  lemma EarlierIff(dec: Decoder, body: bytes, env: Envelope, i: nat)
    requires Parse(dec, body) == Ok(env) && |body| <= WINDOW
    requires i < |env.items| - 1 && env.items[i].meta.length == None
    ensures KeptPayload(body, env, i) == env.items[i].payload <==>
            SameBehind(body, UnendedAt(body, env), Offset(env.raw, env.items, i), env.items[i].payload)
  {
    var front, it := env.items[..|env.items| - 1], Last(env.items);
    assert env.items == front + [it];
    var t := ParsedIsCut(dec, body, env, front, it);
    AllDone(body, env, front, it, t);
    EarlierPlace(body, env.raw, front, it, i);
    PayloadInBody(dec, body, env, i);
    KeptIff(body, env, i);
    ShowsIff(body, AtLast(body, env).refills, UnendedAt(body, env), Offset(env.raw, env.items, i), env.items[i].payload);
  }

  /** The last line itself is shown, wherever it was moved. */
  lemma LastStands(dec: Decoder, body: bytes, env: Envelope)
    requires Parse(dec, body) == Ok(env) && |body| <= WINDOW && env.items != []
    ensures KeptPayload(body, env, |env.items| - 1) == Last(env.items).payload
  {
    var i := |env.items| - 1;
    var front, it := env.items[..i], env.items[i];
    if it.meta.length == None {
      assert env.items == front + [it] && env.items[..i + 1] == env.items;
      var t := ParsedIsCut(dec, body, env, front, it);
      ItemsDone(body, env, front, it, t, AfterItems(body, env.raw, env.items));
      AllDone(body, env, front, it, t);
      CutMissing(body, env, front, it, t);
      PayloadInBody(dec, body, env, i);
      KeptIff(body, env, i);
      LastShows(body, AtLast(body, env).refills, UnendedAt(body, env), Offset(env.raw, env.items, i), it.payload,
                PlaceOf(body, env.raw, env.items, i));
    }
  }

  /** It is shown at its own offset if nothing was moved, and at the front if it was. */
  lemma LastShows(body: bytes, refills: seq<nat>, last: nat, off: nat, p: bytes, place: int)
    requires Moved(body, refills, last) && HoldsAt(body, off, p)
    requires (last == |body| && place == off) || (last == off && place == 0)
    ensures Shows(body, refills, place, p)
  {
    forall k | 0 <= k < |p|
      ensures Shown(body, refills, place + k) == p[k]
    {
      assert p[k] == body[off..off + |p|][k] == body[off + k];
      assert Shown(body, refills, place + k) == MovedByte(body, last, place + k);
    }
  }

  /** What payload `i` asks for to be as it was sent. */
  ghost predicate Alike(body: bytes, env: Envelope, i: nat)
    requires i < |env.items|
  {
    i < |env.items| - 1 && env.items[i].meta.length == None ==>
      SameBehind(body, UnendedAt(body, env), Offset(env.raw, env.items, i), env.items[i].payload)
  }

  lemma StandsIff(dec: Decoder, body: bytes, env: Envelope, i: nat)
    requires Parse(dec, body) == Ok(env) && |body| <= WINDOW && i < |env.items|
    ensures KeptPayload(body, env, i) == env.items[i].payload <==> Alike(body, env, i)
  {
    if i == |env.items| - 1 {
      LastStands(dec, body, env);
    } else if env.items[i].meta.length == None {
      EarlierIff(dec, body, env, i);
    }
  }

  /**
   Which bodies that fit the window are read without harm: those whose earlier line payloads
   hold the same bytes as the body does behind the beginning of its unended last line by as
   much as they are behind that of the body.
   */
  lemma UndisturbedIff(dec: Decoder, body: bytes, env: Envelope)
    requires Parse(dec, body) == Ok(env) && |body| <= WINDOW
    ensures Undisturbed(body, env) <==> forall i | 0 <= i < |env.items| :: Alike(body, env, i)
  {
    if Undisturbed(body, env) {
      forall i | 0 <= i < |env.items|
        ensures Alike(body, env, i)
      {
        StandsIff(dec, body, env, i);
      }
    } else {
      var i: nat :| i < |env.items| && KeptPayload(body, env, i) != env.items[i].payload;
      StandsIff(dec, body, env, i);
    }
  }

  ghost predicate EndedInWindow(body: bytes) {
    0 < |body| <= WINDOW && body[|body| - 1] == NL
  }

  lemma EndedHasNoUnended(dec: Decoder, body: bytes, env: Envelope)
    requires Parse(dec, body) == Ok(env) && EndedInWindow(body)
    ensures UnendedAt(body, env) == |body|
  {
    if env.items != [] {
      var front, it := env.items[..|env.items| - 1], Last(env.items);
      assert env.items == front + [it];
      var t := CutLast(dec, body, env, front, it);
      SizeAppend(env.raw, front, it);
      assert t != [] ==> t[|t| - 1] == NL;
    }
  }

  /** A body that fits the window and ends with a newline is read without harm. */
  lemma EndedBodiesStand(dec: Decoder, body: bytes, env: Envelope)
    requires Parse(dec, body) == Ok(env) && EndedInWindow(body)
    ensures Undisturbed(body, env)
  {
    EndedHasNoUnended(dec, body, env);
    UndisturbedIff(dec, body, env);
  }

  /** So is a body of any size whose items all declare their length. */
  lemma DeclaredLengthsStand(body: bytes, env: Envelope)
    requires forall i | 0 <= i < |env.items| :: env.items[i].meta.length.Some?
    ensures Undisturbed(body, env)
  {}
}
