/**
 Which error a body is refused with: what is wrong with it, and where, said without
 mentioning how it is read.
 */
module EnvelopeFaults {
  import opened Base
  import opened EnvelopeGrammar

  // ---------------------------------------------------------------- what can be wrong

  /** No newline in sight. */
  ghost predicate LongLine(s: bytes) {
    |s| > 16384 && NL !in s[..16385]
  }

  /** `s` is the line `t` and then `u`. */
  ghost predicate StartsLine(s: bytes, t: bytes, u: bytes) {
    NL !in t && |t| <= 16384 && (s == t + [NL] + u || (s == t && u == [] && t != []))
  }

  /** What is wrong with the payload at the front of `s`. */
  ghost predicate BadPayload(meta: ItemMeta, s: bytes, f: Fault) {
    match meta.length
    case Some(n) =>
      match f {
        case NegativeLength => n < 0
        case PayloadTooLarge => n > 1048576
        case PayloadTruncated => |s| < n <= 1048576
        case PayloadNotFollowedByNewline => 0 <= n < |s| && n <= 1048576 && s[n] != NL
        case _ => false
      }
    case None =>
      match f {
        case PayloadMissing => s == []
        case PayloadLineTooLong => LongLine(s)
        case _ => false
      }
  }

  /** What is wrong at the front of `s`, where the item header of item `n` should be. */
  ghost predicate BadItem(dec: Decoder, s: bytes, n: nat, f: Fault) {
    if n >= 100 then f == TooManyItems
    else
      match f
      case ItemHeaderTooLong => LongLine(s) || (s != [] && s[0] == NL && LongLine(s[1..]))
      case EmptyItemHeader => |s| >= 2 && s[0] == NL && s[1] == NL
      case EmptyItemHeaderBeforeContent => |s| >= 2 && s[0] == NL && s[1] != NL && !LongLine(s[1..])
      case ItemHeaderNotJson => exists t, u :: StartsLine(s, t, u) && t != [] && dec.item(t) == None
      case _ =>
        exists t, u :: StartsLine(s, t, u) && t != [] && dec.item(t).Some? && BadPayload(dec.item(t).value, u, f)
  }

  /** The item takes `s` up to `u`; newlines may be missing only where the body ends. */
  ghost predicate Takes(s: bytes, it: Item, u: bytes) {
    || s == RenderItem(it) + u
    || (u == [] && s == it.raw + [NL] + it.payload && (it.meta.length == None ==> it.payload != []))
    || (u == [] && s == it.raw && it.meta.length == Some(0))
  }

  ghost predicate TakesAll(s: bytes, items: seq<Item>, rest: bytes)
    decreases |items|
  {
    if items == [] then s == rest else exists u :: Takes(s, items[0], u) && TakesAll(u, items[1..], rest)
  }

  /** Behind these items, items `n` and on of the envelope, something is wrong. */
  ghost predicate BadBehind(dec: Decoder, s: bytes, n: nat, f: Fault, items: seq<Item>, rest: bytes) {
    && WellFormedItems(dec, items) && TakesAll(s, items, rest)
    && n + |items| <= 100 && BadItem(dec, rest, n + |items|, f)
  }

  /** What is wrong with a body. */
  ghost predicate Bad(dec: Decoder, body: bytes, f: Fault) {
    match f
    case HeaderMissing => body == []
    case HeaderTooLong => LongLine(body)
    case HeaderEmpty => body != [] && body[0] == NL
    case HeaderNotJson => exists t, s :: StartsLine(body, t, s) && t != [] && dec.header(t) == None
    case _ =>
      exists t, s, items, rest ::
        StartsLine(body, t, s) && t != [] && dec.header(t).Some? && BadBehind(dec, s, 0, f, items, rest)
  }

  // ---------------------------------------------------------------- lines

  lemma LineIff(s: bytes, t: bytes, u: bytes)
    ensures NextLine(s) == Line(t, u) <==> StartsLine(s, t, u)
  {
    if StartsLine(s, t, u) {
      if s == t + [NL] + u {
        NextLineTerminated(t, u);
      } else {
        NextLineAtEnd(t);
      }
    }
    if NextLine(s) == Line(t, u) {
      NextLineSound(s);
    }
  }

  lemma LongIff(s: bytes)
    ensures NextLine(s) == TooLong <==> LongLine(s)
  {
    var k := FindNewline(s);
    if LongLine(s) {
      assert forall i | 0 <= i < 16385 :: s[i] == s[..16385][i];
    } else if |s| > 16384 {
      var i :| 0 <= i < 16385 && s[..16385][i] == NL;
      assert s[i] == NL;
    }
  }

  lemma BlankIff(s: bytes, u: bytes)
    ensures NextLine(s) == Line([], u) <==> s != [] && s[0] == NL && u == s[1..]
  {
    LineIff(s, [], u);
    if s != [] && s[0] == NL {
      assert s == [] + [NL] + s[1..];
    }
  }

  lemma EofIff(s: bytes)
    ensures NextLine(s) == AtEof <==> s == []
  {}

  // ---------------------------------------------------------------- one item

  lemma PayloadIff(meta: ItemMeta, s: bytes, f: Fault)
    ensures NextPayload(meta, s) == Err(f) <==> BadPayload(meta, s, f)
  {
    LongIff(s);
    EofIff(s);
  }

  lemma AfterBlankIff(s: bytes, f: Fault)
    ensures AfterBlankLine(s) == Err(f) <==>
            match f
            case ItemHeaderTooLong => LongLine(s)
            case EmptyItemHeader => s != [] && s[0] == NL
            case EmptyItemHeaderBeforeContent => s != [] && s[0] != NL && !LongLine(s)
            case _ => false
  {
    LongIff(s);
    EofIff(s);
    BlankIff(s, if s == [] then [] else s[1..]);
    if NextLine(s).Line? && NextLine(s).text == [] {
      BlankIff(s, NextLine(s).rest);
    }
  }

  lemma HeaderIff(dec: Decoder, s: bytes, t: bytes, u: bytes, f: Fault)
    requires NextLine(s) == Line(t, u) && t != []
    ensures AfterHeader(dec, t, u) == Err(f) <==>
            if dec.item(t) == None then f == ItemHeaderNotJson else BadPayload(dec.item(t).value, u, f)
  {
    if dec.item(t).Some? {
      PayloadIff(dec.item(t).value, u, f);
      if f == ItemHeaderNotJson {
        assert !BadPayload(dec.item(t).value, u, f);
      }
    }
  }

  lemma BadItemLine(dec: Decoder, s: bytes, n: nat, t: bytes, u: bytes, f: Fault)
    requires n < 100 && StartsLine(s, t, u) && t != []
    ensures BadItem(dec, s, n, f) <==>
            if dec.item(t) == None then f == ItemHeaderNotJson else BadPayload(dec.item(t).value, u, f)
  {
    assert s[0] == t[0] && t[0] in t;
    LineIff(s, t, u);
    LongIff(s);
    forall t2, u2 | StartsLine(s, t2, u2)
      ensures t2 == t && u2 == u
    {
      LineIff(s, t2, u2);
    }
  }

  lemma BadItemOther(dec: Decoder, s: bytes, n: nat, f: Fault)
    requires n < 100 && (forall t, u | StartsLine(s, t, u) :: t == [])
    ensures BadItem(dec, s, n, f) <==>
            match f
            case ItemHeaderTooLong => LongLine(s) || (s != [] && s[0] == NL && LongLine(s[1..]))
            case EmptyItemHeader => |s| >= 2 && s[0] == NL && s[1] == NL
            case EmptyItemHeaderBeforeContent => |s| >= 2 && s[0] == NL && s[1] != NL && !LongLine(s[1..])
            case _ => false
  {}

  lemma NextItemIff(dec: Decoder, s: bytes, n: nat, f: Fault)
    requires n < 100
    ensures NextItem(dec, s) == Err(f) <==> BadItem(dec, s, n, f)
  {
    match NextLine(s) {
      case Line(t, u) =>
        LineIff(s, t, u);
        if t == [] {
          BlankItemIff(dec, s, n, f);
        } else {
          BadItemLine(dec, s, n, t, u, f);
          HeaderIff(dec, s, t, u, f);
        }
      case TooLong =>
        LongIff(s);
        NoLine(s);
        BadItemOther(dec, s, n, f);
        assert s[0] == s[..16385][0];
      case AtEof =>
        NoLine(s);
        BadItemOther(dec, s, n, f);
    }
  }

  lemma NoLine(s: bytes)
    requires !NextLine(s).Line?
    ensures forall t, u :: !StartsLine(s, t, u)
  {
    forall t, u
      ensures !StartsLine(s, t, u)
    {
      LineIff(s, t, u);
    }
  }

  lemma BlankItemIff(dec: Decoder, s: bytes, n: nat, f: Fault)
    requires n < 100 && NextLine(s).Line? && NextLine(s).text == []
    ensures NextItem(dec, s) == Err(f) <==> BadItem(dec, s, n, f)
  {
    BlankIff(s, NextLine(s).rest);
    forall t, u | StartsLine(s, t, u)
      ensures t == []
    {
      LineIff(s, t, u);
    }
    BadItemOther(dec, s, n, f);
    LongIff(s);
    AfterBlankIff(s[1..], f);
  }

  // ---------------------------------------------------------------- the items in front

  lemma TakesIff(dec: Decoder, s: bytes, it: Item, u: bytes)
    ensures NextItem(dec, s) == Ok(Some((it, u))) <==> WellFormedItem(dec, it) && Takes(s, it, u)
  {
    if NextItem(dec, s) == Ok(Some((it, u))) {
      StepSound(dec, s, it, u);
      HeadSound(dec, s, it, u);
      TakesSound(dec, s, it, u);
    }
    if WellFormedItem(dec, it) && Takes(s, it, u) {
      TakesComplete(dec, s, it, u);
    }
  }

  lemma TakesSound(dec: Decoder, s: bytes, it: Item, u: bytes)
    requires ReadsItem(dec, s, it, u) && WellFormedItem(dec, it)
    ensures Takes(s, it, u)
  {
    var rest := NextLine(s).rest;
    NextLineSound(s);
    PayloadSound(it.meta, rest);
    if rest == it.payload + [NL] + u {
      if s == it.raw + [NL] + rest {
        assert s == RenderItem(it) + u;
      }
    } else if s == it.raw + [NL] + rest {
      assert s == it.raw + [NL] + it.payload;
    }
  }

  lemma TakesComplete(dec: Decoder, s: bytes, it: Item, u: bytes)
    requires WellFormedItem(dec, it) && Takes(s, it, u)
    ensures NextItem(dec, s) == Ok(Some((it, u)))
  {
    if s == RenderItem(it) + u {
      SplitHead(it, s, u);
      NextLineTerminated(it.raw, it.payload + [NL] + u);
      PayloadComplete(it, u);
    } else if s == it.raw + [NL] + it.payload {
      NextLineTerminated(it.raw, it.payload);
      if it.meta.length == None {
        NextLineAtEnd(it.payload);
      }
    } else {
      NextLineAtEnd(it.raw);
    }
  }

  lemma ParseStep(dec: Decoder, s: bytes, n: nat, it: Item, u: bytes, f: Fault)
    requires n < 100 && NextItem(dec, s) == Ok(Some((it, u)))
    ensures ParseItems(dec, s, n) == Err(f) <==> ParseItems(dec, u, n + 1) == Err(f)
  {}

  lemma {:induction false} FaultFound(dec: Decoder, s: bytes, n: nat, f: Fault) returns (items: seq<Item>, rest: bytes)
    requires n <= 100 && ParseItems(dec, s, n) == Err(f)
    ensures BadBehind(dec, s, n, f, items, rest)
    decreases |s|
  {
    items, rest := [], s;
    if n < 100 {
      NextItemIff(dec, s, n, f);
      if NextItem(dec, s).Ok? {
        var (it, u) := NextItem(dec, s).value.value;
        ParseStep(dec, s, n, it, u, f);
        var more: seq<Item>;
        more, rest := FaultFound(dec, u, n + 1, f);
        items := [it] + more;
        TakesIff(dec, s, it, u);
        BadBehindMore(dec, s, n, f, it, u, more, rest);
      }
    }
  }

  lemma BadBehindMore(dec: Decoder, s: bytes, n: nat, f: Fault, it: Item, u: bytes, more: seq<Item>, rest: bytes)
    requires WellFormedItem(dec, it) && Takes(s, it, u) && BadBehind(dec, u, n + 1, f, more, rest)
    ensures BadBehind(dec, s, n, f, [it] + more, rest)
  {
    var items := [it] + more;
    assert items[1..] == more;
    assert TakesAll(s, items, rest);
    assert forall i | 0 <= i < |items| :: items[i] == if i == 0 then it else more[i - 1];
  }

  lemma FirstTaken(dec: Decoder, s: bytes, n: nat, f: Fault, items: seq<Item>, rest: bytes) returns (u: bytes)
    requires BadBehind(dec, s, n, f, items, rest) && items != []
    ensures n < 100 && NextItem(dec, s) == Ok(Some((items[0], u)))
    ensures BadBehind(dec, u, n + 1, f, items[1..], rest)
  {
    u :| Takes(s, items[0], u) && TakesAll(u, items[1..], rest);
    assert WellFormedItem(dec, items[0]);
    assert WellFormedItems(dec, items[1..]);
    TakesIff(dec, s, items[0], u);
  }

  lemma {:induction false} FaultMeant(dec: Decoder, s: bytes, n: nat, f: Fault, items: seq<Item>, rest: bytes)
    requires BadBehind(dec, s, n, f, items, rest)
    ensures ParseItems(dec, s, n) == Err(f)
    decreases |items|
  {
    if items == [] {
      if n < 100 {
        NextItemIff(dec, s, n, f);
      }
    } else {
      var u := FirstTaken(dec, s, n, f, items, rest);
      FaultMeant(dec, u, n + 1, f, items[1..], rest);
      ParseStep(dec, s, n, items[0], u, f);
    }
  }

  lemma ItemsFaultIff(dec: Decoder, s: bytes, f: Fault)
    ensures ParseItems(dec, s, 0) == Err(f) <==> exists items, rest :: BadBehind(dec, s, 0, f, items, rest)
  {
    if ParseItems(dec, s, 0) == Err(f) {
      var items, rest := FaultFound(dec, s, 0, f);
    }
    if items, rest :| BadBehind(dec, s, 0, f, items, rest) {
      FaultMeant(dec, s, 0, f, items, rest);
    }
  }

  // ---------------------------------------------------------------- whole bodies

  predicate OfHeader(f: Fault) {
    f.HeaderMissing? || f.HeaderTooLong? || f.HeaderEmpty? || f.HeaderNotJson?
  }

  lemma {:induction false} ItemsFault(dec: Decoder, s: bytes, n: nat, f: Fault)
    requires n <= 100 && ParseItems(dec, s, n) == Err(f)
    ensures !OfHeader(f)
  {
    var items, rest := FaultFound(dec, s, n, f);
  }

  /** A body is refused with an error exactly if that is what is wrong with it. */
  lemma FaultIff(dec: Decoder, body: bytes, f: Fault)
    ensures Parse(dec, body) == Err(f) <==> Bad(dec, body, f)
  {
    LongIff(body);
    EofIff(body);
    match NextLine(body) {
      case Line(t, s) =>
        LineIff(body, t, s);
        forall t2, s2 | StartsLine(body, t2, s2)
          ensures t2 == t && s2 == s
        {
          LineIff(body, t2, s2);
        }
        LineFaultIff(dec, body, t, s, f);
      case TooLong =>
        NoLine(body);
        assert body[0] == body[..16385][0];
      case AtEof =>
        NoLine(body);
    }
  }

  /** The header line is known: what can still be wrong. */
  lemma BadWithLine(dec: Decoder, body: bytes, t: bytes, s: bytes, f: Fault)
    requires StartsLine(body, t, s) && !LongLine(body)
    requires forall t2, s2 | StartsLine(body, t2, s2) :: t2 == t && s2 == s
    ensures Bad(dec, body, f) <==>
            if t == [] then f == HeaderEmpty
            else if dec.header(t) == None then f == HeaderNotJson
            else !OfHeader(f) && exists items, rest :: BadBehind(dec, s, 0, f, items, rest)
  {
    assert t != [] ==> body[0] == t[0] && t[0] in t;
  }

  lemma LineFaultIff(dec: Decoder, body: bytes, t: bytes, s: bytes, f: Fault)
    requires NextLine(body) == Line(t, s) && StartsLine(body, t, s) && !LongLine(body)
    requires forall t2, s2 | StartsLine(body, t2, s2) :: t2 == t && s2 == s
    ensures Parse(dec, body) == Err(f) <==> Bad(dec, body, f)
  {
    BadWithLine(dec, body, t, s, f);
    ItemsFaultIff(dec, s, f);
    if ParseItems(dec, s, 0) == Err(f) {
      ItemsFault(dec, s, 0, f);
    }
  }
}
