/** Three bodies whose line payloads are overwritten while the rest of the envelope is read. */
module SharedSamples {
  import opened Base
  import opened EnvelopeGrammar
  import opened Refills
  import opened EnvelopeReader
  import opened SharedPayloads

  const BRACES: bytes := [123, 125]

  /** `{}` decodes, as an envelope header and as an item header that declares no length. */
  ghost predicate BracesDecode(dec: Decoder, dsn: string, meta: ItemMeta) {
    dec.header(BRACES) == Some(dsn) && dec.item(BRACES) == Some(meta) && meta.length == None
  }

  lemma RenderOne(it: Item)
    ensures RenderItems([it]) == RenderItem(it)
  {
    assert [it][1..] == [];
    assert RenderItems([it]) == RenderItem(it) + RenderItems([it][1..]) == RenderItem(it);
  }

  lemma RenderTwo(a: Item, b: Item)
    ensures RenderItems([a, b]) == RenderItem(a) + RenderItem(b)
    ensures RenderItems([a, b][..1]) == RenderItem(a)
  {
    assert [a, b][1..] == [b] && [a, b][..1] == [a];
    RenderOne(a);
    RenderOne(b);
  }

  // ---------------------------------------------------------------- an unended last line

  // An envelope with two line payloads, `A` and seven `B`s, that does not end in a newline.
  const FIRST: bytes := [65]
  const SECOND: bytes := [66, 66, 66, 66, 66, 66, 66]
  const SAMPLE: bytes := BRACES + [NL] + (BRACES + [NL] + FIRST + [NL]) + (BRACES + [NL] + SECOND)

  function SampleItems(meta: ItemMeta): seq<Item> {
    [Item(BRACES, meta, FIRST), Item(BRACES, meta, SECOND)]
  }

  lemma SampleParses(dec: Decoder, dsn: string, meta: ItemMeta)
    requires BracesDecode(dec, dsn, meta)
    ensures Parse(dec, SAMPLE) == Ok(Envelope(BRACES, dsn, SampleItems(meta)))
    ensures Size(BRACES, SampleItems(meta)[..1]) == 8 && Size(BRACES, SampleItems(meta)) == 19
  {
    var items := SampleItems(meta);
    var env := Envelope(BRACES, dsn, items);
    RenderTwo(items[0], items[1]);
    assert SAMPLE + [NL] == Render(env);
    ParseIffDerives(dec, SAMPLE, env);
  }

  /** The second payload is read by a refill at its offset, 11. */
  lemma SampleRefills(dsn: string, meta: ItemMeta)
    requires meta.length == None
    requires Size(BRACES, SampleItems(meta)[..1]) == 8 && Size(BRACES, SampleItems(meta)) == 19
    ensures AfterItems(SAMPLE, BRACES, SampleItems(meta)[..1]) == Window([0], 18)
    ensures AtLast(SAMPLE, Envelope(BRACES, dsn, SampleItems(meta))).refills == [0, 11, 18]
  {
    var items := SampleItems(meta);
    assert items[..1][..0] == [] && items[..2] == items;
    assert Size(BRACES, []) == 3;
    assert SAMPLE[5] == NL && SAMPLE[7] == NL && SAMPLE[10] == NL;
    assert HasNewline(SAMPLE, 3, 18) && HasNewline(SAMPLE, 6, 18) && HasNewline(SAMPLE, 8, 18);
    assert AfterItems(SAMPLE, BRACES, items[..1]) == Window([0], 18);
    assert !HasNewline(SAMPLE, 11, 18);
    assert AfterItems(SAMPLE, BRACES, items) == Window([0, 11], 18);
  }

  /**
   Whatever `{}` decodes to, as long as it declares no length: the first payload of
   `SAMPLE` is overwritten by the end of the second.
   */
  lemma SampleIsDisturbed(dec: Decoder, dsn: string, meta: ItemMeta)
    requires BracesDecode(dec, dsn, meta)
    ensures Parse(dec, SAMPLE).Ok? && |SAMPLE| <= WINDOW
    ensures var env := Parse(dec, SAMPLE).value;
            env.items == SampleItems(meta) && KeptPayload(SAMPLE, env, 0) == [66] != env.items[0].payload
  {
    SampleParses(dec, dsn, meta);
    SampleShown(dsn, meta);
  }

  lemma SampleShown(dsn: string, meta: ItemMeta)
    requires meta.length == None
    requires Size(BRACES, SampleItems(meta)[..1]) == 8 && Size(BRACES, SampleItems(meta)) == 19
    ensures KeptPayload(SAMPLE, Envelope(BRACES, dsn, SampleItems(meta)), 0) == [66]
  {
    SampleRefills(dsn, meta);
    var items := SampleItems(meta);
    assert PlaceOf(SAMPLE, BRACES, items, 0) == 6 by {
      assert Size(BRACES, items[..0]) == 3;
    }
    assert [0, 11, 18][..2] == [0, 11];
    assert Shown(SAMPLE, [0, 11, 18], 6) == SAMPLE[17] == 66;
  }

  /** The reader at work on `SAMPLE`: with shared payloads, what it returns is not what was sent. */
  method ReadSample(dec: Decoder, dsn: string, meta: ItemMeta) returns (first: bytes)
    requires BracesDecode(dec, dsn, meta)
    ensures first != FIRST
  {
    var src := new Source(SAMPLE, true);
    SampleIsDisturbed(dec, dsn, meta);
    var parsed := ParseEnvelope(src, dec, false);
    var p := parsed.value.items[0].payload;
    assert Stands(p, KeptPayload(SAMPLE, Parse(dec, SAMPLE).value, 0));
    first := p.a[p.lo..p.hi];
  }

  // ---------------------------------------------------------------- longer than the window, all lines ended

  // Ten `A`s and 16370 `B`s, each line ended.
  function Ended(): bytes {
    BRACES + [NL] + (BRACES + [NL] + Repeat(65, 10) + [NL]) + (BRACES + [NL] + Repeat(66, 16370) + [NL])
  }

  function Repeat(b: byte, n: nat): (s: bytes)
    ensures |s| == n && forall k | 0 <= k < n :: s[k] == b
  {
    seq(n, _ => b)
  }

  function EndedItems(meta: ItemMeta): seq<Item> {
    [Item(BRACES, meta, Repeat(65, 10)), Item(BRACES, meta, Repeat(66, 16370))]
  }

  lemma EndedRenders(dsn: string, meta: ItemMeta)
    ensures Render(Envelope(BRACES, dsn, EndedItems(meta))) == Ended()
    ensures Size(BRACES, EndedItems(meta)[..1]) == 17 && Size(BRACES, EndedItems(meta)) == 16391
  {
    RenderTwo(EndedItems(meta)[0], EndedItems(meta)[1]);
  }

  lemma EndedParses(dec: Decoder, dsn: string, meta: ItemMeta)
    requires BracesDecode(dec, dsn, meta)
    ensures Parse(dec, Ended()) == Ok(Envelope(BRACES, dsn, EndedItems(meta)))
  {
    var env := Envelope(BRACES, dsn, EndedItems(meta));
    EndedRenders(dsn, meta);
    assert WellFormedItem(dec, env.items[0]) && WellFormedItem(dec, env.items[1]);
    RenderThenParse(dec, env);
  }

  lemma EndedBytes()
    ensures |Ended()| == 16391
    ensures Ended()[5] == NL && Ended()[16] == NL && Ended()[19] == NL && Ended()[16390] == NL
    ensures forall k | 20 <= k < 16390 :: Ended()[k] == 66
  {}

  /** The second payload does not fit behind the first: it is read by a refill at its offset, 20. */
  lemma EndedRefills(dsn: string, meta: ItemMeta)
    requires meta.length == None
    requires Size(BRACES, EndedItems(meta)[..1]) == 17 && Size(BRACES, EndedItems(meta)) == 16391
    ensures AfterItems(Ended(), BRACES, EndedItems(meta)[..1]) == Window([0], 16385)
    ensures AtLast(Ended(), Envelope(BRACES, dsn, EndedItems(meta))).refills == [0, 20, 16391]
  {
    var items := EndedItems(meta);
    EndedBytes();
    assert items[..1][..0] == [] && items[..2] == items;
    assert Size(BRACES, []) == 3;
    assert HasNewline(Ended(), 3, 16385) && HasNewline(Ended(), 6, 16385) && HasNewline(Ended(), 17, 16385);
    assert AfterItems(Ended(), BRACES, items[..1]) == Window([0], 16385);
    assert !HasNewline(Ended(), 20, 16385);
    assert AfterItems(Ended(), BRACES, items) == Window([0, 20], 16391);
  }

  /** Although every line is ended, the first payload becomes `B`s. */
  lemma EndedIsDisturbed(dec: Decoder, dsn: string, meta: ItemMeta)
    requires BracesDecode(dec, dsn, meta)
    ensures Parse(dec, Ended()).Ok? && Ended()[|Ended()| - 1] == NL
    ensures var env := Parse(dec, Ended()).value;
            env.items == EndedItems(meta) && KeptPayload(Ended(), env, 0)[0] == 66 != env.items[0].payload[0]
  {
    EndedParses(dec, dsn, meta);
    EndedRenders(dsn, meta);
    EndedBytes();
    EndedShown(dsn, meta);
  }

  lemma EndedShown(dsn: string, meta: ItemMeta)
    requires meta.length == None
    requires Size(BRACES, EndedItems(meta)[..1]) == 17 && Size(BRACES, EndedItems(meta)) == 16391
    ensures KeptPayload(Ended(), Envelope(BRACES, dsn, EndedItems(meta)), 0)[0] == 66
  {
    EndedRefills(dsn, meta);
    var items := EndedItems(meta);
    assert PlaceOf(Ended(), BRACES, items, 0) == 6 by {
      assert Size(BRACES, items[..0]) == 3;
    }
    EndedByte();
  }

  lemma EndedByte()
    ensures Shown(Ended(), [0, 20, 16391], 6) == 66
  {
    EndedBytes();
    assert [0, 20, 16391][..2] == [0, 20];
    assert Shown(Ended(), [0, 20, 16391], 6) == Ended()[26];
  }

  // One payload as long as a line may be, and the blank line that may end an envelope.
  function Blank(): bytes {
    BRACES + [NL] + (BRACES + [NL] + Repeat(65, MAX_LINE) + [NL]) + [NL]
  }

  lemma BlankParses(dec: Decoder, dsn: string, meta: ItemMeta)
    requires BracesDecode(dec, dsn, meta)
    ensures Parse(dec, Blank()) == Ok(Envelope(BRACES, dsn, [Item(BRACES, meta, Repeat(65, MAX_LINE))]))
    ensures Size(BRACES, [Item(BRACES, meta, Repeat(65, MAX_LINE))]) == 16391 && |Blank()| == 16392
  {
    var items := [Item(BRACES, meta, Repeat(65, MAX_LINE))];
    RenderOne(items[0]);
    ParseIffDerives(dec, Blank(), Envelope(BRACES, dsn, items));
  }

  lemma BlankBytes()
    ensures |Blank()| == 16392 && Blank()[5] == NL && Blank()[16390] == NL && Blank()[16391] == NL
    ensures forall k | 6 <= k < 16390 :: Blank()[k] == 65
  {}

  /** The payload fills the window from offset 6 on, and the blank line is read by one more refill. */
  lemma BlankRefills(dsn: string, meta: ItemMeta)
    requires meta.length == None && Size(BRACES, [Item(BRACES, meta, Repeat(65, MAX_LINE))]) == 16391
    ensures AfterItems(Blank(), BRACES, [Item(BRACES, meta, Repeat(65, MAX_LINE))]) == Window([0, 6], 16391)
    ensures AtLast(Blank(), Envelope(BRACES, dsn, [Item(BRACES, meta, Repeat(65, MAX_LINE))])).refills == [0, 6, 16391, 16392]
  {
    var items := [Item(BRACES, meta, Repeat(65, MAX_LINE))];
    BlankBytes();
    assert items[..0] == [] && Size(BRACES, []) == 3;
    assert HasNewline(Blank(), 3, 16385) && !HasNewline(Blank(), 6, 16385);
    assert AfterItems(Blank(), BRACES, items) == Window([0, 6], 16391);
    assert !HasNewline(Blank(), 16391, 16391);
  }

  /** Reading the blank line puts a newline at the front of the payload. */
  lemma BlankIsDisturbed(dec: Decoder, dsn: string, meta: ItemMeta)
    requires BracesDecode(dec, dsn, meta)
    ensures Parse(dec, Blank()).Ok?
    ensures var env := Parse(dec, Blank()).value;
            env.items == [Item(BRACES, meta, Repeat(65, MAX_LINE))] && KeptPayload(Blank(), env, 0)[0] == NL != env.items[0].payload[0]
  {
    BlankParses(dec, dsn, meta);
    BlankShown(dsn, meta);
  }

  lemma BlankShown(dsn: string, meta: ItemMeta)
    requires meta.length == None && Size(BRACES, [Item(BRACES, meta, Repeat(65, MAX_LINE))]) == 16391
    ensures KeptPayload(Blank(), Envelope(BRACES, dsn, [Item(BRACES, meta, Repeat(65, MAX_LINE))]), 0)[0] == NL
  {
    BlankRefills(dsn, meta);
    var items := [Item(BRACES, meta, Repeat(65, MAX_LINE))];
    assert items[..1] == items && items[..0] == [];
    assert PlaceOf(Blank(), BRACES, items, 0) == 0;
    BlankByte();
  }

  lemma BlankByte()
    ensures Shown(Blank(), [0, 6, 16391, 16392], 0) == NL
  {
    BlankBytes();
    assert [0, 6, 16391, 16392][..3] == [0, 6, 16391];
    assert Shown(Blank(), [0, 6, 16391, 16392], 0) == Blank()[16391];
  }
}
