/** The cursor handed to clients: a table key as JSON pairs in unpadded base64url. */
module Cursor {
  import opened Base

  // ---------------------------------------------------------------- base64url

  type Sextet = d: nat | d < 64

  /** The alphabet of section 5 of RFC 4648. */
  function EncodeSextet(d: Sextet): char {
    if d < 26 then 'A' + d as char
    else if d < 52 then 'a' + (d - 26) as char
    else if d < 62 then '0' + (d - 52) as char
    else if d == 62 then '-'
    else '_'
  }

  function DecodeSextet(c: char): Option<Sextet> {
    if 'A' <= c <= 'Z' then Some(c as int - 'A' as int)
    else if 'a' <= c <= 'z' then Some(c as int - 'a' as int + 26)
    else if '0' <= c <= '9' then Some(c as int - '0' as int + 52)
    else if c == '-' then Some(62)
    else if c == '_' then Some(63)
    else None
  }

  lemma SextetRoundTrip(d: Sextet)
    ensures DecodeSextet(EncodeSextet(d)) == Some(d)
    ensures EncodeSextet(d) != '\n' && EncodeSextet(d) != '\r'
  {}

  /** The ends of the four runs of table 2 of RFC 4648, and that characters follow each other within them. */
  lemma AlphabetRuns(d: Sextet)
    ensures EncodeSextet(0) == 'A' && EncodeSextet(25) == 'Z' && EncodeSextet(26) == 'a' && EncodeSextet(51) == 'z'
    ensures EncodeSextet(52) == '0' && EncodeSextet(61) == '9' && EncodeSextet(62) == '-' && EncodeSextet(63) == '_'
    ensures d < 61 && d != 25 && d != 51 ==> EncodeSextet(d + 1) as int == EncodeSextet(d) as int + 1
  {}

  /** The sextets of a byte string; the last one is filled up with zero bits. */
  function Sextets(s: bytes): seq<Sextet> {
    if |s| == 0 then []
    else if |s| == 1 then [High(s[0]), Low(s[0], 0)]
    else if |s| == 2 then [High(s[0]), Low(s[0], s[1]), Mid(s[1], 0)]
    else [High(s[0]), Low(s[0], s[1]), Mid(s[1], s[2]), Rest(s[2])] + Sextets(s[3..])
  }

  /** The four sextets of three bytes: 6, 2 + 4, 4 + 2 and 6 bits. */
  function High(a: byte): Sextet {
    a as int / 4
  }

  function Low(a: byte, b: byte): Sextet {
    a as int % 4 * 16 + b as int / 16
  }

  function Mid(b: byte, c: byte): Sextet {
    b as int % 16 * 4 + c as int / 64
  }

  function Rest(c: byte): Sextet {
    c as int % 64
  }

  /** The three bytes of four sextets. */
  function First(p: Sextet, q: Sextet): byte {
    (p as int * 4 + q as int / 16) as byte
  }

  function Second(q: Sextet, r: Sextet): byte {
    (q as int % 16 * 16 + r as int / 4) as byte
  }

  function Third(r: Sextet, t: Sextet): byte {
    (r as int % 4 * 64 + t as int) as byte
  }

  /** The bytes of some sextets; left-over bits are dropped, a single left-over sextet is an error. */
  function FromSextets(d: seq<Sextet>): Option<bytes> {
    if |d| == 0 then Some([])
    else if |d| == 1 then None
    else if |d| == 2 then Some([First(d[0], d[1])])
    else if |d| == 3 then Some([First(d[0], d[1]), Second(d[1], d[2])])
    else
      match FromSextets(d[4..])
      case None => None
      case Some(rest) => Some([First(d[0], d[1]), Second(d[1], d[2]), Third(d[2], d[3])] + rest)
  }

  lemma GroupRoundTrip(a: byte, b: byte, c: byte)
    ensures First(High(a), Low(a, b)) == a
    ensures Second(Low(a, b), Mid(b, c)) == b
    ensures Third(Mid(b, c), Rest(c)) == c
  {
    FirstBack(a, b);
    SecondBack(a, b, c);
    ThirdBack(b, c);
  }

  lemma FirstBack(a: byte, b: byte)
    ensures First(High(a), Low(a, b)) == a
  {
    var x, y := a as int, b as int;
    assert (x % 4 * 16 + y / 16) / 16 == x % 4;
  }

  lemma SecondBack(a: byte, b: byte, c: byte)
    ensures Second(Low(a, b), Mid(b, c)) == b
  {
    var x, y, z := a as int, b as int, c as int;
    assert (x % 4 * 16 + y / 16) % 16 == y / 16;
    assert (y % 16 * 4 + z / 64) / 4 == y % 16;
  }

  lemma ThirdBack(b: byte, c: byte)
    ensures Third(Mid(b, c), Rest(c)) == c
  {
    var y, z := b as int, c as int;
    assert (y % 16 * 4 + z / 64) % 4 == z / 64;
  }

  lemma {:induction false} SextetsRoundTrip(s: bytes)
    ensures FromSextets(Sextets(s)) == Some(s)
  {
    if |s| == 0 {
    } else if |s| == 1 {
      ShortRoundTrip(s);
    } else if |s| == 2 {
      ShortRoundTrip(s);
    } else {
      SextetsRoundTrip(s[3..]);
      GroupRoundTrip(s[0], s[1], s[2]);
      var d := Sextets(s);
      assert d[4..] == Sextets(s[3..]);
      LongRoundTrip(d, s);
    }
  }

  lemma ShortRoundTrip(s: bytes)
    requires 1 <= |s| <= 2
    ensures FromSextets(Sextets(s)) == Some(s)
  {
    if |s| == 1 {
      FirstBack(s[0], 0);
      ShortDecodes([High(s[0]), Low(s[0], 0)], s);
    } else {
      FirstBack(s[0], s[1]);
      SecondBack(s[0], s[1], 0);
      ShortDecodes([High(s[0]), Low(s[0], s[1]), Mid(s[1], 0)], s);
    }
  }

  lemma ShortDecodes(d: seq<Sextet>, s: bytes)
    requires 1 <= |s| <= 2 && |d| == |s| + 1
    requires First(d[0], d[1]) == s[0] && (|s| == 2 ==> Second(d[1], d[2]) == s[1])
    ensures FromSextets(d) == Some(s)
  {
    assert s == if |s| == 1 then [s[0]] else [s[0], s[1]];
  }

  /** One turn of decoding. */
  lemma LongRoundTrip(d: seq<Sextet>, s: bytes)
    requires |s| >= 3 && |d| >= 4 && FromSextets(d[4..]) == Some(s[3..])
    requires First(d[0], d[1]) == s[0] && Second(d[1], d[2]) == s[1] && Third(d[2], d[3]) == s[2]
    ensures FromSextets(d) == Some(s)
  {
    assert s == [s[0], s[1], s[2]] + s[3..];
  }

  function EncodeText(d: seq<Sextet>): string {
    if d == [] then "" else [EncodeSextet(d[0])] + EncodeText(d[1..])
  }

  /** Line ends are skipped; any other foreign character is an error. */
  function DecodeText(t: string): Option<seq<Sextet>> {
    if t == "" then Some([])
    else if t[0] == '\n' || t[0] == '\r' then DecodeText(t[1..])
    else
      match (DecodeSextet(t[0]), DecodeText(t[1..]))
      case (Some(d), Some(rest)) => Some([d] + rest)
      case _ => None
  }

  lemma {:induction false} TextRoundTrip(d: seq<Sextet>)
    ensures DecodeText(EncodeText(d)) == Some(d)
  {
    if d != [] {
      SextetRoundTrip(d[0]);
      TextRoundTrip(d[1..]);
      assert EncodeText(d)[1..] == EncodeText(d[1..]);
      assert d == [d[0]] + d[1..];
    }
  }

  predicate IsLetter(c: char) {
    'A' <= c <= 'Z' || 'a' <= c <= 'z' || '0' <= c <= '9' || c == '-' || c == '_'
  }

  function Letters(t: string): nat {
    if t == "" then 0 else (if IsLetter(t[0]) then 1 else 0) + Letters(t[1..])
  }

  lemma {:induction false} DecodesText(t: string)
    ensures DecodeText(t).Some? <==> forall i | 0 <= i < |t| :: IsLetter(t[i]) || t[i] == '\n' || t[i] == '\r'
    ensures DecodeText(t).Some? ==> |DecodeText(t).value| == Letters(t)
  {
    if t != "" {
      DecodesText(t[1..]);
      assert forall i | 1 <= i < |t| :: t[i] == t[1..][i - 1];
      assert forall i | 0 <= i < |t[1..]| :: t[1..][i] == t[i + 1];
    }
  }

  lemma FourAtATime(d: seq<Sextet>)
    requires |d| >= 4
    ensures FromSextets(d) == None <==> FromSextets(d[4..]) == None
  {}

  lemma FewSextets(d: seq<Sextet>)
    requires |d| < 4
    ensures FromSextets(d) == None <==> |d| == 1
  {}

  lemma {:induction false} DecodesSextets(d: seq<Sextet>)
    ensures FromSextets(d) == None <==> |d| % 4 == 1
    decreases |d|
  {
    if |d| < 4 {
      FewSextets(d);
    } else {
      FourAtATime(d);
      DecodesSextets(d[4..]);
      assert (|d| - 4) % 4 == |d| % 4;
    }
  }

  /** Letters of the alphabet and line ends, and no single letter left over behind groups of four. */
  predicate Decodable(t: string) {
    (forall i | 0 <= i < |t| :: IsLetter(t[i]) || t[i] == '\n' || t[i] == '\r') && Letters(t) % 4 != 1
  }

  lemma DecodableIff(t: string)
    ensures FromBase64(t).Some? <==> Decodable(t)
  {
    DecodesText(t);
    if DecodeText(t).Some? {
      DecodesSextets(DecodeText(t).value);
    }
  }

  function Base64(s: bytes): string {
    EncodeText(Sextets(s))
  }

  function FromBase64(t: string): Option<bytes> {
    match DecodeText(t)
    case None => None
    case Some(d) => FromSextets(d)
  }

  /** The number that some bytes are, the most significant first; and the number that some sextets are. */
  function BytesNumber(s: bytes): int {
    if s == [] then 0 else BytesNumber(s[..|s| - 1]) * 256 + s[|s| - 1] as int
  }

  function SextetsNumber(d: seq<Sextet>): int {
    if d == [] then 0 else SextetsNumber(d[..|d| - 1]) * 64 + d[|d| - 1]
  }

  lemma BytesNumberOf(a: byte, b: byte, c: byte)
    ensures BytesNumber([a]) == a as int
    ensures BytesNumber([a, b]) == a as int * 256 + b as int
    ensures BytesNumber([a, b, c]) == (a as int * 256 + b as int) * 256 + c as int
  {
    assert [a][..0] == [] && [a, b][..1] == [a] && [a, b, c][..2] == [a, b];
  }

  lemma SextetsNumberOf(p: Sextet, q: Sextet, r: Sextet, t: Sextet)
    ensures SextetsNumber([p, q]) == p * 64 + q
    ensures SextetsNumber([p, q, r]) == (p * 64 + q) * 64 + r
    ensures SextetsNumber([p, q, r, t]) == ((p * 64 + q) * 64 + r) * 64 + t
  {
    assert [p][..0] == [] && [p, q][..1] == [p] && [p, q, r][..2] == [p, q] && [p, q, r, t][..3] == [p, q, r];
    assert SextetsNumber([p]) == p;
  }

  /** One byte is the same bits as its two sextets, with four zero bits behind. */
  lemma OneByteBits(a: byte)
    ensures Sextets([a]) == [High(a), Low(a, 0)]
    ensures SextetsNumber([High(a), Low(a, 0)]) == BytesNumber([a]) * 16
  {
    BytesNumberOf(a, 0, 0);
    SextetsNumberOf(High(a), Low(a, 0), 0, 0);
  }

  /** Two bytes are those of their three sextets, with two zero bits behind. */
  lemma TwoByteBits(a: byte, b: byte)
    ensures Sextets([a, b]) == [High(a), Low(a, b), Mid(b, 0)]
    ensures SextetsNumber([High(a), Low(a, b), Mid(b, 0)]) == BytesNumber([a, b]) * 4
  {
    BytesNumberOf(a, b, 0);
    SextetsNumberOf(High(a), Low(a, b), Mid(b, 0), 0);
  }

  /** Three bytes are those of their four sextets. */
  lemma ThreeByteBits(a: byte, b: byte, c: byte)
    ensures SextetsNumber([High(a), Low(a, b), Mid(b, c), Rest(c)]) == BytesNumber([a, b, c])
  {
    BytesNumberOf(a, b, c);
    SextetsNumberOf(High(a), Low(a, b), Mid(b, c), Rest(c));
  }

  /**
   Base64 keeps the bits: three bytes are four sextets, what is left over is filled up with
   zero bits to two sextets or three.
   */
  lemma SameBits(s: bytes)
    requires s != []
    ensures |s| > 3 ==> Sextets(s) == Sextets(s[..3]) + Sextets(s[3..])
    ensures |s| <= 3 ==>
              && |Sextets(s)| == |s| + 1
              && SextetsNumber(Sextets(s)) == BytesNumber(s) * (if |s| == 1 then 16 else if |s| == 2 then 4 else 1)
  {
    if |s| == 1 {
      assert s == [s[0]];
      OneByteBits(s[0]);
    } else if |s| == 2 {
      assert s == [s[0], s[1]];
      TwoByteBits(s[0], s[1]);
    } else {
      ThreeAtATime(s);
      ThreeByteBits(s[0], s[1], s[2]);
      assert s[..3] == [s[0], s[1], s[2]];
      if |s| == 3 {
        assert s[..3] == s;
      }
    }
  }

  lemma ThreeAtATime(s: bytes)
    requires |s| >= 3
    ensures Sextets(s[..3]) == [High(s[0]), Low(s[0], s[1]), Mid(s[1], s[2]), Rest(s[2])]
    ensures Sextets(s) == Sextets(s[..3]) + Sextets(s[3..])
  {
    var four := [High(s[0]), Low(s[0], s[1]), Mid(s[1], s[2]), Rest(s[2])];
    assert s[..3][3..] == [];
    assert Sextets(s[..3]) == four + [] == four;
  }

  lemma Base64RoundTrip(s: bytes)
    ensures FromBase64(Base64(s)) == Some(s)
  {
    TextRoundTrip(Sextets(s));
    SextetsRoundTrip(s);
  }

  // ---------------------------------------------------------------- keys

  /** Attribute values of a key: strings are supported, all others are refused. */
  datatype AttributeValue = S(s: string) | Other

  type Key = map<string, AttributeValue>

  type Parts = seq<(string, string)>

  /** JSON of the pairs; what is written is not empty and reads back. */
  datatype Json = Json(marshal: Parts -> bytes, unmarshal: bytes -> Option<Parts>)

  ghost predicate Inverse(j: Json) {
    forall p: Parts :: j.marshal(p) != [] && j.unmarshal(j.marshal(p)) == Some(p)
  }

  /** `parts` lists the pairs of `key`, each once, in any order. */
  ghost predicate Lists(parts: Parts, key: Key) {
    && (forall i, j | 0 <= i < j < |parts| :: parts[i].0 != parts[j].0)
    && (forall p | p in parts :: p.0 in key && key[p.0] == S(p.1))
    && (forall k | k in key :: exists i | 0 <= i < |parts| :: parts[i].0 == k)
  }

  function Encoded(j: Json, parts: Parts): string {
    Base64(j.marshal(parts))
  }

  /** Goes over the key in whatever order, and refuses it if a value is not a string. */
  method EncodeCursor(j: Json, key: Key) returns (r: Option<string>, ghost parts: Parts)
    ensures r.Some? <==> forall k | k in key :: key[k].S?
    ensures r.Some? ==> Lists(parts, key) && r.value == Encoded(j, parts)
  {
    var list: Parts := [];
    parts := [];
    var todo := key.Keys;
    while todo != {}
      invariant todo <= key.Keys
      invariant forall i, j | 0 <= i < j < |list| :: list[i].0 != list[j].0
      invariant forall p | p in list :: p.0 in key && p.0 !in todo && key[p.0] == S(p.1)
      invariant forall k | k in key && k !in todo :: exists i | 0 <= i < |list| :: list[i].0 == k
      decreases todo
    {
      var k :| k in todo;
      if !key[k].S? {
        return None, [];
      }
      ghost var before := list;
      list := list + [(k, key[k].s)];
      assert list[|before|].0 == k;
      assert forall i | 0 <= i < |before| :: list[i] == before[i];
      todo := todo - {k};
    }
    parts := list;
    r := Some(Encoded(j, list));
  }

  /** The key that some pairs make; of pairs with the same name the last one counts. */
  function KeyOf(parts: Parts): Key {
    if parts == [] then map[]
    else KeyOf(parts[..|parts| - 1])[parts[|parts| - 1].0 := S(parts[|parts| - 1].1)]
  }

  function Decoded(j: Json, cursor: string): Option<Key> {
    match FromBase64(cursor)
    case None => None
    case Some(raw) =>
      match j.unmarshal(raw)
      case None => None
      case Some(parts) => Some(KeyOf(parts))
  }

  method DecodeCursor(j: Json, cursor: string) returns (key: Option<Key>)
    ensures key == Decoded(j, cursor)
  {
    var raw := FromBase64(cursor);
    if raw == None {
      return None;
    }
    var parts := j.unmarshal(raw.value);
    if parts == None {
      return None;
    }
    var m: Key := map[];
    for i := 0 to |parts.value|
      invariant m == KeyOf(parts.value[..i])
    {
      assert parts.value[..i + 1][..i] == parts.value[..i];
      m := m[parts.value[i].0 := S(parts.value[i].1)];
    }
    assert parts.value[..|parts.value|] == parts.value;
    key := Some(m);
  }

  lemma {:induction false} KeyOfHas(parts: Parts, n: nat)
    requires n <= |parts| && forall i, j | 0 <= i < j < |parts| :: parts[i].0 != parts[j].0
    ensures forall i | 0 <= i < n :: Lookup(KeyOf(parts[..n]), parts[i].0) == Some(S(parts[i].1))
    ensures forall k | k in KeyOf(parts[..n]) :: exists i | 0 <= i < n :: parts[i].0 == k
  {
    if n > 0 {
      KeyOfHas(parts, n - 1);
      assert parts[..n][..n - 1] == parts[..n - 1];
    }
  }

  lemma SameLookups(m: Key, key: Key)
    requires forall k :: Lookup(m, k) == Lookup(key, k)
    ensures m == key
  {
    forall k
      ensures k in m <==> k in key
      ensures k in m ==> m[k] == key[k]
    {
      assert Lookup(m, k) == Lookup(key, k);
    }
  }

  lemma ListedKey(parts: Parts, key: Key)
    requires Lists(parts, key)
    ensures KeyOf(parts) == key
  {
    KeyOfHas(parts, |parts|);
    assert parts[..|parts|] == parts;
    var m := KeyOf(parts);
    forall k
      ensures Lookup(m, k) == Lookup(key, k)
    {
      if i :| 0 <= i < |parts| && parts[i].0 == k {
        assert parts[i] in parts;
      }
    }
    SameLookups(m, key);
  }

  /** In whatever order a key was listed, its cursor decodes to the key. */
  lemma CursorRoundTrip(j: Json, parts: Parts, key: Key)
    requires Inverse(j) && Lists(parts, key)
    ensures Decoded(j, Encoded(j, parts)) == Some(key)
  {
    Base64RoundTrip(j.marshal(parts));
    assert j.unmarshal(j.marshal(parts)) == Some(parts);
    ListedKey(parts, key);
  }

  /** The cursor of a key is not the empty text, which stands for no cursor. */
  lemma CursorNotEmpty(j: Json, parts: Parts)
    requires Inverse(j)
    ensures Encoded(j, parts) != ""
  {
    var raw := j.marshal(parts);
    assert raw != [];
    Base64NotEmpty(raw);
  }

  lemma Base64NotEmpty(s: bytes)
    requires s != []
    ensures Base64(s) != ""
  {
    assert Sextets(s) != [];
  }
}
