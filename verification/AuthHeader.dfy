/** The X-Sentry-Auth header, as the ingest handler and the query handler each read it. */
module AuthHeader {
  import opened Base
  import opened Text

  type Pair = (string, string)

  const KEY := "sentry_key"

  /** The comma-separated parts behind the scheme. */
  function Parts(value: string): seq<string> {
    var k := Find(value, ' ');
    Split(if k < |value| then value[k + 1..] else value, ',')
  }

  /** The name and the value of a part; none without an equals sign. */
  function PairOf(part: string): Option<Pair> {
    var t := Trim(part);
    var k := Find(t, '=');
    if k == |t| then None else Some((Trim(t[..k]), Trim(t[k + 1..])))
  }

  lemma PairOfParts(part: string, front: string, back: string)
    requires Trim(part) == front + ['='] + back && '=' !in front
    ensures PairOf(part) == Some((Trim(front), Trim(back)))
  {
    FindIs(front, '=', back);
    var t := Trim(part);
    assert t[..|front|] == front && t[|front| + 1..] == back;
  }

  lemma TrimSides(name: string, a: string, b: string, value: string)
    requires Blank(a) && Blank(b) && Trimmed(name) && Trimmed(value)
    ensures Trim(name + a) == name && Trim(b + value) == value
  {
    TrimAround("", name, a);
    TrimAround(b, value, "");
    assert "" + name + a == name + a && b + value + "" == b + value;
  }

  /** Blanks around a name, its equals sign and its value do not count. */
  lemma PairAmongBlanks(l: string, name: string, a: string, b: string, value: string, r: string)
    requires Blank(l) && Blank(a) && Blank(b) && Blank(r)
    requires Trimmed(name) && Trimmed(value) && '=' !in name && name != "" && value != ""
    ensures PairOf(l + ((name + a) + ['='] + (b + value)) + r) == Some((name, value))
  {
    var front, back := name + a, b + value;
    var core := front + ['='] + back;
    assert core[0] == front[0] == name[0] && core[|core| - 1] == back[|back| - 1] == value[|value| - 1];
    TrimAround(l, core, r);
    NoEqualsInBlank(a);
    PairOfParts(l + core + r, front, back);
    TrimSides(name, a, b, value);
  }

  lemma NoEqualsInBlank(a: string)
    requires Blank(a)
    ensures '=' !in a
  {}

  /** A part without an equals sign says nothing. */
  lemma NoPair(part: string)
    ensures PairOf(part) == None <==> '=' !in part
  {
    TrimIff(part, Trim(part));
    var l, r :| Around(l, Trim(part), r, part);
    NoEqualsInBlank(l);
    NoEqualsInBlank(r);
    assert forall c :: c in part <==> c in l || c in Trim(part) || c in r;
    if '=' in Trim(part) {
      var i :| 0 <= i < |Trim(part)| && Trim(part)[i] == '=';
    }
  }

  /** What `read` makes of each part. */
  function Found(parts: seq<string>, read: string -> Option<Pair>): seq<Option<Pair>> {
    seq(|parts|, i requires 0 <= i < |parts| => read(parts[i]))
  }

  /** The pairs among the first `n` results. */
  function Pairs(found: seq<Option<Pair>>, n: nat): seq<Pair>
    requires n <= |found|
  {
    if n == 0 then []
    else if found[n - 1] == None then Pairs(found, n - 1)
    else Pairs(found, n - 1) + [found[n - 1].value]
  }

  /** The values under one name, in order. */
  function Named(pairs: seq<Pair>, name: string): seq<string> {
    if pairs == [] then []
    else
      var p := pairs[|pairs| - 1];
      var front := Named(pairs[..|pairs| - 1], name);
      if p.0 == name then front + [p.1] else front
  }

  function HeaderPairs(value: string): seq<Pair> {
    Pairs(Found(Parts(value), PairOf), |Parts(value)|)
  }

  /** The keys that a header names, in order. */
  function HeaderKeys(value: string): seq<string> {
    Named(HeaderPairs(value), KEY)
  }

  function LastOf(values: seq<string>): Option<string> {
    if values == [] then None else Some(values[|values| - 1])
  }

  function FirstOf(values: seq<string>): Option<string> {
    if values == [] then None else Some(values[0])
  }

  function OrEmpty(s: Option<string>): string {
    if s.Some? then s.value else ""
  }

  lemma NamedSnoc(pairs: seq<Pair>, p: Pair, name: string)
    ensures Named(pairs + [p], name) == if p.0 == name then Named(pairs, name) + [p.1] else Named(pairs, name)
  {
    assert (pairs + [p])[..|pairs|] == pairs;
  }

  /** A map holds under each name the last of the values that the pairs give it. */
  ghost predicate LastWins(params: map<string, string>, pairs: seq<Pair>) {
    forall name :: Lookup(params, name) == LastOf(Named(pairs, name))
  }

  lemma LastWinsStill(params: map<string, string>, pairs: seq<Pair>, p: Pair)
    requires LastWins(params, pairs)
    ensures LastWins(params[p.0 := p.1], pairs + [p])
  {
    forall name
      ensures Lookup(params[p.0 := p.1], name) == LastOf(Named(pairs + [p], name))
    {
      NamedSnoc(pairs, p, name);
      assert Lookup(params, name) == LastOf(Named(pairs, name));
    }
  }

  /** The ingest handler enters all pairs into a map. */
  method ParseAuthHeaderParams(value: string) returns (params: map<string, string>)
    ensures LastWins(params, HeaderPairs(value))
  {
    params := EnterPairs(Parts(value), PairOf);
  }

  method EnterPairs(parts: seq<string>, read: string -> Option<Pair>) returns (params: map<string, string>)
    ensures LastWins(params, Pairs(Found(parts, read), |parts|))
  {
    params := map[];
    ghost var found := Found(parts, read);
    for i := 0 to |parts|
      invariant LastWins(params, Pairs(found, i))
    {
      var kv := read(parts[i]);
      assert found[i] == kv;
      if kv == None {
        continue;
      }
      LastWinsStill(params, Pairs(found, i), kv.value);
      params := params[kv.value.0 := kv.value.1];
    }
  }

  lemma {:induction false} NamedPrefix(found: seq<Option<Pair>>, n: nat, m: nat, name: string)
    requires n <= m <= |found|
    ensures Named(Pairs(found, n), name) <= Named(Pairs(found, m), name)
    decreases m
  {
    if n < m {
      NamedPrefix(found, n, m - 1, name);
      if found[m - 1].Some? {
        NamedSnoc(Pairs(found, m - 1), found[m - 1].value, name);
      }
    }
  }

  /** The first value under a name stays the first. */
  lemma FirstStays(found: seq<Option<Pair>>, i: nat, name: string, value: string)
    requires i < |found| && Named(Pairs(found, i), name) == [] && found[i] == Some((name, value))
    ensures FirstOf(Named(Pairs(found, |found|), name)) == Some(value)
  {
    NamedSnoc(Pairs(found, i), (name, value), name);
    NamedPrefix(found, i + 1, |found|, name);
  }

  lemma OthersSkipped(found: seq<Option<Pair>>, i: nat, name: string)
    requires i < |found| && (found[i] == None || found[i].value.0 != name)
    ensures Named(Pairs(found, i + 1), name) == Named(Pairs(found, i), name)
  {
    if found[i].Some? {
      NamedSnoc(Pairs(found, i), found[i].value, name);
    }
  }

  /** The query handler takes the first pair that names a key. */
  method SentryKeyFromAuthHeader(value: string) returns (key: string)
    ensures key == OrEmpty(FirstOf(HeaderKeys(value)))
  {
    var first := FirstKey(Parts(value), PairOf);
    key := OrEmpty(first);
  }

  method FirstKey(parts: seq<string>, read: string -> Option<Pair>) returns (key: Option<string>)
    ensures key == FirstOf(Named(Pairs(Found(parts, read), |parts|), KEY))
  {
    ghost var found := Found(parts, read);
    for i := 0 to |parts|
      invariant Named(Pairs(found, i), KEY) == []
    {
      var kv := read(parts[i]);
      assert found[i] == kv;
      if kv.Some? && kv.value.0 == KEY {
        FirstStays(found, i, KEY, kv.value.1);
        return Some(kv.value.1);
      }
      OthersSkipped(found, i, KEY);
    }
    key := None;
  }

  /** The key that the ingest handler reads off a header. */
  function IngestHeaderKey(value: string): string {
    OrEmpty(LastOf(HeaderKeys(value)))
  }

  /** The key that the query handler reads off a header. */
  function QueryHeaderKey(value: string): string {
    OrEmpty(FirstOf(HeaderKeys(value)))
  }

  // ---------------------------------------------------------------- printing a header

  ghost predicate Printable(p: Pair) {
    Trimmed(p.0) && Trimmed(p.1) && ',' !in p.0 && ',' !in p.1 && '=' !in p.0
  }

  function PartText(p: Pair): string {
    p.0 + ['='] + p.1
  }

  /** The parts of a printed header; a blank follows every comma. */
  function PartTexts(pairs: seq<Pair>): seq<string> {
    seq(|pairs|, i requires 0 <= i < |pairs| => if i == 0 then PartText(pairs[i]) else " " + PartText(pairs[i]))
  }

  function HeaderText(scheme: string, pairs: seq<Pair>): string
    requires pairs != []
  {
    scheme + [' '] + Join(PartTexts(pairs), ',')
  }

  lemma PartTextTrimmed(p: Pair)
    requires Printable(p)
    ensures Trim(PartText(p)) == PartText(p) == Trim(" " + PartText(p))
  {
    var t := PartText(p);
    assert t[0] == if p.0 == "" then '=' else p.0[0];
    assert t[|t| - 1] == if p.1 == "" then '=' else p.1[|p.1| - 1];
    TrimTrimmed(t);
    assert (" " + t)[1..] == t;
  }

  lemma PartReadsBack(p: Pair, part: string)
    requires Printable(p) && (part == PartText(p) || part == " " + PartText(p))
    ensures PairOf(part) == Some(p)
  {
    PartTextTrimmed(p);
    FindIs(p.0, '=', p.1);
    var t := PartText(p);
    assert t[..|p.0|] == p.0 && t[|p.0| + 1..] == p.1;
    TrimTrimmed(p.0);
    TrimTrimmed(p.1);
  }

  lemma {:induction false} AllPairs(found: seq<Option<Pair>>, pairs: seq<Pair>, n: nat)
    requires n <= |pairs| == |found| && forall i | 0 <= i < |pairs| :: found[i] == Some(pairs[i])
    ensures Pairs(found, n) == pairs[..n]
  {
    if n > 0 {
      AllPairs(found, pairs, n - 1);
      assert pairs[..n] == pairs[..n - 1] + [pairs[n - 1]];
    }
  }

  lemma PartsReadBack(pairs: seq<Pair>)
    requires forall p | p in pairs :: Printable(p)
    ensures Pairs(Found(PartTexts(pairs), PairOf), |pairs|) == pairs
  {
    var texts := PartTexts(pairs);
    forall i | 0 <= i < |pairs|
      ensures Found(texts, PairOf)[i] == Some(pairs[i])
    {
      PartReadsBack(pairs[i], texts[i]);
    }
    AllPairs(Found(texts, PairOf), pairs, |pairs|);
    assert pairs[..|pairs|] == pairs;
  }

  lemma PartTextsFree(pairs: seq<Pair>)
    requires forall p | p in pairs :: Printable(p)
    ensures FreeOf(PartTexts(pairs), ',')
  {
    forall i | 0 <= i < |pairs|
      ensures ',' !in PartTexts(pairs)[i]
    {
      assert Printable(pairs[i]);
    }
  }

  /** A printed header reads back as the pairs it was made of. */
  lemma HeaderReadsBack(scheme: string, pairs: seq<Pair>)
    requires ' ' !in scheme && pairs != [] && forall p | p in pairs :: Printable(p)
    ensures HeaderPairs(HeaderText(scheme, pairs)) == pairs
  {
    var texts := PartTexts(pairs);
    var value := HeaderText(scheme, pairs);
    FindIs(scheme, ' ', Join(texts, ','));
    assert value[|scheme| + 1..] == Join(texts, ',');
    PartTextsFree(pairs);
    SplitJoin(texts, ',');
    PartsReadBack(pairs);
  }

  /** A header without a blank has no scheme, and all of it is pairs. */
  lemma BareHeaderReadsBack(p: Pair)
    requires Printable(p) && ' ' !in PartText(p)
    ensures HeaderPairs(PartText(p)) == [p]
  {
    var t := PartText(p);
    assert Find(t, ' ') == |t|;
    assert ',' !in t;
    assert Find(t, ',') == |t|;
    assert Parts(t) == [t];
    PartReadsBack(p, t);
    var found := Found([t], PairOf);
    assert found[0] == Some(p);
    AllPairs(found, [p], 1);
    assert [p][..1] == [p];
  }

  lemma TwoNamed(a: string, b: string)
    ensures Named([(KEY, a), (KEY, b)], KEY) == [a, b]
  {
    NamedSnoc([], (KEY, a), KEY);
    NamedSnoc([(KEY, a)], (KEY, b), KEY);
    assert [(KEY, a), (KEY, b)] == [(KEY, a)] + [(KEY, b)] && [] + [(KEY, a)] == [(KEY, a)];
  }

  /** A header that names two keys authenticates ingest with the second and queries with the first. */
  lemma DuplicateKeysDisagree(a: string, b: string)
    requires Printable((KEY, a)) && Printable((KEY, b))
    ensures var value := HeaderText("Sentry", [(KEY, a), (KEY, b)]);
            IngestHeaderKey(value) == b && QueryHeaderKey(value) == a
  {
    var pairs: seq<Pair> := [(KEY, a), (KEY, b)];
    HeaderReadsBack("Sentry", pairs);
    TwoNamed(a, b);
  }
}
