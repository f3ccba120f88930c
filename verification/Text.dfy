/** Strings as the handlers use them: searching, splitting, trimming, decimal numbers, order. */
module Text {
  import opened Base

  // ---------------------------------------------------------------- searching

  /** Index of the first `c`, or the length of `s` when there is none. */
  function Find(s: string, c: char): (k: nat)
    ensures k <= |s|
    ensures k < |s| ==> s[k] == c
    ensures forall i | 0 <= i < k :: s[i] != c
  {
    if s == "" || s[0] == c then 0 else 1 + Find(s[1..], c)
  }

  /** One past the index of the last `c`, or 0 when there is none. */
  function FindLast(s: string, c: char): (k: nat)
    ensures k <= |s|
    ensures k > 0 ==> s[k - 1] == c
    ensures forall i | k <= i < |s| :: s[i] != c
  {
    if s == "" then 0 else if s[|s| - 1] == c then |s| else FindLast(s[..|s| - 1], c)
  }

  lemma FindIs(a: string, c: char, b: string)
    requires c !in a
    ensures Find(a + [c] + b, c) == |a|
  {
    var s := a + [c] + b;
    assert s[|a|] == c;
    assert forall i | 0 <= i < |a| :: s[i] == a[i];
  }

  lemma FindLastIs(a: string, c: char, b: string)
    requires c !in b
    ensures FindLast(a + [c] + b, c) == |a| + 1
  {
    var s := a + [c] + b;
    assert s[|a|] == c;
    assert s[|a| + 1..] == b;
    forall i | |a| < i < |s|
      ensures s[i] != c
    {
      assert s[i] == s[|a| + 1..][i - (|a| + 1)];
    }
  }

  /** Around its first `c`, a string splits in one way only. */
  lemma SplitFirst(a: string, x: string, b: string, y: string, c: char)
    requires a + [c] + x == b + [c] + y && c !in a && c !in b
    ensures a == b && x == y
  {
    FindIs(a, c, x);
    FindIs(b, c, y);
    assert a == (a + [c] + x)[..|a|] && x == (a + [c] + x)[|a| + 1..];
    assert b == (b + [c] + y)[..|b|] && y == (b + [c] + y)[|b| + 1..];
  }

  /** Around its last `c`, a string splits in one way only. */
  lemma SplitLast(a: string, x: string, b: string, y: string, c: char)
    requires a + [c] + x == b + [c] + y && c !in x && c !in y
    ensures a == b && x == y
  {
    FindLastIs(a, c, x);
    FindLastIs(b, c, y);
    assert a == (a + [c] + x)[..|a|] && x == (a + [c] + x)[|a| + 1..];
    assert b == (b + [c] + y)[..|b|] && y == (b + [c] + y)[|b| + 1..];
  }

  /** The parts of a string between the occurrences of `c`. */
  function Split(s: string, c: char): (parts: seq<string>)
    ensures parts != []
  {
    var k := Find(s, c);
    if k == |s| then [s] else [s[..k]] + Split(s[k + 1..], c)
  }

  function Join(parts: seq<string>, c: char): string
    requires parts != []
  {
    if |parts| == 1 then parts[0] else parts[0] + [c] + Join(parts[1..], c)
  }

  ghost predicate FreeOf(parts: seq<string>, c: char) {
    forall p | p in parts :: c !in p
  }

  /** Splitting undoes joining. */
  lemma {:induction false} SplitJoin(parts: seq<string>, c: char)
    requires parts != [] && FreeOf(parts, c)
    ensures Split(Join(parts, c), c) == parts
  {
    assert c !in parts[0];
    if |parts| == 1 {
      assert Find(parts[0], c) == |parts[0]|;
    } else {
      var rest := Join(parts[1..], c);
      FindIs(parts[0], c, rest);
      SplitJoin(parts[1..], c);
      SplitStep(parts[0], c, rest);
      assert parts == [parts[0]] + parts[1..];
    }
  }

  lemma SplitStep(a: string, c: char, rest: string)
    requires Find(a + [c] + rest, c) == |a|
    ensures Split(a + [c] + rest, c) == [a] + Split(rest, c)
  {
    assert (a + [c] + rest)[..|a|] == a && (a + [c] + rest)[|a| + 1..] == rest;
  }

  // ---------------------------------------------------------------- white space

  /** The code points with Unicode's White_Space property. */
  predicate IsSpace(c: char) {
    || '\t' <= c <= '\r' || c == ' ' || c == '\U{85}' || c == '\U{A0}' || c == '\U{1680}'
    || '\U{2000}' <= c <= '\U{200A}' || c == '\U{2028}' || c == '\U{2029}'
    || c == '\U{202F}' || c == '\U{205F}' || c == '\U{3000}'
  }

  /** The code points by number. */
  lemma WhiteSpace(c: char)
    ensures IsSpace(c) <==>
            c as int in {9, 10, 11, 12, 13, 32, 0x85, 0xA0, 0x1680, 0x2000, 0x2001, 0x2002, 0x2003, 0x2004, 0x2005, 0x2006,
                         0x2007, 0x2008, 0x2009, 0x200A, 0x2028, 0x2029, 0x202F, 0x205F, 0x3000}
  {}

  function TrimLeft(s: string): (t: string)
    ensures t != "" ==> !IsSpace(t[0])
  {
    if s != "" && IsSpace(s[0]) then TrimLeft(s[1..]) else s
  }

  function TrimRight(s: string): (t: string)
    ensures t <= s
    ensures t != "" ==> !IsSpace(t[|t| - 1])
  {
    if s != "" && IsSpace(s[|s| - 1]) then TrimRight(s[..|s| - 1]) else s
  }

  function Trim(s: string): (t: string)
    ensures Trimmed(t)
  {
    TrimRight(TrimLeft(s))
  }

  predicate Trimmed(s: string) {
    s == "" || (!IsSpace(s[0]) && !IsSpace(s[|s| - 1]))
  }

  lemma TrimTrimmed(s: string)
    requires Trimmed(s)
    ensures Trim(s) == s
  {}

  predicate Blank(s: string) {
    forall i | 0 <= i < |s| :: IsSpace(s[i])
  }

  /** `s` is `core` between blanks. */
  ghost predicate Around(l: string, core: string, r: string, s: string) {
    Blank(l) && Blank(r) && s == l + core + r
  }

  ghost predicate IsCore(core: string, s: string) {
    Trimmed(core) && exists l, r :: Around(l, core, r, s)
  }

  lemma {:induction false} TrimLeftDrops(l: string, t: string)
    requires Blank(l)
    ensures TrimLeft(l + t) == TrimLeft(t)
  {
    if l == "" {
      assert l + t == t;
    } else {
      TrimLeftDrops(l[1..], t);
      assert (l + t)[1..] == l[1..] + t;
    }
  }

  lemma {:induction false} TrimRightDrops(t: string, r: string)
    requires Blank(r)
    ensures TrimRight(t + r) == TrimRight(t)
  {
    if r == "" {
      assert t + r == t;
    } else {
      TrimRightDrops(t, r[..|r| - 1]);
      assert (t + r)[..|t + r| - 1] == t + r[..|r| - 1];
    }
  }

  lemma {:induction false} TrimLeftCut(s: string) returns (l: string)
    ensures Blank(l) && s == l + TrimLeft(s)
  {
    l := "";
    if s != "" && IsSpace(s[0]) {
      var more := TrimLeftCut(s[1..]);
      l := [s[0]] + more;
      assert s == [s[0]] + s[1..];
    }
  }

  lemma {:induction false} TrimRightCut(s: string) returns (r: string)
    ensures Blank(r) && s == TrimRight(s) + r
  {
    r := "";
    if s != "" && IsSpace(s[|s| - 1]) {
      var more := TrimRightCut(s[..|s| - 1]);
      r := more + [s[|s| - 1]];
      assert s == s[..|s| - 1] + [s[|s| - 1]];
    }
  }

  /** Trimming takes off the blanks around a core, and nothing else. */
  lemma TrimIff(s: string, core: string)
    ensures Trim(s) == core <==> IsCore(core, s)
  {
    if Trim(s) == core {
      var l := TrimLeftCut(s);
      var r := TrimRightCut(TrimLeft(s));
      assert l + (core + r) == l + core + r;
      assert Around(l, core, r, s);
    }
    if IsCore(core, s) {
      var l, r :| Around(l, core, r, s);
      TrimAround(l, core, r);
    }
  }

  lemma TrimAround(l: string, core: string, r: string)
    requires Blank(l) && Blank(r) && Trimmed(core)
    ensures Trim(l + core + r) == core
  {
    assert l + core + r == l + (core + r);
    TrimLeftDrops(l, core + r);
    if core == "" {
      TrimLeftDrops(r, "");
      assert core + r == r + "";
    } else {
      assert TrimLeft(core + r) == core + r;
      TrimRightDrops(core, r);
      TrimTrimmed(core);
    }
  }

  // ---------------------------------------------------------------- decimal numbers

  function Digit(d: nat): char
    requires d < 10
  {
    "0123456789"[d]
  }

  predicate IsDigit(c: char) {
    '0' <= c <= '9'
  }

  function Decimal(n: nat): (s: string)
    ensures s != ""
    ensures forall c | c in s :: IsDigit(c)
  {
    if n < 10 then [Digit(n)] else Decimal(n / 10) + [Digit(n % 10)]
  }

  /** What a numeral says. */
  function NumeralValue(s: string): int {
    if s == "" then 0 else NumeralValue(s[..|s| - 1]) * 10 + (s[|s| - 1] as int - '0' as int)
  }

  /** A printed number reads as that number, and has no leading zero. */
  lemma {:induction false} DecimalReads(n: nat)
    ensures NumeralValue(Decimal(n)) == n
    ensures Decimal(n)[0] == '0' ==> n == 0
  {
    var s := Decimal(n);
    assert Digit(n % 10) as int - '0' as int == n % 10;
    if n < 10 {
      assert s[..0] == "";
    } else {
      DecimalReads(n / 10);
      assert s[..|s| - 1] == Decimal(n / 10);
    }
  }

  lemma {:induction false} DecimalInjective(m: nat, n: nat)
    requires Decimal(m) == Decimal(n)
    ensures m == n
  {
    var s, t := Decimal(m), Decimal(n);
    assert s[|s| - 1] == Digit(m % 10) && t[|t| - 1] == Digit(n % 10);
    if m >= 10 {
      assert |Decimal(m / 10)| >= 1;
      assert s[..|s| - 1] == Decimal(m / 10) && t[..|t| - 1] == Decimal(n / 10);
      DecimalInjective(m / 10, n / 10);
    }
  }

  function DecimalInt(n: int): (s: string)
    ensures forall c | c in s :: IsDigit(c) || c == '-'
    ensures s != "" && (s[0] == '-' <==> n < 0)
  {
    assert n >= 0 ==> IsDigit(Decimal(n)[0]);
    if n < 0 then "-" + Decimal(-n) else Decimal(n)
  }

  lemma DecimalIntInjective(m: int, n: int)
    requires DecimalInt(m) == DecimalInt(n)
    ensures m == n
  {
    if m < 0 && n < 0 {
      assert DecimalInt(m)[1..] == Decimal(-m) && DecimalInt(n)[1..] == Decimal(-n);
      DecimalInjective(-m, -n);
    } else if m >= 0 && n >= 0 {
      DecimalInjective(m, n);
    }
  }

  // ---------------------------------------------------------------- order

  /** Strings compare by their code points, a prefix first. */
  predicate Less(a: string, b: string) {
    if b == "" then false
    else if a == "" then true
    else a[0] < b[0] || (a[0] == b[0] && Less(a[1..], b[1..]))
  }

  predicate AtMost(a: string, b: string) {
    a == b || Less(a, b)
  }

  /** Up to index `k` both are alike; there `a` ends, or has the smaller code point. */
  ghost predicate LessAt(a: string, b: string, k: nat) {
    k <= |a| && k < |b| && a[..k] == b[..k] && (k == |a| || a[k] < b[k])
  }

  lemma {:induction false} LessHas(a: string, b: string) returns (k: nat)
    requires Less(a, b)
    ensures LessAt(a, b, k)
  {
    k := 0;
    if a != "" && a[0] == b[0] {
      var i := LessHas(a[1..], b[1..]);
      k := i + 1;
      assert a[..k] == [a[0]] + a[1..][..i] && b[..k] == [b[0]] + b[1..][..i];
    }
  }

  lemma {:induction false} LessFrom(a: string, b: string, k: nat)
    requires LessAt(a, b, k)
    ensures Less(a, b)
  {
    if k > 0 {
      assert a[0] == a[..k][0] == b[..k][0] == b[0];
      assert a[1..][..k - 1] == a[..k][1..] && b[1..][..k - 1] == b[..k][1..];
      LessFrom(a[1..], b[1..], k - 1);
    }
  }

  /** The order of strings is that of their first difference. */
  lemma LessIff(a: string, b: string)
    ensures Less(a, b) <==> exists k :: LessAt(a, b, k)
  {
    if Less(a, b) {
      var k := LessHas(a, b);
    }
    if k :| LessAt(a, b, k) {
      LessFrom(a, b, k);
    }
  }

  lemma {:induction false} LessTotal(a: string, b: string)
    ensures a == b || Less(a, b) || Less(b, a)
    ensures !(Less(a, b) && Less(b, a)) && !Less(a, a)
  {
    if a != "" && b != "" {
      LessTotal(a[1..], b[1..]);
      assert a == [a[0]] + a[1..] && b == [b[0]] + b[1..];
    }
    if a != "" {
      LessTotal(a[1..], a[1..]);
    }
  }

  lemma {:induction false} LessTransitive(a: string, b: string, c: string)
    requires Less(a, b) && Less(b, c)
    ensures Less(a, c)
  {
    if a != "" && a[0] == b[0] == c[0] {
      LessTransitive(a[1..], b[1..], c[1..]);
    }
  }
}
