/** The keys under which envelopes, items and metadata rows are stored. */
module StorageKeys {
  import opened Base
  import opened Text

  const MAX_ID := 64

  predicate IsHex(c: char) {
    '0' <= c <= '9' || 'a' <= c <= 'f' || 'A' <= c <= 'F'
  }

  predicate AllHex(s: string) {
    forall c | c in s :: IsHex(c)
  }

  /** The ids that may appear in a key: 1 to 64 hexadecimal digits. */
  predicate ValidEventID(s: string) {
    0 < |s| <= MAX_ID && AllHex(s)
  }

  /** The scan by which the handler decides that. */
  method CheckEventID(s: string) returns (valid: bool)
    ensures valid <==> ValidEventID(s)
    ensures valid <==> 1 <= |s| <= 64 && forall c | c in s :: '0' <= c <= '9' || 'a' <= c <= 'f' || 'A' <= c <= 'F'
  {
    if |s| == 0 || |s| > MAX_ID {
      return false;
    }
    for i := 0 to |s|
      invariant AllHex(s[..i])
    {
      if !IsHex(s[i]) {
        assert s[i] in s;
        return false;
      }
      assert s[..i + 1] == s[..i] + [s[i]];
    }
    assert s[..|s|] == s;
    return true;
  }

  // ---------------------------------------------------------------- item types

  /** Left to right, `/`, `\` and `..` become `_`. */
  function Replace(t: string): (r: string)
    ensures t != "" ==> r != ""
  {
    if t == "" then ""
    else if t[0] == '/' || t[0] == '\\' then "_" + Replace(t[1..])
    else if |t| >= 2 && t[0] == '.' && t[1] == '.' then "_" + Replace(t[2..])
    else [t[0]] + Replace(t[1..])
  }

  function Sanitize(t: string): string {
    var s := Trim(t);
    if s == "" then "unknown" else Replace(s)
  }

  /** A string that may appear in a key: no separator and no step up. */
  predicate Clean(s: string) {
    '/' !in s && '\\' !in s && forall i | 0 <= i < |s| - 1 :: !(s[i] == '.' && s[i + 1] == '.')
  }

  lemma {:induction false} ReplaceClean(t: string)
    ensures Clean(Replace(t))
    ensures Replace(t) != "" && Replace(t)[0] == '.' ==> t[0] == '.'
    ensures t != "" && !IsSpace(t[0]) ==> !IsSpace(Replace(t)[0])
    ensures t != "" && !IsSpace(t[|t| - 1]) ==> !IsSpace(Replace(t)[|Replace(t)| - 1])
    decreases |t|
  {
    if t != "" {
      var k := if |t| >= 2 && t[0] == '.' && t[1] == '.' then 2 else 1;
      ReplaceClean(t[k..]);
      var rest := Replace(t[k..]);
      assert Replace(t) == [Replace(t)[0]] + rest;
      if |t| > k {
        assert t[k..][|t| - k - 1] == t[|t| - 1];
      }
    }
  }

  lemma CleanTail(t: string)
    requires Clean(t) && t != ""
    ensures Clean(t[1..])
  {
    var u := t[1..];
    forall i | 0 <= i < |u| - 1
      ensures !(u[i] == '.' && u[i + 1] == '.')
    {
      assert u[i] == t[i + 1] && u[i + 1] == t[i + 1 + 1];
    }
  }

  lemma {:induction false} ReplaceKeepsClean(t: string)
    requires Clean(t)
    ensures Replace(t) == t
  {
    if t != "" {
      assert t[0] in t;
      CleanTail(t);
      ReplaceKeepsClean(t[1..]);
      assert t == [t[0]] + t[1..];
    }
  }

  lemma SanitizeBlank(t: string)
    requires Blank(t)
    ensures Sanitize(t) == "unknown"
  {
    assert t == t + "" + "" && Around(t, "", "", t);
    TrimIff(t, "");
  }

  predicate IsSeparator(sep: string) {
    sep == "/" || sep == "\\" || sep == ".."
  }

  /** How many characters of `t` are replaced or kept next. */
  function Width(t: string): (k: nat)
    requires t != ""
    ensures 1 <= k <= |t|
  {
    if |t| >= 2 && t[0] == '.' && t[1] == '.' then 2 else 1
  }

  lemma ReplaceStep(t: string)
    requires t != ""
    ensures Replace(t) == [Replace(t)[0]] + Replace(t[Width(t)..])
  {}

  /** What comes next is decided by the front of a string, unless a dot is cut off there. */
  lemma WidthOfFront(a: string, rest: string)
    requires a != "" && (a == "." && rest != "" ==> rest[0] != '.')
    ensures Width(a + rest) == Width(a) && Replace(a + rest)[0] == Replace(a)[0]
    ensures (a + rest)[Width(a)..] == a[Width(a)..] + rest
  {
    var t := a + rest;
    assert |a| >= 2 ==> t[1] == a[1];
  }

  lemma ReplaceFront(a: string, rest: string)
    requires a != "" && (a == "." && rest != "" ==> rest[0] != '.')
    ensures Replace(a + rest) == [Replace(a)[0]] + Replace(a[Width(a)..] + rest)
  {
    WidthOfFront(a, rest);
    ReplaceStep(a + rest);
  }

  lemma PutInFront(whole: string, part: string, x: string, more: string, rest: string, tail: string)
    requires whole == x + more && part == x + rest && more == rest + tail
    ensures whole == part + tail
  {}

  lemma FrontReplaced(a: string, rest: string, tail: string)
    requires a != "" && (a == "." && rest != "" ==> rest[0] != '.')
    requires Replace(a[Width(a)..] + rest) == Replace(a[Width(a)..]) + tail
    ensures Replace(a + rest) == Replace(a) + tail
  {
    ReplaceFront(a, rest);
    ReplaceStep(a);
    PutInFront(Replace(a + rest), Replace(a), [Replace(a)[0]], Replace(a[Width(a)..] + rest), Replace(a[Width(a)..]),
               tail);
  }

  lemma SeparatorInFront(sep: string, b: string)
    requires IsSeparator(sep)
    ensures Replace(sep + b) == "_" + Replace(b)
  {
    assert (sep + b)[|sep|..] == b;
  }

  /** Read from the left, each separator in a type is replaced on its own. */
  lemma {:induction false} SeparatorReplaced(a: string, sep: string, b: string)
    requires IsSeparator(sep) && (sep == ".." && a != "" ==> a[|a| - 1] != '.')
    ensures Replace(a + (sep + b)) == Replace(a) + ("_" + Replace(b))
    decreases |a|
  {
    if a == "" {
      SeparatorInFront(sep, b);
      assert a + (sep + b) == sep + b;
    } else {
      SeparatorReplaced(a[Width(a)..], sep, b);
      assert (sep + b)[0] == sep[0];
      FrontReplaced(a, sep + b, "_" + Replace(b));
    }
  }

  /** What sanitizing yields is fit for a key, and exactly such types are left as they are. */
  lemma SanitizeSound(t: string)
    ensures Clean(Sanitize(t)) && Trimmed(Sanitize(t)) && Sanitize(t) != ""
    ensures Sanitize(t) == t <==> Clean(t) && Trimmed(t) && t != ""
    ensures Sanitize(Sanitize(t)) == Sanitize(t)
  {
    ReplaceClean(Trim(t));
    if Clean(t) && Trimmed(t) && t != "" {
      TrimTrimmed(t);
      ReplaceKeepsClean(t);
    }
    TrimTrimmed(Sanitize(t));
    ReplaceKeepsClean(Sanitize(t));
  }

  // ---------------------------------------------------------------- keys

  /** Where the raw envelope of a request is archived. */
  function EnvelopeKey(project: string, date: string, id: string): string {
    "projects/" + project + "/" + date + "/" + id + ".envelope"
  }

  /** Where item `i` of a request, of sanitized type `kind`, is archived. */
  function ItemKey(project: string, date: string, id: string, i: nat, kind: string): string {
    "projects/" + project + "/" + date + "/" + id + "/items/" + Decimal(i) + "-" + kind
  }

  /** The row key of item `i`: the first item owns the bare event id. */
  function SortKey(id: string, kind: string, i: nat): string {
    if i == 0 then id else id + "#" + kind + "#" + Decimal(i)
  }

  /** The last path segment of an item key. */
  function ItemName(i: nat, kind: string): string {
    Decimal(i) + "-" + kind
  }

  lemma JoinCons(f: string, fs: seq<string>, c: char)
    requires fs != []
    ensures Join([f] + fs, c) == f + ([c] + Join(fs, c))
  {
    assert ([f] + fs)[1..] == fs;
  }

  lemma JoinTwo(a: string, b: string, fs: seq<string>, c: char)
    requires fs != []
    ensures Join([a, b] + fs, c) == a + ([c] + (b + ([c] + Join(fs, c))))
  {
    JoinCons(b, fs, c);
    JoinCons(a, [b] + fs, c);
    assert [a] + ([b] + fs) == [a, b] + fs;
  }

  /** The folder of a project and day, in front of other segments. */
  lemma JoinFolder(project: string, date: string, fs: seq<string>)
    requires fs != []
    ensures Join(["projects", project, date] + fs, '/') == "projects/" + project + "/" + date + "/" + Join(fs, '/')
  {
    JoinTwo(project, date, fs, '/');
    JoinCons("projects", [project, date] + fs, '/');
    assert ["projects"] + ([project, date] + fs) == ["projects", project, date] + fs;
    var j := Join(fs, '/');
    assert "projects" + (['/'] + (project + (['/'] + (date + (['/'] + j)))))
        == "projects/" + project + "/" + date + "/" + j by {
      assert "projects/" == "projects" + ['/'];
    }
  }

  lemma FreeFolder(project: string, date: string, fs: seq<string>)
    requires '/' !in project && '/' !in date && FreeOf(fs, '/')
    ensures FreeOf(["projects", project, date] + fs, '/')
  {}

  /** An envelope is archived as a file in the folder of its project and day. */
  lemma EnvelopePath(project: string, date: string, id: string)
    requires '/' !in project && '/' !in date && '/' !in id
    ensures Split(EnvelopeKey(project, date, id), '/') == ["projects", project, date] + [id + ".envelope"]
  {
    var file := id + ".envelope";
    JoinFolder(project, date, [file]);
    assert EnvelopeKey(project, date, id) == "projects/" + project + "/" + date + "/" + file;
    FreeFolder(project, date, [file]);
    SplitJoin(["projects", project, date] + [file], '/');
  }

  /** Its items are in a folder beside it, numbered, with their type behind the number. */
  lemma ItemPath(project: string, date: string, id: string, i: nat, kind: string)
    requires '/' !in project && '/' !in date && '/' !in id && '/' !in kind
    ensures Split(ItemKey(project, date, id, i, kind), '/')
         == ["projects", project, date] + [id, "items", Decimal(i) + "-" + kind]
  {
    var name := ItemName(i, kind);
    var fs := [id, "items"] + [name];
    NoSlashInName(i, kind);
    JoinTwo(id, "items", [name], '/');
    JoinFolder(project, date, fs);
    ItemKeyText(project, date, id, i, kind);
    FreeFolder(project, date, fs);
    SplitJoin(["projects", project, date] + fs, '/');
    assert fs == [id, "items", name];
  }

  lemma ItemKeyText(project: string, date: string, id: string, i: nat, kind: string)
    ensures ItemKey(project, date, id, i, kind)
         == "projects/" + project + "/" + date + "/" + (id + (['/'] + ("items" + (['/'] + ItemName(i, kind)))))
  {
    ItemKeyParts(project, date, id, i, kind);
    var folder := "projects/" + project + "/" + date;
    assert (folder + ['/'] + id + ['/'] + "items") + ['/'] + ItemName(i, kind)
        == folder + ['/'] + (id + (['/'] + ("items" + (['/'] + ItemName(i, kind)))));
  }

  /** A row key is the id, and behind the first item also its type and number. */
  lemma SortKeyPath(id: string, kind: string, i: nat)
    requires '#' !in id && '#' !in kind
    ensures Split(SortKey(id, kind, i), '#') == if i == 0 then [id] else [id, kind] + [Decimal(i)]
  {
    if i == 0 {
      SplitJoin([id], '#');
    } else {
      assert '#' !in Decimal(i);
      JoinTwo(id, kind, [Decimal(i)], '#');
      SortKeyText(id, kind, i);
      SplitJoin([id, kind] + [Decimal(i)], '#');
    }
  }

  lemma SortKeyText(id: string, kind: string, i: nat)
    requires i > 0
    ensures SortKey(id, kind, i) == id + (['#'] + (kind + (['#'] + Decimal(i))))
  {
    assert "#" == ['#'];
    var d := Decimal(i);
    assert id + "#" + kind + "#" + d == id + (['#'] + (kind + (['#'] + d)));
  }

  /** An item key as its path segments, joined by slashes. */
  lemma ItemKeyParts(project: string, date: string, id: string, i: nat, kind: string)
    ensures ItemKey(project, date, id, i, kind)
         == ("projects/" + project + "/" + date + "/" + id + "/items") + ['/'] + ItemName(i, kind)
    ensures "projects/" + project + "/" + date + "/" + id + "/items"
         == ("projects/" + project + "/" + date + "/" + id) + ['/'] + "items"
    ensures "projects/" + project + "/" + date + "/" + id
         == ("projects/" + project + "/" + date) + ['/'] + id
    ensures "projects/" + project + "/" + date
         == ("projects/" + project) + ['/'] + date
  {
    assert ItemKey(project, date, id, i, kind)
        == ("projects/" + project + "/" + date + "/" + id + "/items") + (['/'] + ItemName(i, kind));
  }

  lemma NoSlashInName(i: nat, kind: string)
    requires '/' !in kind
    ensures '/' !in ItemName(i, kind)
  {
    assert forall c | c in Decimal(i) :: IsDigit(c);
  }

  /** The id, the date and the project of a request are read off the common part of its keys. */
  lemma FolderInjective(p1: string, d1: string, e1: string, p2: string, d2: string, e2: string)
    requires '/' !in d1 && '/' !in d2 && '/' !in e1 && '/' !in e2
    requires "projects/" + p1 + "/" + d1 + "/" + e1 == "projects/" + p2 + "/" + d2 + "/" + e2
    ensures p1 == p2 && d1 == d2 && e1 == e2
  {
    var a, b := "projects/" + p1, "projects/" + p2;
    SplitLast(a + "/" + d1, e1, b + "/" + d2, e2, '/');
    SplitLast(a, d1, b, d2, '/');
    assert p1 == a[9..] && p2 == b[9..];
  }

  lemma NameInjective(i1: nat, k1: string, i2: nat, k2: string)
    requires ItemName(i1, k1) == ItemName(i2, k2)
    ensures i1 == i2 && k1 == k2
  {
    assert '-' !in Decimal(i1) && '-' !in Decimal(i2);
    SplitFirst(Decimal(i1), k1, Decimal(i2), k2, '-');
    DecimalInjective(i1, i2);
  }

  /** Equal item keys come from the same project, date, event, index and sanitized type. */
  lemma ItemKeyInjective(p1: string, d1: string, e1: string, i1: nat, t1: string,
                         p2: string, d2: string, e2: string, i2: nat, t2: string)
    requires '/' !in d1 && '/' !in d2 && ValidEventID(e1) && ValidEventID(e2)
    requires ItemKey(p1, d1, e1, i1, Sanitize(t1)) == ItemKey(p2, d2, e2, i2, Sanitize(t2))
    ensures p1 == p2 && d1 == d2 && e1 == e2 && i1 == i2 && Sanitize(t1) == Sanitize(t2)
  {
    SanitizeSound(t1);
    SanitizeSound(t2);
    ItemKeyParts(p1, d1, e1, i1, Sanitize(t1));
    ItemKeyParts(p2, d2, e2, i2, Sanitize(t2));
    NoSlashInName(i1, Sanitize(t1));
    NoSlashInName(i2, Sanitize(t2));
    var a := "projects/" + p1 + "/" + d1 + "/" + e1;
    var b := "projects/" + p2 + "/" + d2 + "/" + e2;
    SplitLast(a + "/items", ItemName(i1, Sanitize(t1)), b + "/items", ItemName(i2, Sanitize(t2)), '/');
    SplitLast(a, "items", b, "items", '/');
    NameInjective(i1, Sanitize(t1), i2, Sanitize(t2));
    FolderInjective(p1, d1, e1, p2, d2, e2);
  }

  /** Equal envelope keys come from the same project, date and event. */
  lemma EnvelopeKeyInjective(p1: string, d1: string, e1: string, p2: string, d2: string, e2: string)
    requires '/' !in d1 && '/' !in d2 && ValidEventID(e1) && ValidEventID(e2)
    requires EnvelopeKey(p1, d1, e1) == EnvelopeKey(p2, d2, e2)
    ensures p1 == p2 && d1 == d2 && e1 == e2
  {
    var a := "projects/" + p1 + "/" + d1 + "/" + e1;
    var b := "projects/" + p2 + "/" + d2 + "/" + e2;
    assert a == EnvelopeKey(p1, d1, e1)[..|EnvelopeKey(p1, d1, e1)| - 9];
    assert b == EnvelopeKey(p2, d2, e2)[..|EnvelopeKey(p2, d2, e2)| - 9];
    FolderInjective(p1, d1, e1, p2, d2, e2);
  }

  /** No item is stored under the key of an envelope. */
  lemma ItemKeyIsNoEnvelopeKey(p1: string, d1: string, e1: string, i: nat, t: string,
                               p2: string, d2: string, e2: string)
    requires ValidEventID(e2)
    ensures ItemKey(p1, d1, e1, i, Sanitize(t)) != EnvelopeKey(p2, d2, e2)
  {
    var name, b := ItemName(i, Sanitize(t)), "projects/" + p2 + "/" + d2;
    SanitizeSound(t);
    NoSlashInName(i, Sanitize(t));
    ItemKeyParts(p1, d1, e1, i, Sanitize(t));
    assert name[|Decimal(i)|] == '-';
    assert '-' !in e2 + ".envelope" && '/' !in e2 + ".envelope";
    assert EnvelopeKey(p2, d2, e2) == b + ['/'] + (e2 + ".envelope");
    if ItemKey(p1, d1, e1, i, Sanitize(t)) == EnvelopeKey(p2, d2, e2) {
      SplitLast("projects/" + p1 + "/" + d1 + "/" + e1 + "/items", name, b, e2 + ".envelope", '/');
    }
  }

  /** Equal row keys come from the same event and the same item of it. */
  lemma SortKeyInjective(e1: string, k1: string, i1: nat, e2: string, k2: string, i2: nat)
    requires ValidEventID(e1) && ValidEventID(e2) && SortKey(e1, k1, i1) == SortKey(e2, k2, i2)
    ensures e1 == e2 && i1 == i2
  {
    var a, b := SortKey(e1, k1, i1), SortKey(e2, k2, i2);
    assert '#' !in e1 && '#' !in e2;
    if i1 > 0 {
      assert a[|e1|] == '#';
    }
    if i2 > 0 {
      assert b[|e2|] == '#';
    }
    if i1 > 0 && i2 > 0 {
      assert '#' !in Decimal(i1) && '#' !in Decimal(i2);
      assert a == e1 + ['#'] + (k1 + "#" + Decimal(i1)) && b == e2 + ['#'] + (k2 + "#" + Decimal(i2));
      SplitFirst(e1, k1 + "#" + Decimal(i1), e2, k2 + "#" + Decimal(i2), '#');
      SplitLast(k1, Decimal(i1), k2, Decimal(i2), '#');
      DecimalInjective(i1, i2);
    }
  }
}
