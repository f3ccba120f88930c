/**
 When two events share an issue id: exactly for which fields bars may be allowed so that
 equal hashed texts still mean equal groups.
 */
module Grouping {
  import opened Base
  import opened Text
  import opened Fingerprint

  datatype Field = PlatformField | MessageField | TypeField | ValueField | FileField | FunctionField

  /** A field of a group; empty if groups of its shape have none. */
  function FieldOf(g: Group, f: Field): string {
    match f
    case PlatformField => g.platform
    case MessageField => if g.MessageOnly? then g.message else ""
    case TypeField => if g.MessageOnly? then "" else g.kind
    case ValueField => if g.MessageOnly? then "" else g.value
    case FileField => if g.Framed? then g.file else ""
    case FunctionField => if g.Framed? then g.function_ else ""
  }

  /** Fields other than `fs` hold no bar. */
  ghost predicate BarsOnlyIn(g: Group, fs: set<Field>) {
    forall f: Field | f !in fs :: '|' !in FieldOf(g, f)
  }

  /** Groups with bars in `fs` only are told apart by their texts. */
  ghost predicate Exact(fs: set<Field>) {
    forall a, b | BarsOnlyIn(a, fs) && BarsOnlyIn(b, fs) && TextOf(a) == TextOf(b) :: a == b
  }

  /** At most one field, and that the type, the value, the file or the function. */
  predicate AtMostOne(fs: set<Field>) {
    fs <= {TypeField} || fs <= {ValueField} || fs <= {FileField} || fs <= {FunctionField}
  }

  // ---------------------------------------------------------------- the text, cut up

  /** A platform without bars is read off the text. */
  lemma SamePlatform(a: Group, b: Group)
    requires TextOf(a) == TextOf(b) && '|' !in a.platform && '|' !in b.platform
    ensures a.platform == b.platform && Second(a) + ['|'] + Rest(a) == Second(b) + ['|'] + Rest(b)
  {
    TextParts(a);
    TextParts(b);
    SplitFirst(a.platform, Second(a) + ['|'] + Rest(a), b.platform, Second(b) + ['|'] + Rest(b), '|');
  }

  /** A type without bars, too. */
  lemma SameSecond(a: Group, b: Group)
    requires Second(a) + ['|'] + Rest(a) == Second(b) + ['|'] + Rest(b) && '|' !in Second(a) && '|' !in Second(b)
    ensures Second(a) == Second(b) && Rest(a) == Rest(b)
  {
    SplitFirst(Second(a), Rest(a), Second(b), Rest(b), '|');
  }

  lemma RestHasBar(g: Group)
    requires !g.MessageOnly?
    ensures '|' in Rest(g)
  {
    assert Rest(g)[|g.value|] == '|';
  }

  /** Messages without bars are told from exceptions. */
  lemma SameShape(a: Group, b: Group)
    requires Rest(a) == Rest(b) && (a.MessageOnly? ==> '|' !in a.message) && (b.MessageOnly? ==> '|' !in b.message)
    ensures a.MessageOnly? <==> b.MessageOnly?
  {
    if !a.MessageOnly? {
      RestHasBar(a);
    }
    if !b.MessageOnly? {
      RestHasBar(b);
    }
  }

  lemma FramedFromTheEnd(g: Group)
    requires g.Framed?
    ensures Rest(g) == (g.value + ['|'] + g.file + ['|'] + g.function_) + ['|'] + DecimalInt(g.lineno)
  {}

  /** What stands in front of the line number is read off the text. */
  lemma SameLine(a: Group, b: Group)
    requires a.Framed? && b.Framed? && Rest(a) == Rest(b)
    ensures a.lineno == b.lineno
    ensures a.value + ['|'] + a.file + ['|'] + a.function_ == b.value + ['|'] + b.file + ['|'] + b.function_
  {
    FramedFromTheEnd(a);
    FramedFromTheEnd(b);
    SplitLast(a.value + ['|'] + a.file + ['|'] + a.function_, DecimalInt(a.lineno),
              b.value + ['|'] + b.file + ['|'] + b.function_, DecimalInt(b.lineno), '|');
    DecimalIntInjective(a.lineno, b.lineno);
  }

  lemma FramedIsNotUnframed(a: Group, b: Group)
    requires a.NoFrame? && b.Framed?
    ensures Rest(a) != Rest(b)
  {
    if Rest(a) == Rest(b) {
      FramedFromTheEnd(b);
      SplitLast(a.value, "", b.value + ['|'] + b.file + ['|'] + b.function_, DecimalInt(b.lineno), '|');
    }
  }

  lemma SameFraming(a: Group, b: Group)
    requires Rest(a) == Rest(b) && !a.MessageOnly? && !b.MessageOnly?
    ensures a.Framed? <==> b.Framed?
  {
    if a.NoFrame? && b.Framed? {
      FramedIsNotUnframed(a, b);
    } else if a.Framed? && b.NoFrame? {
      FramedIsNotUnframed(b, a);
    }
  }

  // ---------------------------------------------------------------- bars in one field

  lemma FreeFields(g: Group, fs: set<Field>)
    requires BarsOnlyIn(g, fs)
    ensures PlatformField !in fs ==> '|' !in g.platform
    ensures MessageField !in fs && g.MessageOnly? ==> '|' !in g.message
    ensures TypeField !in fs ==> '|' !in Second(g)
    ensures ValueField !in fs && !g.MessageOnly? ==> '|' !in g.value
    ensures FileField !in fs && g.Framed? ==> '|' !in g.file
    ensures FunctionField !in fs && g.Framed? ==> '|' !in g.function_
  {
    assert '|' !in "no-exception";
    assert PlatformField !in fs ==> '|' !in FieldOf(g, PlatformField);
    assert MessageField !in fs ==> '|' !in FieldOf(g, MessageField);
    assert TypeField !in fs ==> '|' !in FieldOf(g, TypeField);
    assert ValueField !in fs ==> '|' !in FieldOf(g, ValueField);
    assert FileField !in fs ==> '|' !in FieldOf(g, FileField);
    assert FunctionField !in fs ==> '|' !in FieldOf(g, FunctionField);
  }

  /** From what follows a type without bars, the shape is known. */
  lemma SameKindOfGroup(a: Group, b: Group, fs: set<Field>)
    requires BarsOnlyIn(a, fs) && BarsOnlyIn(b, fs) && TextOf(a) == TextOf(b)
    requires PlatformField !in fs && MessageField !in fs && TypeField !in fs
    ensures a.platform == b.platform && Second(a) == Second(b) && Rest(a) == Rest(b)
    ensures (a.MessageOnly? <==> b.MessageOnly?) && (a.Framed? <==> b.Framed?)
  {
    FreeFields(a, fs);
    FreeFields(b, fs);
    SamePlatform(a, b);
    SameSecond(a, b);
    SameShape(a, b);
    if !a.MessageOnly? {
      SameFraming(a, b);
    }
  }

  lemma FramedDecides(a: Group, b: Group, fs: set<Field>)
    requires BarsOnlyIn(a, fs) && BarsOnlyIn(b, fs) && a.Framed? && b.Framed? && Rest(a) == Rest(b)
    requires fs <= {ValueField} || fs <= {FileField} || fs <= {FunctionField}
    ensures a.value == b.value && a.file == b.file && a.function_ == b.function_ && a.lineno == b.lineno
  {
    FreeFields(a, fs);
    FreeFields(b, fs);
    SameLine(a, b);
    if FunctionField !in fs {
      SplitLast(a.value + ['|'] + a.file, a.function_, b.value + ['|'] + b.file, b.function_, '|');
      if FileField !in fs {
        SplitLast(a.value, a.file, b.value, b.file, '|');
      } else {
        SplitFirst(a.value, a.file, b.value, b.file, '|');
      }
    } else {
      FunctionDecides(a.value, a.file, a.function_, b.value, b.file, b.function_);
    }
  }

  lemma FunctionDecides(v1: string, f1: string, g1: string, v2: string, f2: string, g2: string)
    requires v1 + ['|'] + f1 + ['|'] + g1 == v2 + ['|'] + f2 + ['|'] + g2
    requires '|' !in v1 && '|' !in v2 && '|' !in f1 && '|' !in f2
    ensures v1 == v2 && f1 == f2 && g1 == g2
  {
    assert v1 + ['|'] + f1 + ['|'] + g1 == v1 + ['|'] + (f1 + ['|'] + g1);
    assert v2 + ['|'] + f2 + ['|'] + g2 == v2 + ['|'] + (f2 + ['|'] + g2);
    SplitFirst(v1, f1 + ['|'] + g1, v2, f2 + ['|'] + g2, '|');
    SplitFirst(f1, g1, f2, g2, '|');
  }

  /** Bars in the value, in the file or in the function alone do no harm. */
  lemma OneBehindTypeIsExact(a: Group, b: Group, fs: set<Field>)
    requires BarsOnlyIn(a, fs) && BarsOnlyIn(b, fs) && TextOf(a) == TextOf(b)
    requires fs <= {ValueField} || fs <= {FileField} || fs <= {FunctionField}
    ensures a == b
  {
    SameKindOfGroup(a, b, fs);
    if a.NoFrame? {
      SplitLast(a.value, "", b.value, "", '|');
    } else if a.Framed? {
      FramedDecides(a, b, fs);
    }
  }

  /** What is in front of the last bar behind the platform, and what follows it. */
  function Front(g: Group): string {
    match g
    case MessageOnly(_, _) => "no-exception"
    case NoFrame(_, k, v) => k + ['|'] + v
    case Framed(_, k, v, file, function_, _) => k + ['|'] + v + ['|'] + file + ['|'] + function_
  }

  function End(g: Group): string {
    match g
    case MessageOnly(_, m) => m
    case NoFrame(_, _, _) => ""
    case Framed(_, _, _, _, _, line) => DecimalInt(line)
  }

  lemma FiveFromTheEnd(k: string, v: string, f: string, n: string, d: string)
    ensures k + ['|'] + ((v + ['|'] + f + ['|'] + n) + ['|'] + d) == (k + ['|'] + v + ['|'] + f + ['|'] + n) + ['|'] + d
  {
    var middle := v + ['|'] + f + ['|'] + n;
    assert k + ['|'] + (middle + ['|'] + d) == (k + ['|'] + middle) + ['|'] + d;
    assert k + ['|'] + middle == k + ['|'] + v + ['|'] + f + ['|'] + n;
  }

  lemma TailFromTheEnd(g: Group)
    ensures Second(g) + ['|'] + Rest(g) == Front(g) + ['|'] + End(g)
  {
    if g.Framed? {
      FramedFromTheEnd(g);
      FiveFromTheEnd(g.kind, g.value, g.file, g.function_, DecimalInt(g.lineno));
    }
  }

  lemma FrontHasBar(g: Group)
    requires !g.MessageOnly?
    ensures '|' in Front(g)
  {
    assert Front(g)[|g.kind|] == '|';
  }

  lemma FrontDecides(a: Group, b: Group)
    requires Front(a) == Front(b) && End(a) == End(b)
    requires BarsOnlyIn(a, {TypeField}) && BarsOnlyIn(b, {TypeField})
    ensures (a.MessageOnly? <==> b.MessageOnly?) && (a.Framed? <==> b.Framed?)
    ensures !a.MessageOnly? ==> a.kind == b.kind && a.value == b.value
    ensures a.Framed? ==> a.file == b.file && a.function_ == b.function_ && a.lineno == b.lineno
  {
    FreeFields(a, {TypeField});
    FreeFields(b, {TypeField});
    assert '|' !in "no-exception";
    if !a.MessageOnly? {
      FrontHasBar(a);
    }
    if !b.MessageOnly? {
      FrontHasBar(b);
    }
    if a.NoFrame? && b.NoFrame? {
      SplitLast(a.kind, a.value, b.kind, b.value, '|');
    } else if a.Framed? && b.Framed? {
      FramedFront(a, b);
    }
  }

  lemma FramedFront(a: Group, b: Group)
    requires a.Framed? && b.Framed? && Front(a) == Front(b) && End(a) == End(b)
    requires '|' !in a.value && '|' !in b.value && '|' !in a.file && '|' !in b.file
    requires '|' !in a.function_ && '|' !in b.function_
    ensures a.kind == b.kind && a.value == b.value && a.file == b.file && a.function_ == b.function_
    ensures a.lineno == b.lineno
  {
    DecimalIntInjective(a.lineno, b.lineno);
    SplitLast(a.kind + ['|'] + a.value + ['|'] + a.file, a.function_,
              b.kind + ['|'] + b.value + ['|'] + b.file, b.function_, '|');
    SplitLast(a.kind + ['|'] + a.value, a.file, b.kind + ['|'] + b.value, b.file, '|');
    SplitLast(a.kind, a.value, b.kind, b.value, '|');
  }

  /** Nor do bars in the type alone. */
  lemma TypeIsExact(a: Group, b: Group)
    requires BarsOnlyIn(a, {TypeField}) && BarsOnlyIn(b, {TypeField}) && TextOf(a) == TextOf(b)
    ensures a == b
  {
    FreeFields(a, {TypeField});
    FreeFields(b, {TypeField});
    SamePlatform(a, b);
    TailFromTheEnd(a);
    TailFromTheEnd(b);
    EndIsFree(a);
    EndIsFree(b);
    SplitLast(Front(a), End(a), Front(b), End(b), '|');
    FrontDecides(a, b);
  }

  lemma EndIsFree(g: Group)
    requires g.MessageOnly? ==> '|' !in g.message
    ensures '|' !in End(g)
  {}

  // ---------------------------------------------------------------- bars that collide

  /** The group with `a|a` in one of its four middle fields and `a` in the others. */
  function WithBarIn(f: Field): Group {
    Framed("p", if f == TypeField then "a|a" else "a", if f == ValueField then "a|a" else "a",
           if f == FileField then "a|a" else "a", if f == FunctionField then "a|a" else "a", 1)
  }

  function BehindA(s: string): string {
    "a|" + s
  }

  lemma BehindTwo(s: string)
    ensures "a|a" + (['|'] + s) == BehindA(BehindA(s)) && "a" + (['|'] + s) == BehindA(s)
  {
    assert "a|a" + (['|'] + s) == BehindA(BehindA(s));
    assert "a" + (['|'] + s) == BehindA(s);
  }

  lemma FieldByField(g: Group)
    requires g.Framed?
    ensures TextOf(g)
         == g.platform + (['|'] + (g.kind + (['|'] + (g.value + (['|'] +
                                                                 (g.file + (['|'] + (g.function_ + (['|'] + DecimalInt(g.lineno))))))))))
  {
    TextParts(g);
    BarBetween(g.function_, DecimalInt(g.lineno));
    BarBetween(g.file, g.function_ + ['|'] + DecimalInt(g.lineno));
    BarBetween(g.value, g.file + ['|'] + (g.function_ + ['|'] + DecimalInt(g.lineno)));
    BarBetween(g.kind, Rest(g));
    BarBetween(g.platform, Second(g) + ['|'] + Rest(g));
  }

  lemma BarBetween(s: string, t: string)
    ensures s + ['|'] + t == s + (['|'] + t)
  {}

  /** Its text does not show which field that is. */
  lemma BarMoves(f: Field)
    requires f == TypeField || f == ValueField || f == FileField || f == FunctionField
    ensures TextOf(WithBarIn(f)) == "p" + (['|'] + BehindA(BehindA(BehindA(BehindA(BehindA(DecimalInt(1)))))))
  {
    var d := DecimalInt(1);
    FieldByField(WithBarIn(f));
    BehindTwo(d);
    BehindTwo(BehindA(d));
    BehindTwo(BehindA(BehindA(d)));
    BehindTwo(BehindA(BehindA(BehindA(d))));
    BehindTwo(BehindA(BehindA(BehindA(BehindA(d)))));
  }

  lemma BarsOnlyThere(f: Field)
    requires f == TypeField || f == ValueField || f == FileField || f == FunctionField
    ensures BarsOnlyIn(WithBarIn(f), {f})
  {}

  /** The first and the last of the four fields that may hold bars, where two may. */
  function First(fs: set<Field>): Field {
    if TypeField in fs then TypeField else if ValueField in fs then ValueField else FileField
  }

  function Last(fs: set<Field>): Field {
    if FunctionField in fs then FunctionField else if FileField in fs then FileField else ValueField
  }

  lemma TwoOfFour(fs: set<Field>)
    requires !AtMostOne(fs) && PlatformField !in fs && MessageField !in fs
    ensures First(fs) in fs && Last(fs) in fs && First(fs) != Last(fs)
  {
    assert !(fs <= {FunctionField});
    var e :| e in fs && e != FunctionField;
    assert e == TypeField || e == ValueField || e == FileField by {
      assert e.TypeField? || e.ValueField? || e.FileField? || e.PlatformField? || e.MessageField?;
    }
    assert First(fs) in fs;
    assert !(fs <= {First(fs)});
    var f :| f in fs && f != First(fs);
  }

  /** Two groups with bars in `fs` only that have one text. */
  function Collision(fs: set<Field>): (Group, Group) {
    if PlatformField in fs then (MessageOnly("x|y", ""), NoFrame("x", "y", "no-exception"))
    else if MessageField in fs then (MessageOnly("x", "y|"), NoFrame("x", "no-exception", "y"))
    else (WithBarIn(First(fs)), WithBarIn(Last(fs)))
  }

  lemma BarsOnlyInMore(g: Group, fs: set<Field>, more: set<Field>)
    requires BarsOnlyIn(g, fs) && fs <= more
    ensures BarsOnlyIn(g, more)
  {}

  /** A bar in a platform that could as well end it. */
  lemma PlatformText(x: string, y: string)
    ensures TextOf(MessageOnly(x + ['|'] + y, "")) == TextOf(NoFrame(x, y, "no-exception"))
  {
    TextParts(MessageOnly(x + ['|'] + y, ""));
    TextParts(NoFrame(x, y, "no-exception"));
    BarBetween(x + ['|'] + y, "no-exception" + ['|'] + "");
    BarBetween(x, y + ['|'] + ("no-exception" + ['|'] + ""));
    BarBetween(y, "no-exception" + ['|'] + "");
    var rest := ['|'] + ("no-exception" + ['|'] + "");
    assert (x + ['|'] + y) + rest == x + (['|'] + (y + rest));
  }

  lemma PlatformCollides()
    ensures TextOf(MessageOnly("x|y", "")) == TextOf(NoFrame("x", "y", "no-exception"))
    ensures BarsOnlyIn(MessageOnly("x|y", ""), {PlatformField}) && BarsOnlyIn(NoFrame("x", "y", "no-exception"), {})
  {
    PlatformText("x", "y");
    assert "x|y" == "x" + ['|'] + "y";
  }

  /** A bar at the end of a message that could as well begin an empty frame. */
  lemma MessageText(x: string, m: string)
    ensures TextOf(MessageOnly(x, m + ['|'])) == TextOf(NoFrame(x, "no-exception", m))
  {
    TextParts(MessageOnly(x, m + ['|']));
    TextParts(NoFrame(x, "no-exception", m));
    assert m + ['|'] + "" == m + ['|'];
  }

  lemma MessageCollides()
    ensures TextOf(MessageOnly("x", "y|")) == TextOf(NoFrame("x", "no-exception", "y"))
    ensures BarsOnlyIn(MessageOnly("x", "y|"), {MessageField}) && BarsOnlyIn(NoFrame("x", "no-exception", "y"), {})
  {
    MessageText("x", "y");
    assert "y|" == "y" + ['|'];
  }

  lemma CollisionCollides(fs: set<Field>)
    requires !AtMostOne(fs)
    ensures var (a, b) := Collision(fs);
            BarsOnlyIn(a, fs) && BarsOnlyIn(b, fs) && TextOf(a) == TextOf(b) && a != b
  {
    var (a, b) := Collision(fs);
    if PlatformField in fs {
      PlatformCollides();
      BarsOnlyInMore(a, {PlatformField}, fs);
      BarsOnlyInMore(b, {}, fs);
    } else if MessageField in fs {
      MessageCollides();
      BarsOnlyInMore(a, {MessageField}, fs);
      BarsOnlyInMore(b, {}, fs);
    } else {
      MiddleCollides(fs);
    }
  }

  lemma MiddleCollides(fs: set<Field>)
    requires !AtMostOne(fs) && PlatformField !in fs && MessageField !in fs
    ensures var (a, b) := Collision(fs);
            BarsOnlyIn(a, fs) && BarsOnlyIn(b, fs) && TextOf(a) == TextOf(b) && a != b
  {
    TwoOfFour(fs);
    BarMoves(First(fs));
    BarMoves(Last(fs));
    BarsOnlyThere(First(fs));
    BarsOnlyThere(Last(fs));
    BarsOnlyInMore(WithBarIn(First(fs)), {First(fs)}, fs);
    BarsOnlyInMore(WithBarIn(Last(fs)), {Last(fs)}, fs);
  }

  /** Texts tell groups apart exactly if bars stay in one field, and not in the platform or the message. */
  lemma ExactIff(fs: set<Field>)
    ensures Exact(fs) <==> AtMostOne(fs)
  {
    if AtMostOne(fs) {
      forall a, b | BarsOnlyIn(a, fs) && BarsOnlyIn(b, fs) && TextOf(a) == TextOf(b) ensures a == b {
        if fs <= {TypeField} {
          BarsOnlyInMore(a, fs, {TypeField});
          BarsOnlyInMore(b, fs, {TypeField});
          TypeIsExact(a, b);
        } else {
          OneBehindTypeIsExact(a, b, fs);
        }
      }
    } else {
      CollisionCollides(fs);
    }
  }

  // ---------------------------------------------------------------- events

  /** Events with bars in `fs` only have one text exactly when they are of one group. */
  ghost predicate TellsApart(lower: Lower, fs: set<Field>) {
    forall a, b | BarsOnlyIn(GroupOf(lower, a), fs) && BarsOnlyIn(GroupOf(lower, b), fs) ::
      HashedText(lower, a) == HashedText(lower, b) <==> GroupOf(lower, a) == GroupOf(lower, b)
  }

  predicate Plain(c: char) {
    'a' <= c <= 'z' || c == '-' || c == '|'
  }

  predicate PlainText(s: string) {
    forall i | 0 <= i < |s| :: Plain(s[i])
  }

  /** Lower-case letters and the two signs are left alone. */
  ghost predicate Keeps(lower: Lower) {
    forall c | Plain(c) :: lower(c) == c
  }

  lemma PlainStays(lower: Lower, s: string)
    requires Keeps(lower) && PlainText(s)
    ensures Normalize(lower, s) == s
  {
    assert s != "" ==> Plain(s[0]) && Plain(s[|s| - 1]);
    TrimTrimmed(s);
  }

  predicate PlainGroup(g: Group) {
    && PlainText(g.platform)
    && match g
       case MessageOnly(_, m) => PlainText(m)
       case NoFrame(_, k, v) => PlainText(k) && PlainText(v)
       case Framed(_, k, v, file, function_, _) =>
         PlainText(k) && PlainText(v) && PlainText(file) && PlainText(function_)
  }

  /** An event of a group. */
  function EventOf(g: Group): SentryEvent {
    match g
    case MessageOnly(p, m) => SentryEvent(p, "", m, [])
    case NoFrame(p, k, v) => SentryEvent(p, "", "", [ExceptionValue(k, v, [])])
    case Framed(p, k, v, file, function_, line) =>
      SentryEvent(p, "", "", [ExceptionValue(k, v, [Frame(file, function_, line)])])
  }

  lemma EventIsOfGroup(lower: Lower, g: Group)
    requires Keeps(lower) && PlainGroup(g)
    ensures GroupOf(lower, EventOf(g)) == g
  {
    PlainStays(lower, g.platform);
    match g
    case MessageOnly(_, m) =>
      PlainStays(lower, m);
    case NoFrame(_, k, v) =>
      PlainStays(lower, k);
      PlainStays(lower, v);
    case Framed(_, k, v, file, function_, _) =>
      PlainStays(lower, k);
      PlainStays(lower, v);
      PlainStays(lower, file);
      PlainStays(lower, function_);
  }

  lemma CollisionIsPlain(fs: set<Field>)
    ensures PlainGroup(Collision(fs).0) && PlainGroup(Collision(fs).1)
  {
    PlainWords();
  }

  lemma PlainWords()
    ensures PlainText("p") && PlainText("x") && PlainText("y") && PlainText("a")
    ensures PlainText("x|y") && PlainText("y|") && PlainText("a|a") && PlainText("no-exception")
  {}

  /** Where texts tell groups apart, they tell events apart. */
  lemma ExactTellsApart(lower: Lower, fs: set<Field>)
    requires Exact(fs)
    ensures TellsApart(lower, fs)
  {
    forall a, b | BarsOnlyIn(GroupOf(lower, a), fs) && BarsOnlyIn(GroupOf(lower, b), fs)
      ensures HashedText(lower, a) == HashedText(lower, b) <==> GroupOf(lower, a) == GroupOf(lower, b)
    {
      TextJoinsFields(lower, a);
      TextJoinsFields(lower, b);
      assert HashedText(lower, a) == TextOf(GroupOf(lower, a)) && HashedText(lower, b) == TextOf(GroupOf(lower, b));
    }
  }

  /** Two events of different groups, with bars in `fs` only, and one text. */
  lemma EventsCollide(lower: Lower, fs: set<Field>) returns (a: SentryEvent, b: SentryEvent)
    requires Keeps(lower) && !AtMostOne(fs)
    ensures BarsOnlyIn(GroupOf(lower, a), fs) && BarsOnlyIn(GroupOf(lower, b), fs)
    ensures HashedText(lower, a) == HashedText(lower, b) && GroupOf(lower, a) != GroupOf(lower, b)
  {
    var (g, h) := Collision(fs);
    CollisionCollides(fs);
    CollisionIsPlain(fs);
    a, b := EventOf(g), EventOf(h);
    EventIsOfGroup(lower, g);
    EventIsOfGroup(lower, h);
    TextJoinsFields(lower, a);
    TextJoinsFields(lower, b);
  }

  /** Hashed texts group events rightly exactly if bars stay in one field, and not in the platform or the message. */
  lemma GroupsExactlyIff(lower: Lower, fs: set<Field>)
    requires Keeps(lower)
    ensures TellsApart(lower, fs) <==> AtMostOne(fs)
  {
    if AtMostOne(fs) {
      ExactIff(fs);
      ExactTellsApart(lower, fs);
    } else {
      var a, b := EventsCollide(lower, fs);
    }
  }
}
