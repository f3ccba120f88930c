/** How the processor groups events: the text that is hashed into an issue id. */
module Fingerprint {
  import opened Base
  import opened Text

  datatype Frame = Frame(file: string, function_: string, lineno: int)

  datatype ExceptionValue = ExceptionValue(kind: string, value: string, frames: seq<Frame>)

  /** The part of an event that the processor reads. */
  datatype SentryEvent = SentryEvent(platform: string, level: string, message: string, values: seq<ExceptionValue>)

  /** Unicode lower case, code point by code point. */
  type Lower = char -> char

  function Normalize(lower: Lower, s: string): string {
    var t := Trim(s);
    seq(|t|, i requires 0 <= i < |t| => lower(t[i]))
  }

  /** The text whose digest is the issue id. */
  function HashedText(lower: Lower, ev: SentryEvent): string {
    Normalize(lower, ev.platform) + "|" +
    if ev.values != [] then
      var v := ev.values[0];
      Normalize(lower, v.kind) + "|" + (Normalize(lower, v.value) + "|" + FrameText(lower, v.frames))
    else "no-exception" + "|" + Normalize(lower, ev.message)
  }

  function FrameText(lower: Lower, frames: seq<Frame>): string {
    if frames != [] then
      var f := frames[0];
      Normalize(lower, f.file) + "|" + (Normalize(lower, f.function_) + "|" + DecimalInt(f.lineno))
    else ""
  }

  /** Hex of the first half of the SHA-256 of a text. */
  type Digest = string -> string

  function IssueID(digest: Digest, lower: Lower, ev: SentryEvent): string {
    digest(HashedText(lower, ev))
  }

  /** The summary without AI. */
  function Summary(ev: SentryEvent): (s: string)
    ensures ev.values == [] ==> s != ""
  {
    if ev.values != [] then
      var v := ev.values[0];
      if Trim(v.value) == "" then v.kind else v.kind + ": " + Trim(v.value)
    else if Trim(ev.message) != "" then Trim(ev.message) else "unknown error"
  }

  /** What events are grouped by. */
  datatype Group =
    | MessageOnly(platform: string, message: string)
    | NoFrame(platform: string, kind: string, value: string)
    | Framed(platform: string, kind: string, value: string, file: string, function_: string, lineno: int)

  function GroupOf(lower: Lower, ev: SentryEvent): Group {
    var platform := Normalize(lower, ev.platform);
    if ev.values == [] then MessageOnly(platform, Normalize(lower, ev.message))
    else
      var v := ev.values[0];
      var kind, value := Normalize(lower, v.kind), Normalize(lower, v.value);
      if v.frames == [] then NoFrame(platform, kind, value)
      else
        var f := v.frames[0];
        Framed(platform, kind, value, Normalize(lower, f.file), Normalize(lower, f.function_), f.lineno)
  }

  /** The fields that the text lists, a bar between each two. */
  function Fields(g: Group): (fs: seq<string>)
    ensures fs != []
  {
    match g
    case MessageOnly(p, m) => [p, "no-exception", m]
    case NoFrame(p, k, v) => [p, k, v, ""]
    case Framed(p, k, v, file, function_, line) => [p, k, v, file, function_, DecimalInt(line)]
  }

  lemma JoinCons(f: string, fs: seq<string>)
    requires fs != []
    ensures Join([f] + fs, '|') == f + "|" + Join(fs, '|')
  {
    assert ([f] + fs)[1..] == fs;
  }

  lemma JoinThree(a: string, b: string, c: string)
    ensures Join([a, b, c], '|') == a + "|" + (b + "|" + c)
  {
    JoinCons(b, [c]);
    JoinCons(a, [b] + [c]);
    assert [a] + ([b] + [c]) == [a, b, c];
  }

  /** Three fields in front of others. */
  lemma JoinFront(a: string, b: string, c: string, fs: seq<string>)
    requires fs != []
    ensures Join([a, b, c] + fs, '|') == a + "|" + (b + "|" + (c + "|" + Join(fs, '|')))
  {
    JoinCons(c, fs);
    JoinCons(b, [c] + fs);
    JoinCons(a, [b] + ([c] + fs));
    assert [a] + ([b] + ([c] + fs)) == [a, b, c] + fs;
  }

  function TextOf(g: Group): string {
    Join(Fields(g), '|')
  }

  /** The second field, and what follows it. */
  function Second(g: Group): string {
    if g.MessageOnly? then "no-exception" else g.kind
  }

  function Rest(g: Group): string {
    match g
    case MessageOnly(_, m) => m
    case NoFrame(_, _, v) => v + ['|'] + ""
    case Framed(_, _, v, file, function_, line) => v + ['|'] + (file + ['|'] + (function_ + ['|'] + DecimalInt(line)))
  }

  lemma TextParts(g: Group)
    ensures TextOf(g) == g.platform + ['|'] + (Second(g) + ['|'] + Rest(g))
  {
    match g
    case MessageOnly(p, m) =>
      JoinThree(p, "no-exception", m);
    case NoFrame(p, k, v) =>
      JoinFront(p, k, v, [""]);
      assert [p, k, v] + [""] == [p, k, v, ""];
    case Framed(p, k, v, file, function_, line) =>
      JoinThree(file, function_, DecimalInt(line));
      JoinFront(p, k, v, [file, function_, DecimalInt(line)]);
      assert [p, k, v] + [file, function_, DecimalInt(line)] == Fields(g);
  }

  /** The text lists the fields of the group, a bar between each two. */
  lemma TextJoinsFields(lower: Lower, ev: SentryEvent)
    ensures HashedText(lower, ev) == TextOf(GroupOf(lower, ev))
  {
    TextParts(GroupOf(lower, ev));
  }
}
