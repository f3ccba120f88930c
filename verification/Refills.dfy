/**
 What the reader's window shows, as a function of the body: at which offsets parsing an
 envelope refills the window, and which bytes a payload kept as a view of it shows in the
 end. For a source that hands out as much as fits.
 */
module Refills {
  import opened Base
  import opened EnvelopeGrammar

  /** Size of the reader's window: the longest line and its newline. */
  const WINDOW := MAX_LINE + 1

  /**
   The offsets of the body that were put at the front of the window, one after the other,
   and the offset up to which the body has been read by then.
   */
  datatype Window = Window(refills: seq<nat>, end: nat)

  function Add(refills: seq<nat>, at: nat): (r: seq<nat>)
    ensures r != [] && Last(r) == at
  {
    if refills != [] && Last(refills) == at then refills else refills + [at]
  }

  /** The byte at index `k` of the window: that of the last refill that reaches so far. */
  function Shown(body: bytes, refills: seq<nat>, k: int): byte {
    if refills == [] then 0
    else
      var at := Last(refills);
      if 0 <= k < WINDOW && at + k < |body| then body[at + k] else Shown(body, refills[..|refills| - 1], k)
  }

  lemma ShownAdd(body: bytes, refills: seq<nat>, at: nat, k: int)
    ensures Shown(body, Add(refills, at), k)
         == if 0 <= k < WINDOW && at + k < |body| then body[at + k] else Shown(body, refills, k)
  {
    assert (refills + [at])[..|refills|] == refills;
  }

  /** `v` shows what these refills put there. */
  ghost predicate Pictures(body: bytes, refills: seq<nat>, v: bytes) {
    forall k | 0 <= k < |v| && k < |body| :: v[k] == Shown(body, refills, k)
  }

  /** A refill replaces the front of the window, up to its end or that of the body. */
  lemma PicturesAdd(body: bytes, refills: seq<nat>, at: nat, n: nat, before: bytes, after: bytes)
    requires |before| == |after| == WINDOW && n <= WINDOW && at + n <= |body| && (n == WINDOW || at + n == |body|)
    requires forall k | 0 <= k < n :: after[k] == body[at + k]
    requires forall k | n <= k < WINDOW :: after[k] == before[k]
    requires if refills == [] then at == 0 else Pictures(body, refills, before)
    ensures Pictures(body, Add(refills, at), after)
  {
    forall k | 0 <= k < WINDOW && k < |body|
      ensures after[k] == Shown(body, Add(refills, at), k)
    {
      ShownAdd(body, refills, at, k);
    }
  }

  // ---------------------------------------------------------------- single reads

  /** What is left unread is slid to the front, and the window filled up behind it. */
  function Refill(size: nat, win: Window, at: nat): (r: Window)
    ensures r.refills != []
  {
    Window(Add(win.refills, at), if at + WINDOW < size then at + WINDOW else size)
  }

  predicate HasNewline(body: bytes, lo: nat, hi: nat) {
    exists k | lo <= k < hi && k < |body| :: body[k] == NL
  }

  /** After a line is read from offset `at` on. */
  function AfterLine(body: bytes, win: Window, at: nat): (r: Window)
    ensures win.refills != [] ==> r.refills != []
  {
    if HasNewline(body, at, win.end) then win else Refill(|body|, win, at)
  }

  /** After one byte is read from offset `at` on, or the end is found there. */
  function AfterByte(size: nat, win: Window, at: nat): (r: Window)
    ensures win.refills != [] ==> r.refills != []
  {
    if at < win.end then win else Refill(size, win, at)
  }

  /** After `n` bytes are read from offset `at` on; a long rest is read past the window. */
  function AfterBytes(size: nat, win: Window, at: nat, n: nat): (r: Window)
    ensures win.refills != [] ==> r.refills != []
  {
    if at + n <= win.end then win
    else if at + n - win.end >= WINDOW then win.(end := at + n)
    else Refill(size, win, win.end)
  }

  // ---------------------------------------------------------------- envelopes

  /** After a payload from offset `at` on, with the newline that ends it. */
  function AfterPayload(body: bytes, win: Window, at: nat, meta: ItemMeta): (r: Window)
    ensures win.refills != [] ==> r.refills != []
  {
    match meta.length
    case None => AfterLine(body, win, at)
    case Some(n) =>
      if n < 0 then win
      else AfterByte(|body|, AfterBytes(|body|, win, at, n), at + n)
  }

  /** Where the payload is, when its header line is at offset `at`. */
  function BehindHeader(body: bytes, at: nat, raw: bytes): nat {
    if at + |raw| + 1 <= |body| then at + |raw| + 1 else |body|
  }

  function AfterItem(body: bytes, win: Window, at: nat, raw: bytes, meta: ItemMeta): (r: Window)
    ensures win.refills != [] ==> r.refills != []
  {
    AfterPayload(body, AfterLine(body, win, at), BehindHeader(body, at, raw), meta)
  }

  /** After the header line of the envelope and these items behind it. */
  function AfterItems(body: bytes, raw: bytes, items: seq<Item>): (r: Window)
    ensures r.refills != []
  {
    if items == [] then Refill(|body|, Window([], 0), 0)
    else
      var front, it := items[..|items| - 1], items[|items| - 1];
      AfterItem(body, AfterItems(body, raw, front), Size(raw, front), it.raw, it.meta)
  }

  /** After the end, or a blank line and then the end, was found from offset `at` on. */
  function AfterEnd(body: bytes, win: Window, at: nat): (r: Window)
    ensures win.refills != [] ==> r.refills != []
  {
    var w := AfterLine(body, win, at);
    if at >= |body| then w else AfterLine(body, w, |body|)
  }

  /** The window when the whole envelope is parsed. */
  function AtLast(body: bytes, env: Envelope): (r: Window)
    ensures r.refills != []
  {
    var size := Size(env.raw, env.items);
    AfterEnd(body, AfterItems(body, env.raw, env.items), if size < |body| then size else |body|)
  }

  // ---------------------------------------------------------------- payloads

  /** The offset at the front of the window when line payload `i` is read. */
  function BaseOf(body: bytes, raw: bytes, items: seq<Item>, i: nat): nat
    requires i < |items|
  {
    Last(AfterItems(body, raw, items[..i + 1]).refills)
  }

  /** Where in the window line payload `i` is returned. */
  function PlaceOf(body: bytes, raw: bytes, items: seq<Item>, i: nat): int
    requires i < |items|
  {
    Offset(raw, items, i) - BaseOf(body, raw, items, i)
  }

  /** What the view of payload `i` shows when the whole envelope is parsed. */
  function ShownPayload(body: bytes, env: Envelope, i: nat): (p: bytes)
    requires i < |env.items|
    ensures |p| == |env.items[i].payload|
  {
    var lo := PlaceOf(body, env.raw, env.items, i);
    seq(|env.items[i].payload|, k requires 0 <= k => Shown(body, AtLast(body, env).refills, lo + k))
  }

  /** The payload of item `i` as it is kept: a line is a view, any other payload is a copy. */
  function KeptPayload(body: bytes, env: Envelope, i: nat): (p: bytes)
    requires i < |env.items|
    ensures |p| == |env.items[i].payload|
  {
    if env.items[i].meta.length == None then ShownPayload(body, env, i) else env.items[i].payload
  }

  /** The last refill to reach a line payload put there, byte for byte, what the payload is. */
  ghost predicate Undisturbed(body: bytes, env: Envelope) {
    forall i | 0 <= i < |env.items| :: KeptPayload(body, env, i) == env.items[i].payload
  }
}
