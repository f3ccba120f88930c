/**
 The envelope parser as it runs: a fixed window over a source that hands out the body in
 chunks, lines returned as views of that window, payloads read past it. Everything is
 tied to the parser over whole byte sequences in `EnvelopeGrammar`.
 */
module EnvelopeReader {
  import opened Base
  import opened EnvelopeGrammar
  import opened Refills

  /**
   The body being read. Each read hands out at least one byte and at most what fits,
   and end of input is reported on its own, with no bytes. A `whole` source always
   hands out as much as fits, like a reader over a byte slice in memory.
   */
  class Source {
    const data: bytes
    const whole: bool
    var pos: nat

    constructor (data: bytes, whole: bool)
      ensures Valid() && pos == 0 && this.data == data && this.whole == whole
    {
      this.data, this.whole, this.pos := data, whole, 0;
    }

    ghost predicate Valid()
      reads this
    {
      pos <= |data|
    }

    /** Reads into `p[lo..]`; `n == 0` is end of input. */
    method Read(p: array<byte>, lo: nat) returns (n: nat)
      requires Valid() && lo < p.Length
      modifies this`pos, p
      ensures Valid() && pos == old(pos) + n && lo + n <= p.Length
      ensures n == 0 <==> old(pos) == |data|
      ensures whole ==> n == Min(p.Length - lo, |data| - old(pos))
      ensures forall k | 0 <= k < p.Length && !(lo <= k < lo + n) :: p[k] == old(p[k])
      ensures forall k | lo <= k < lo + n :: p[k] == data[old(pos) + (k - lo)]
    {
      var most := Min(p.Length - lo, |data| - pos);
      n := most;
      if !whole && most > 0 {
        n :| 1 <= n <= most;
      }
      forall k | lo <= k < lo + n {
        p[k] := data[pos + k - lo];
      }
      pos := pos + n;
    }
  }

  /** What a search for the next newline cuts off the window. */
  datatype Cut = Full | Cut(lo: nat, hi: nat, atEnd: bool)

  /** A line as a view of the window. */
  datatype LineView = EndOfInput | Overlong | View(lo: nat, hi: nat)

  /** A line as bytes of its own. */
  datatype Text = NoText | LongText | Text(text: bytes)

  class Reader {
    const src: Source
    const buf: array<byte>
    var r: nat
    var w: nat
    var eof: bool
    /** The offsets that were put at the front of the window so far. */
    ghost var refills: seq<nat>

    constructor (src: Source)
      requires src.Valid() && src.pos == 0
      ensures Valid() && !eof && fresh(buf) && this.src == src && At() == 0 && r == w == 0
      ensures Win() == Window([], 0) && (src.whole ==> Tracked())
    {
      this.src := src;
      buf := new byte[WINDOW];
      r, w, eof, refills := 0, 0, false, [];
    }

    /** The window holds the last bytes handed out; an unreported end of input is in `eof`. */
    ghost predicate Valid()
      reads this, src, buf
    {
      && buf.Length == WINDOW && r <= w <= WINDOW && src.Valid() && w - r <= src.pos
      && (eof ==> Drained() && w - r < WINDOW)
      && Holds(r, w, At())
    }

    /** `buf[lo..hi]` is what the body has from offset `at` on. */
    ghost predicate Holds(lo: nat, hi: nat, at: nat)
      requires lo <= hi <= buf.Length && at + (hi - lo) <= |src.data|
      reads buf
    {
      forall j | lo <= j < hi :: buf[j] == src.data[at + (j - lo)]
    }

    ghost function Win(): Window
      reads this, src
    {
      Window(refills, src.pos)
    }

    /** The source hands out as much as fits, and the window shows what its refills put there. */
    ghost predicate Tracked()
      requires Valid()
      reads this, src, buf
    {
      && src.whole
      && (if refills == [] then src.pos == 0 else Pictures(src.data, refills, buf[..]))
      && (r < w ==> refills != [] && Last(refills) + w == src.pos)
    }

    ghost predicate Followed()
      requires Valid()
      reads this, src, buf
    {
      Tracked() && refills != []
    }

    /** Offset in the body of the next unread byte. */
    ghost function At(): nat
      requires r <= w && w - r <= src.pos
      reads this, src
    {
      src.pos - (w - r)
    }

    lemma HoldsPlain(lo: nat, hi: nat, at: nat)
      requires lo <= hi <= buf.Length && at + (hi - lo) <= |src.data| && Holds(lo, hi, at)
      requires NoNewline(lo, hi)
      ensures Plain(src.data, at, at + (hi - lo))
    {
      forall k | at <= k < at + (hi - lo)
        ensures src.data[k] != NL
      {
        assert buf[lo + (k - at)] != NL;
      }
    }

    ghost predicate Drained()
      reads src
    {
      src.pos == |src.data|
    }

    /** The window after its unread bytes are copied to the front, at index `k`. */
    ghost function Slid(k: nat): byte
      requires r <= w <= buf.Length && k < buf.Length
      reads this, buf
    {
      if k < w - r then buf[r + k] else buf[k]
    }

    method Slide()
      requires Valid()
      modifies this`r, this`w, buf
      ensures Valid() && At() == old(At()) && r == 0 && w == old(w - r)
      ensures forall k | 0 <= k < buf.Length :: buf[k] == old(Slid(k))
    {
      if r > 0 {
        forall k | 0 <= k < w - r {
          buf[k] := buf[r + k];
        }
        r, w := 0, w - r;
      }
    }

    /** Reads one more chunk behind the unread bytes. */
    method Load()
      requires Valid() && !eof && w < WINDOW
      modifies this`w, this`eof, src`pos, buf
      ensures Valid() && At() == old(At()) && w >= old(w)
      ensures if old(Drained()) then eof && w == old(w) else !eof && src.pos > old(src.pos)
      ensures src.pos >= old(src.pos)
      ensures forall k | 0 <= k < buf.Length && !(old(w) <= k < w) :: buf[k] == old(buf[k])
      ensures src.whole ==> w == WINDOW || Drained()
    {
      var n := src.Read(buf, w);
      w := w + n;
      eof := n == 0;
    }

    /** Slides the unread bytes to the front of the window and reads one more chunk. */
    method Fill()
      requires Valid() && !eof && w - r < WINDOW
      modifies this, src`pos, buf
      ensures Valid() && At() == old(At()) && r == 0 && w >= old(w - r)
      ensures eof ==> w == old(w - r)
      ensures old(NoNewline(r, w)) ==> NoNewline(0, old(w - r))
      ensures src.pos >= old(src.pos) && (eof || src.pos > old(src.pos))
      ensures old(Tracked()) ==> Tracked() && Win() == Refill(|src.data|, old(Win()), At())
    {
      ghost var tracked, before := Tracked(), buf[..];
      Slide();
      Load();
      if tracked {
        PicturesAdd(src.data, refills, At(), w, before, buf[..]);
      }
      refills := Add(refills, At());
    }

    method IndexNewline(lo: nat, hi: nat) returns (i: nat)
      requires lo <= hi <= buf.Length
      ensures lo <= i <= hi
      ensures i < hi ==> buf[i] == NL
      ensures NoNewline(lo, i)
    {
      i := lo;
      while i < hi && buf[i] != NL
        invariant lo <= i <= hi && NoNewline(lo, i)
      {
        i := i + 1;
      }
    }

    /** `cut` is what a search for the next newline from offset `at` on has to yield. */
    ghost predicate CutsFrom(at: nat, cut: Cut)
      reads this, src, buf
    {
      && Valid() && !eof
      && match cut
         case Full => Plain(src.data, at, at + WINDOW)
         case Cut(lo, hi, atEnd) =>
           && lo <= hi <= WINDOW && at + (hi - lo) == At() && Holds(lo, hi, at)
           && if atEnd then Drained() && r == w && hi - lo < WINDOW && Plain(src.data, at, At())
              else EndsLine(src.data, at, At())
    }

    ghost predicate NoNewline(lo: nat, hi: nat)
      requires hi <= buf.Length
      reads buf
    {
      forall j | lo <= j < hi :: buf[j] != NL
    }

    /** Index `lo` of the window shows offset `at`. */
    ghost predicate Starts(lo: nat, at: nat)
      reads this
    {
      refills != [] && Last(refills) + lo == at
    }

    method TakeLine(i: nat) returns (cut: Cut)
      requires Valid() && !eof && r <= i < w && NoNewline(r, i) && buf[i] == NL
      modifies this`r
      ensures cut == Cut(old(r), i + 1, false) && CutsFrom(old(At()), cut)
      ensures old(Tracked()) ==> Tracked() && Starts(cut.lo, old(At()))
    {
      HoldsPlain(r, i, At());
      cut := Cut(r, i + 1, false);
      r := i + 1;
    }

    method TakeAll() returns (cut: Cut)
      requires Valid() && eof && NoNewline(r, w)
      modifies this`r, this`eof
      ensures cut == Cut(old(r), w, true) && CutsFrom(old(At()), cut)
      ensures old(Tracked()) ==> Tracked() && (cut.lo < cut.hi ==> Starts(cut.lo, old(At())))
    {
      HoldsPlain(r, w, At());
      cut := Cut(r, w, true);
      r, eof := w, false;
    }

    method TakeFull() returns (cut: Cut)
      requires Valid() && !eof && w - r >= WINDOW && NoNewline(r, w)
      modifies this`r
      ensures cut == Full && CutsFrom(old(At()), cut)
    {
      HoldsPlain(r, w, At());
      cut := Full;
      r := w;
    }

    /** The window up to and including the next newline, or all there is before the end. */
    method ReadSlice() returns (cut: Cut)
      requires Valid() && !eof
      modifies this, src`pos, buf
      ensures CutsFrom(old(At()), cut)
      ensures old(Tracked()) && cut.Cut? ==>
                && Tracked() && Win() == AfterLine(src.data, old(Win()), old(At()))
                && (cut.lo < cut.hi ==> Starts(cut.lo, old(At())))
    {
      var s := 0;
      ghost var filled := false;
      while true
        invariant Valid() && At() == old(At())
        invariant 0 <= s <= w - r && (eof ==> s == w - r) && NoNewline(r, r + s)
        invariant old(Tracked()) ==> Tracked()
        invariant if filled then old(Tracked()) ==> RefilledFor(old(Win()), old(At()))
                  else !eof && Win() == old(Win())
        decreases |src.data| - src.pos, !eof
      {
        var i := IndexNewline(r + s, w);
        if i < w {
          cut := TakeLine(i);
          return;
        }
        if eof {
          cut := TakeAll();
          return;
        }
        if w - r >= WINDOW {
          cut := TakeFull();
          return;
        }
        s := w - r;
        HoldsPlain(r, w, At());
        Fill();
        filled := true;
      }
    }

    /** The window was refilled at `at`, where the one before showed no newline. */
    ghost predicate RefilledFor(before: Window, at: nat)
      reads this, src
    {
      !HasNewline(src.data, at, before.end) && Win() == Refill(|src.data|, before, at)
    }

    /** `line` shows what `l` says, with the line read from offset `at` on. */
    ghost predicate Shows(at: nat, l: Line, line: LineView)
      reads this, src, buf
    {
      && Valid() && !eof
      && match l
         case AtEof => line == EndOfInput && at == At() == |src.data|
         case TooLong => line == Overlong
         case Line(text, rest) =>
           && line.View? && line.lo <= line.hi <= WINDOW
           && at + (line.hi - line.lo) <= At() <= at + (line.hi - line.lo) + 1
           && Holds(line.lo, line.hi, at)
           && text == src.data[at..at + (line.hi - line.lo)] && rest == src.data[At()..]
    }

    /** One line without its newline. */
    method ReadLine() returns (line: LineView)
      requires Valid() && !eof
      modifies this, src`pos, buf
      ensures Shows(old(At()), NextLine(src.data[old(At())..]), line)
      ensures old(Tracked()) && line != Overlong ==>
                Tracked() && Win() == AfterLine(src.data, old(Win()), old(At()))
      ensures old(Tracked()) && line.View? ==> Starts(line.lo, old(At()))
    {
      var cut := ReadSlice();
      if cut.Full? {
        FullCut(src.data, old(At()));
        return Overlong;
      }
      if cut.lo == cut.hi {
        return EndOfInput;
      }
      if cut.atEnd {
        LastCut(src.data, old(At()));
        return View(cut.lo, cut.hi);
      }
      LineCut(src.data, old(At()), At());
      line := View(cut.lo, cut.hi - 1);
    }

    method ReadByte() returns (next: Option<byte>)
      requires Valid() && !eof
      modifies this, src`pos, buf
      ensures Valid() && !eof
      ensures if old(At()) == |src.data| then next == None && At() == old(At())
              else next == Some(src.data[old(At())]) && At() == old(At()) + 1
      ensures old(Tracked()) ==> Tracked() && Win() == AfterByte(|src.data|, old(Win()), old(At()))
    {
      ghost var filled := false;
      while r == w
        invariant Valid() && At() == old(At()) && (eof ==> r == w && filled)
        invariant filled ==> old(r == w)
        invariant old(Tracked()) ==>
                    Tracked() && Win() == if filled then Refill(|src.data|, old(Win()), old(At())) else old(Win())
        decreases |src.data| - src.pos, !eof
      {
        if eof {
          eof := false;
          return None;
        }
        Fill();
        filled := true;
      }
      next := Some(buf[r]);
      r := r + 1;
    }

    /** One read into `p[lo..]`, past the window when it is empty and the request is large. */
    method Read(p: array<byte>, lo: nat) returns (n: nat)
      requires Valid() && !eof && p != buf && lo < p.Length
      modifies this`r, this`w, this`refills, src`pos, buf, p
      ensures Valid() && !eof && At() == old(At()) + n && lo + n <= p.Length
      ensures n == 0 <==> old(At()) == |src.data|
      ensures forall k | 0 <= k < lo :: p[k] == old(p[k])
      ensures forall k | lo <= k < lo + n :: p[k] == src.data[old(At()) + (k - lo)]
      ensures old(Followed()) ==> Followed()
      ensures old(Followed()) && n > 0 ==>
                if old(r < w) then Win() == old(Win()) && At() <= src.pos && (lo + n < p.Length ==> r == w)
                else (lo + n < p.Length ==> At() == |src.data|)
                     && (lo + n == p.Length ==> Win() == AfterBytes(|src.data|, old(Win()), old(At()), n))
    {
      if r == w {
        if p.Length - lo >= WINDOW {
          n := src.Read(p, lo);
          return;
        }
        n := ReadThrough(p, lo);
        return;
      }
      n := CopyOut(p, lo);
    }

    /** A short read when the window is empty: the window is refilled first. */
    method ReadThrough(p: array<byte>, lo: nat) returns (n: nat)
      requires Valid() && !eof && p != buf && lo < p.Length && r == w && p.Length - lo < WINDOW
      modifies this`r, this`w, this`refills, src`pos, buf, p
      ensures Valid() && !eof && At() == old(At()) + n && lo + n <= p.Length
      ensures n == 0 <==> old(At()) == |src.data|
      ensures forall k | 0 <= k < lo :: p[k] == old(p[k])
      ensures forall k | lo <= k < lo + n :: p[k] == src.data[old(At()) + (k - lo)]
      ensures old(Followed()) ==> Followed()
      ensures old(Followed()) && n > 0 ==>
                && Win() == Refill(|src.data|, old(Win()), old(At()))
                && (lo + n < p.Length ==> At() == |src.data|)
    {
      var m := Reload();
      if m == 0 {
        return 0;
      }
      n := CopyOut(p, lo);
    }

    /** Refills an empty window. */
    method Reload() returns (m: nat)
      requires Valid() && !eof && r == w
      modifies this`r, this`w, this`refills, src`pos, buf
      ensures Valid() && !eof && At() == old(At()) && w - r == m
      ensures m == 0 <==> old(At()) == |src.data|
      ensures old(Followed()) ==> Followed()
      ensures old(Followed()) && m > 0 ==>
                && Win() == Refill(|src.data|, old(Win()), old(At()))
                && (m < WINDOW ==> src.pos == |src.data|)
    {
      ghost var followed, before := Followed(), buf[..];
      r, w := 0, 0;
      m := src.Read(buf, 0);
      if m == 0 {
        assert buf[..] == before;
        return;
      }
      w := m;
      if followed {
        PicturesAdd(src.data, refills, At(), w, before, buf[..]);
      }
      refills := Add(refills, At());
    }

    method CopyOut(p: array<byte>, lo: nat) returns (n: nat)
      requires Valid() && !eof && p != buf && lo < p.Length && r < w
      modifies this`r, p
      ensures Valid() && !eof && At() == old(At()) + n && n == Min(p.Length - lo, old(w - r))
      ensures forall k | 0 <= k < lo :: p[k] == old(p[k])
      ensures forall k | lo <= k < lo + n :: p[k] == src.data[old(At()) + (k - lo)]
      ensures old(Tracked()) ==> Tracked()
    {
      n := Min(p.Length - lo, w - r);
      forall k | lo <= k < lo + n {
        p[k] := buf[r + (k - lo)];
      }
      r := r + n;
    }

    /** Fills `p`, unless the body ends before. */
    method ReadFull(p: array<byte>) returns (ok: bool)
      requires Valid() && !eof && p != buf
      modifies this`r, this`w, this`refills, src`pos, buf, p
      ensures Valid() && !eof
      ensures ok <==> old(At()) + p.Length <= |src.data|
      ensures ok ==> At() == old(At()) + p.Length && p[..] == src.data[old(At())..At()]
      ensures ok && old(Followed()) ==>
                Followed() && Win() == AfterBytes(|src.data|, old(Win()), old(At()), p.Length)
    {
      var n := 0;
      while n < p.Length
        invariant Valid() && !eof && 0 <= n <= p.Length && At() == old(At()) + n
        invariant forall k | 0 <= k < n :: p[k] == src.data[old(At()) + k]
        invariant old(Followed()) ==>
                    Followed() && ReadSoFar(old(Win()), old(At()), n, p.Length)
      {
        var m := Read(p, n);
        if m == 0 {
          return false;
        }
        n := n + m;
      }
      ok := true;
    }

    /** `n` of `all` bytes from offset `at` are read: from the window, or all, or all there are. */
    ghost predicate ReadSoFar(before: Window, at: nat, n: nat, all: nat)
      reads this, src
    {
      || (Win() == before && at + n <= before.end && (n < all && n > 0 ==> r == w))
      || (n == all && Win() == AfterBytes(|src.data|, before, at, all))
      || (n < all && at + n == |src.data|)
    }
  }

  /** No newline in `s[lo..hi]`. */
  ghost predicate Plain(s: bytes, lo: nat, hi: nat) {
    lo <= hi <= |s| && forall k | lo <= k < hi :: s[k] != NL
  }

  /** `s[lo..hi]` is a line with its newline. */
  ghost predicate EndsLine(s: bytes, lo: nat, hi: nat) {
    lo < hi <= |s| && s[hi - 1] == NL && Plain(s, lo, hi - 1)
  }

  lemma FullCut(s: bytes, lo: nat)
    requires Plain(s, lo, lo + WINDOW)
    ensures NextLine(s[lo..]) == TooLong
  {
    forall k | 0 <= k < WINDOW
      ensures s[lo..][k] != NL
    {
      assert s[lo..][k] == s[lo + k];
    }
  }

  lemma LastCut(s: bytes, lo: nat)
    requires Plain(s, lo, |s|) && 0 < |s| - lo < WINDOW
    ensures NextLine(s[lo..]) == Line(s[lo..], [])
  {
    forall k | 0 <= k < |s| - lo
      ensures s[lo..][k] != NL
    {
      assert s[lo..][k] == s[lo + k];
    }
  }

  lemma LineCut(s: bytes, lo: nat, hi: nat)
    requires EndsLine(s, lo, hi) && hi - lo <= WINDOW
    ensures NextLine(s[lo..]) == Line(s[lo..hi - 1], s[hi..])
  {
    assert s[lo..] == s[lo..hi - 1] + [NL] + s[hi..];
    assert NL !in s[lo..hi - 1];
    NextLineTerminated(s[lo..hi - 1], s[hi..]);
  }

  // ---------------------------------------------------------------- the parser

  /** A stretch of an array, as the payload of an item is kept. */
  datatype Slice = Slice(a: array<byte>, lo: nat, hi: nat)

  datatype ParsedItem = ParsedItem(raw: bytes, meta: ItemMeta, payload: Slice)

  datatype Parsed = Parsed(raw: bytes, dsn: string, items: seq<ParsedItem>)

  predicate InArray(p: Slice) {
    p.lo <= p.hi <= p.a.Length
  }

  /** `p` holds the bytes `t` now. */
  ghost predicate Stands(p: Slice, t: bytes)
    reads p.a
  {
    InArray(p) && p.a[p.lo..p.hi] == t
  }

  /** `p` is the item `it`, its payload aside. */
  ghost predicate SameHeader(p: ParsedItem, it: Item) {
    p.raw == it.raw && p.meta == it.meta
  }

  /** A copy of the bytes of `v` in an array of their own. */
  method Clone(v: Slice) returns (c: Slice)
    requires v.lo <= v.hi <= v.a.Length
    ensures fresh(c.a) && Stands(c, v.a[v.lo..v.hi])
  {
    var copy := new byte[v.hi - v.lo];
    forall k | 0 <= k < v.hi - v.lo {
      copy[k] := v.a[v.lo + k];
    }
    c := Slice(copy, 0, v.hi - v.lo);
  }

  /** A payload that is the next line: a view of the window. */
  method ReadLinePayload(br: Reader) returns (res: Result<Slice, Fault>)
    requires br.Valid() && !br.eof
    modifies br, br.src`pos, br.buf
    ensures br.Valid() && !br.eof
    ensures match NextPayload(ItemMeta("", None), br.src.data[old(br.At())..])
            case Err(e) => res == Err(e)
            case Ok(p) => res.Ok? && Stands(res.value, p.0) && p.1 == br.src.data[br.At()..]
    ensures res.Ok? ==> res.value.a == br.buf
    ensures res.Ok? && old(br.Followed()) ==>
              && br.Followed() && br.Win() == AfterLine(br.src.data, old(br.Win()), old(br.At()))
              && br.Starts(res.value.lo, old(br.At()))
  {
    var line := br.ReadLine();
    match line {
      case EndOfInput => res := Err(PayloadMissing);
      case Overlong => res := Err(PayloadLineTooLong);
      case View(lo, hi) =>
        ViewStands(br, lo, hi, old(br.At()));
        res := Ok(Slice(br.buf, lo, hi));
    }
  }

  lemma ViewStands(br: Reader, lo: nat, hi: nat, at: nat)
    requires br.Valid() && lo <= hi <= WINDOW && at + (hi - lo) <= |br.src.data| && br.Holds(lo, hi, at)
    ensures br.buf[lo..hi] == br.src.data[at..at + (hi - lo)]
  {}

  /** The same, copied out of the window if `clone` is set. */
  method ReadKeptLine(br: Reader, clone: bool) returns (res: Result<Slice, Fault>)
    requires br.Valid() && !br.eof
    modifies br, br.src`pos, br.buf
    ensures br.Valid() && !br.eof
    ensures match NextPayload(ItemMeta("", None), br.src.data[old(br.At())..])
            case Err(e) => res == Err(e)
            case Ok(p) => res.Ok? && Stands(res.value, p.0) && p.1 == br.src.data[br.At()..]
    ensures res.Ok? ==> if clone then fresh(res.value.a) else res.value.a == br.buf
    ensures res.Ok? && old(br.Followed()) ==>
              && br.Followed() && br.Win() == AfterLine(br.src.data, old(br.Win()), old(br.At()))
              && (!clone ==> br.Starts(res.value.lo, old(br.At())))
  {
    res := ReadLinePayload(br);
    if clone && res.Ok? {
      var copy := Clone(res.value);
      res := Ok(copy);
    }
  }

  /**
   The payload announced by `meta`. A length-prefixed payload is read into an array of
   its own. A line payload is kept as the view of the window that it is, or, if `clone`
   is set, copied out of it.
   */
  method ReadPayload(br: Reader, meta: ItemMeta, clone: bool) returns (res: Result<Slice, Fault>)
    requires br.Valid() && !br.eof
    modifies br, br.src`pos, br.buf
    ensures br.Valid() && !br.eof
    ensures match NextPayload(meta, br.src.data[old(br.At())..])
            case Err(e) => res == Err(e)
            case Ok(p) => res.Ok? && Stands(res.value, p.0) && p.1 == br.src.data[br.At()..]
    ensures res.Ok? ==> if clone || meta.length.Some? then fresh(res.value.a) else res.value.a == br.buf
    ensures res.Ok? && old(br.Followed()) ==>
              && br.Followed() && br.Win() == AfterPayload(br.src.data, old(br.Win()), old(br.At()), meta)
              && (res.value.a == br.buf ==> br.Starts(res.value.lo, old(br.At())))
  {
    match meta.length {
      case Some(n) =>
        res := ReadSized(br, n);
      case None =>
        res := ReadKeptLine(br, clone);
    }
  }

  /** A payload of `n` bytes and what ends it. */
  method ReadSized(br: Reader, n: int) returns (res: Result<Slice, Fault>)
    requires br.Valid() && !br.eof
    modifies br, br.src`pos, br.buf
    ensures br.Valid() && !br.eof
    ensures match NextPayload(ItemMeta("", Some(n)), br.src.data[old(br.At())..])
            case Err(e) => res == Err(e)
            case Ok(p) => res.Ok? && Stands(res.value, p.0) && p.1 == br.src.data[br.At()..]
    ensures res.Ok? ==> fresh(res.value.a)
    ensures res.Ok? && old(br.Followed()) ==>
              && br.Followed()
              && br.Win() == AfterPayload(br.src.data, old(br.Win()), old(br.At()), ItemMeta("", Some(n)))
  {
    if n < 0 {
      return Err(NegativeLength);
    }
    if n > MAX_ITEM_BYTES {
      return Err(PayloadTooLarge);
    }
    var payload := new byte[n];
    var ok := br.ReadFull(payload);
    if !ok {
      return Err(PayloadTruncated);
    }
    var ended := EndsPayload(br);
    if !ended {
      return Err(PayloadNotFollowedByNewline);
    }
    assert payload[0..n] == payload[..];
    res := Ok(Slice(payload, 0, n));
  }

  /** Whether a newline or the end follows. */
  method EndsPayload(br: Reader) returns (ok: bool)
    requires br.Valid() && !br.eof
    modifies br, br.src`pos, br.buf
    ensures br.Valid() && !br.eof
    ensures ok <==> old(br.At()) == |br.src.data| || br.src.data[old(br.At())] == NL
    ensures br.At() == if old(br.At()) == |br.src.data| then old(br.At()) else old(br.At()) + 1
    ensures old(br.Followed()) ==>
              br.Followed() && br.Win() == AfterByte(|br.src.data|, old(br.Win()), old(br.At()))
  {
    var next := br.ReadByte();
    ok := next == None || next == Some(NL);
  }

  /** What follows a blank line where an item header was expected. */
  method ReadAfterBlank(br: Reader) returns (res: Result<Option<ParsedItem>, Fault>)
    requires br.Valid() && !br.eof
    modifies br, br.src`pos, br.buf
    ensures br.Valid() && !br.eof
    ensures match AfterBlankLine(br.src.data[old(br.At())..])
            case Err(e) => res == Err(e)
            case Ok(_) => res == Ok(None) && br.At() == |br.src.data|
    ensures res.Ok? ==> old(br.At()) == |br.src.data|
    ensures res.Ok? && old(br.Followed()) ==>
              br.Followed() && br.Win() == AfterLine(br.src.data, old(br.Win()), old(br.At()))
  {
    var line := br.ReadLine();
    match line {
      case EndOfInput => res := Ok(None);
      case Overlong => res := Err(ItemHeaderTooLong);
      case View(lo, hi) => res := Err(if lo == hi then EmptyItemHeader else EmptyItemHeaderBeforeContent);
    }
  }

  /** `res` reports what `model` says about the item that ends before offset `br.At()`. */
  ghost predicate Reports(br: Reader, clone: bool, res: Result<Option<ParsedItem>, Fault>,
                          model: Result<Option<(Item, bytes)>, Fault>)
    requires br.Valid()
    reads br, br.src, br.buf, if res.Ok? && res.value.Some? then {res.value.value.payload.a} else {}
  {
    match model
    case Err(e) => res == Err(e)
    case Ok(None) => res == Ok(None)
    case Ok(Some(p)) =>
      && res.Ok? && res.value.Some?
      && var q := res.value.value;
      && SameHeader(q, p.0) && Stands(q.payload, p.0.payload) && p.1 == br.src.data[br.At()..]
      && (q.payload.a == br.buf <==> !clone && q.meta.length == None)
  }

  /** The rest of an item whose header line is `raw`. */
  method ReadAfterHeader(br: Reader, dec: Decoder, raw: bytes, clone: bool)
    returns (res: Result<Option<ParsedItem>, Fault>)
    requires br.Valid() && !br.eof
    modifies br, br.src`pos, br.buf
    ensures br.Valid() && !br.eof
    ensures Reports(br, clone, res, AfterHeader(dec, raw, br.src.data[old(br.At())..]))
    ensures res.Ok? ==> res.value.Some? && res.value.value.raw == raw
                        && var q := res.value.value.payload; q.a != br.buf ==> fresh(q.a)
    ensures res.Ok? && old(br.Followed()) ==>
              && br.Followed()
              && var p := res.value.value;
              && br.Win() == AfterPayload(br.src.data, old(br.Win()), old(br.At()), p.meta)
              && (p.payload.a == br.buf ==> br.Starts(p.payload.lo, old(br.At())))
  {
    match dec.item(raw) {
      case None => return Err(ItemHeaderNotJson);
      case Some(meta) =>
        var payload := ReadPayload(br, meta, clone);
        match payload {
          case Err(e) => return Err(e);
          case Ok(p) => return Ok(Some(ParsedItem(raw, meta, p)));
        }
    }
  }

  /** One turn of the parser's loop: an item, or none at the end of the envelope. */
  method ReadItem(br: Reader, dec: Decoder, clone: bool) returns (res: Result<Option<ParsedItem>, Fault>)
    requires br.Valid() && !br.eof
    modifies br, br.src`pos, br.buf
    ensures br.Valid() && !br.eof
    ensures Reports(br, clone, res, NextItem(dec, br.src.data[old(br.At())..]))
    ensures res.Ok? && res.value.Some? ==>
              var q := res.value.value.payload; q.a != br.buf ==> fresh(q.a)
    ensures res == Ok(None) ==> br.At() == |br.src.data|
    ensures res.Ok? && old(br.Followed()) ==>
              && br.Followed()
              && match res.value
                 case None => br.Win() == AfterEnd(br.src.data, old(br.Win()), old(br.At()))
                 case Some(p) => ItemPlaced(br, old(br.Win()), old(br.At()), p)
  {
    var line := CopyLine(br);
    match line {
      case NoText => res := Ok(None);
      case LongText => res := Err(ItemHeaderTooLong);
      case Text(raw) =>
        if raw == [] {
          res := ReadAfterBlank(br);
        } else {
          res := ReadAfterHeader(br, dec, raw, clone);
        }
    }
  }

  /** A line copied out of the window. */
  method CopyLine(br: Reader) returns (line: Text)
    requires br.Valid() && !br.eof
    modifies br, br.src`pos, br.buf
    ensures br.Valid() && !br.eof
    ensures var l := NextLine(br.src.data[old(br.At())..]);
            && (l.AtEof? <==> line.NoText?) && (l.TooLong? <==> line.LongText?)
            && (l.Line? ==> line.text == l.text && l.rest == br.src.data[br.At()..])
    ensures line.NoText? ==> br.At() == |br.src.data|
    ensures line.NoText? ==> old(br.At()) == |br.src.data|
    ensures line.Text? ==> old(br.At()) < |br.src.data|
    ensures line.Text? ==> br.At() == BehindHeader(br.src.data, old(br.At()), line.text)
    ensures old(br.Tracked()) && !line.LongText? ==>
              br.Followed() && br.Win() == AfterLine(br.src.data, old(br.Win()), old(br.At()))
  {
    if NextLine(br.src.data[br.At()..]).Line? {
      LineTakes(br.src.data[br.At()..]);
    }
    var view := br.ReadLine();
    match view {
      case EndOfInput => line := NoText;
      case Overlong => line := LongText;
      case View(lo, hi) =>
        ViewStands(br, lo, hi, old(br.At()));
        line := Text(br.buf[lo..hi]);
    }
  }

  /** What is left behind a line: the input without it and, if there is more, its newline. */
  lemma LineTakes(s: bytes)
    requires NextLine(s).Line?
    ensures s != [] && |NextLine(s).text| <= |s|
    ensures |NextLine(s).rest| == if |NextLine(s).text| < |s| then |s| - |NextLine(s).text| - 1 else 0
  {}

  /** Where item `p` shows, when its header line was read from offset `at`. */
  ghost predicate ItemPlaced(br: Reader, before: Window, at: nat, p: ParsedItem)
    requires br.Valid()
    reads br, br.src, br.buf
  {
    && br.Win() == AfterItem(br.src.data, before, at, p.raw, p.meta)
    && (p.payload.a == br.buf ==> br.Starts(p.payload.lo, at + |p.raw| + 1))
  }

  /** The parsed `items` are `model`, except for what views of `window` show by now. */
  ghost predicate Kept(window: array<byte>, clone: bool, items: seq<ParsedItem>, model: seq<Item>)
    reads set p | p in items && p.payload.a != window :: p.payload.a
  {
    && |items| == |model|
    && forall i | 0 <= i < |items| ::
         && SameHeader(items[i], model[i])
         && items[i].payload.lo + |model[i].payload| == items[i].payload.hi <= items[i].payload.a.Length
         && (items[i].payload.a == window <==> !clone && model[i].meta.length == None)
         && (items[i].payload.a != window ==> Stands(items[i].payload, model[i].payload))
  }

  /** The reader and the views among `items`, when the body was read up to offset `at`. */
  ghost predicate Laid(body: bytes, at: nat, win: Window, window: array<byte>, raw: bytes,
                       items: seq<ParsedItem>, model: seq<Item>)
  {
    && |items| == |model|
    && at <= |body| && (at == Size(raw, model) || (at == |body| && at <= Size(raw, model)))
    && win == AfterItems(body, raw, model)
    && forall i | 0 <= i < |items| && items[i].payload.a == window ::
         items[i].payload.lo == PlaceOf(body, raw, model, i) && items[i].payload.hi <= |body|
  }

  lemma PlaceStays(body: bytes, raw: bytes, model: seq<Item>, it: Item, i: nat)
    requires i < |model|
    ensures PlaceOf(body, raw, model + [it], i) == PlaceOf(body, raw, model, i)
  {
    assert (model + [it])[..i] == model[..i] && (model + [it])[..i + 1] == model[..i + 1];
  }

  lemma PlaceOfLast(body: bytes, raw: bytes, model: seq<Item>, it: Item)
    ensures PlaceOf(body, raw, model + [it], |model|)
         == Size(raw, model) + |it.raw| + 1 - Last(AfterItems(body, raw, model + [it]).refills)
  {
    assert (model + [it])[..|model|] == model && (model + [it])[..|model| + 1] == model + [it];
  }

  lemma AfterItemsMore(body: bytes, raw: bytes, model: seq<Item>, it: Item)
    ensures AfterItems(body, raw, model + [it])
         == AfterItem(body, AfterItems(body, raw, model), Size(raw, model), it.raw, it.meta)
  {
    assert (model + [it])[..|model|] == model;
  }

  lemma LaidStep(body: bytes, a0: nat, a1: nat, win: Window, window: array<byte>, raw: bytes,
                 items: seq<ParsedItem>, model: seq<Item>, p: ParsedItem, it: Item)
    requires a0 < |body| && Laid(body, a0, win, window, raw, items, model) && SameHeader(p, it)
    requires a1 <= |body| && (a1 == Size(raw, model + [it]) || (a1 == |body| && a1 <= Size(raw, model + [it])))
    requires p.payload.a == window ==>
               && Last(AfterItem(body, win, a0, it.raw, it.meta).refills) + p.payload.lo == a0 + |it.raw| + 1
               && p.payload.hi <= |body|
    ensures Laid(body, a1, AfterItem(body, win, a0, it.raw, it.meta), window, raw, items + [p], model + [it])
  {
    var more, n := items + [p], |model|;
    AfterItemsMore(body, raw, model, it);
    PlaceOfLast(body, raw, model, it);
    forall i | 0 <= i < |more| && more[i].payload.a == window
      ensures more[i].payload.lo == PlaceOf(body, raw, model + [it], i) && more[i].payload.hi <= |body|
    {
      if i < n {
        PlaceStays(body, raw, model, it, i);
      }
    }
  }

  lemma KeptAppend(window: array<byte>, clone: bool, items: seq<ParsedItem>, model: seq<Item>, p: ParsedItem, it: Item)
    requires Kept(window, clone, items, model)
    requires SameHeader(p, it) && Stands(p.payload, it.payload)
    requires p.payload.a == window <==> !clone && it.meta.length == None
    ensures Kept(window, clone, items + [p], model + [it])
  {}

  /** What one turn of the loop leaves. */
  lemma SharedStep(br: Reader, dec: Decoder, a0: nat, win: Window, raw: bytes, items: seq<ParsedItem>, model: seq<Item>,
                   p: ParsedItem, it: Item)
    requires br.Valid() && a0 <= |br.src.data|
    requires NextItem(dec, br.src.data[a0..]) == Ok(Some((it, br.src.data[br.At()..])))
    requires Laid(br.src.data, a0, win, br.buf, raw, items, model)
    requires SameHeader(p, it) && Stands(p.payload, it.payload) && ItemPlaced(br, win, a0, p)
    requires p.payload.a == br.buf <==> it.meta.length == None
    ensures Laid(br.src.data, br.At(), br.Win(), br.buf, raw, items + [p], model + [it])
  {
    var body, a1 := br.src.data, br.At();
    ItemSize(dec, body[a0..], it, body[a1..]);
    SizeAppend(raw, model, it);
    assert a0 < |body| && a0 == Size(raw, model);
    LaidStep(body, a0, a1, win, br.buf, raw, items, model, p, it);
  }

  /**
   The items read so far are `model`, and the parser's answer from offset `start` on is
   `model` and then what follows from here on.
   */
  ghost predicate Progress(br: Reader, dec: Decoder, clone: bool, start: nat,
                           items: seq<ParsedItem>, model: seq<Item>)
    reads br, br.src, br.buf, set p | p in items && p.payload.a != br.buf :: p.payload.a
  {
    && br.Valid() && !br.eof && start <= |br.src.data|
    && |items| <= MAX_ITEMS && Kept(br.buf, clone, items, model)
    && ParseItems(dec, br.src.data[start..], 0) == Resumed(dec, br.src.data[br.At()..], model)
  }

  /** The parser's answer when it has read `model` and `s` is left. */
  function Resumed(dec: Decoder, s: bytes, model: seq<Item>): Result<seq<Item>, Fault> {
    Prepend(model, ParseItems(dec, s, |model|))
  }

  lemma ResumedStep(dec: Decoder, s: bytes, model: seq<Item>, it: Item, u: bytes)
    requires |model| < MAX_ITEMS && NextItem(dec, s) == Ok(Some((it, u)))
    ensures Resumed(dec, s, model) == Resumed(dec, u, model + [it]) && |u| < |s|
  {
    var r := ParseItems(dec, u, |model| + 1);
    if r.Ok? {
      assert model + ([it] + r.value) == model + [it] + r.value;
    }
  }

  lemma ResumedEnd(dec: Decoder, s: bytes, model: seq<Item>)
    requires |model| < MAX_ITEMS && NextItem(dec, s) == Ok(None)
    ensures Resumed(dec, s, model) == Ok(model)
  {
    assert model + [] == model;
  }

  /** One turn of the parser's loop. */
  method Turn(br: Reader, dec: Decoder, clone: bool, items: seq<ParsedItem>,
              ghost start: nat, ghost raw: bytes, ghost model: seq<Item>, ghost shared: bool)
    returns (res: Result<Option<ParsedItem>, Fault>, ghost it: Item)
    requires Progress(br, dec, clone, start, items, model)
    requires shared ==> !clone && br.Followed() && Laid(br.src.data, br.At(), br.Win(), br.buf, raw, items, model)
    modifies br, br.src`pos, br.buf
    ensures br.Valid() && !br.eof
    ensures match res
            case Err(e) => ParseItems(dec, br.src.data[start..], 0) == Err(e)
            case Ok(None) =>
              && ParseItems(dec, br.src.data[start..], 0) == Ok(model)
              && Kept(br.buf, clone, items, model)
              && (shared ==>
                    && br.Followed() && br.Win() == AfterEnd(br.src.data, old(br.Win()), old(br.At()))
                    && Laid(br.src.data, old(br.At()), old(br.Win()), br.buf, raw, items, model))
            case Ok(Some(p)) =>
              && Progress(br, dec, clone, start, items + [p], model + [it]) && br.At() > old(br.At())
              && (p.payload.a != br.buf ==> fresh(p.payload.a))
              && (shared ==>
                    br.Followed() && Laid(br.src.data, br.At(), br.Win(), br.buf, raw, items + [p], model + [it]))
  {
    it := Item([], ItemMeta("", None), []);
    if |items| >= MAX_ITEMS {
      return Err(TooManyItems), it;
    }
    ghost var a0, win := br.At(), br.Win();
    res := ReadItem(br, dec, clone);
    if res == Ok(None) {
      ResumedEnd(dec, br.src.data[a0..], model);
    } else if res.Ok? {
      it := NextItem(dec, br.src.data[a0..]).value.value.0;
      ResumedStep(dec, br.src.data[a0..], model, it, br.src.data[br.At()..]);
      KeptAppend(br.buf, clone, items, model, res.value.value, it);
      if shared {
        SharedStep(br, dec, a0, win, raw, items, model, res.value.value, it);
      }
    }
  }

  /** The header line `raw` is read, and no item. */
  ghost predicate Starting(br: Reader, raw: bytes)
    requires br.Valid()
    reads br, br.src, br.buf
  {
    br.Followed() && Laid(br.src.data, br.At(), br.Win(), br.buf, raw, [], [])
  }

  /** All of the envelope is read; its views are where they were returned. */
  ghost predicate Finished(br: Reader, raw: bytes, items: seq<ParsedItem>, model: seq<Item>)
    reads br, br.src
  {
    var size := Size(raw, model);
    && br.Win() == AfterEnd(br.src.data, AfterItems(br.src.data, raw, model),
                            if size < |br.src.data| then size else |br.src.data|)
    && |items| == |model|
    && forall i | 0 <= i < |items| && items[i].payload.a == br.buf ::
         items[i].payload.lo == PlaceOf(br.src.data, raw, model, i) && items[i].payload.hi <= |br.src.data|
  }

  /** Reads every item up to the end of the envelope; `raw` was the header line. */
  method ReadItems(br: Reader, dec: Decoder, clone: bool, ghost raw: bytes)
    returns (res: Result<seq<ParsedItem>, Fault>)
    requires br.Valid() && !br.eof
    modifies br, br.src`pos, br.buf
    ensures br.Valid() && !br.eof
    ensures match ParseItems(dec, br.src.data[old(br.At())..], 0)
            case Err(e) => res == Err(e)
            case Ok(model) =>
              && res.Ok? && Kept(br.buf, clone, res.value, model)
              && (old(Starting(br, raw)) && !clone ==> br.Followed() && Finished(br, raw, res.value, model))
    ensures res.Ok? ==> forall p | p in res.value && p.payload.a != br.buf :: fresh(p.payload.a)
  {
    var items: seq<ParsedItem> := [];
    ghost var model: seq<Item> := [];
    ghost var start := br.At();
    ghost var shared := Starting(br, raw) && !clone;
    PrependNothing(ParseItems(dec, br.src.data[start..], 0));
    while true
      invariant Progress(br, dec, clone, start, items, model)
      invariant forall p | p in items && p.payload.a != br.buf :: fresh(p.payload.a)
      invariant shared ==> br.Followed() && Laid(br.src.data, br.At(), br.Win(), br.buf, raw, items, model)
      decreases |br.src.data| - br.At()
    {
      ghost var it;
      var item: Result<Option<ParsedItem>, Fault>;
      item, it := Turn(br, dec, clone, items, start, raw, model, shared);
      match item {
        case Err(e) => return Err(e);
        case Ok(None) => return Ok(items);
        case Ok(Some(p)) => items, model := items + [p], model + [it];
      }
    }
  }

  lemma PrependNothing(r: Result<seq<Item>, Fault>)
    ensures Prepend([], r) == r
  {
    if r.Ok? {
      assert [] + r.value == r.value;
    }
  }

  // ---------------------------------------------------------------- main results

  /** Every payload is as it was sent. */
  ghost predicate AllStand(items: seq<ParsedItem>, model: seq<Item>)
    requires |items| == |model|
    reads set p | p in items :: p.payload.a
  {
    forall i | 0 <= i < |items| :: Stands(items[i].payload, model[i].payload)
  }

  /** A view that was returned at its place shows what the window shows there in the end. */
  lemma ViewShows(br: Reader, env: Envelope, i: nat, p: Slice)
    requires br.Valid() && br.Followed() && i < |env.items| && p.a == br.buf && InArray(p)
    requires br.Win() == AtLast(br.src.data, env)
    requires p.lo == PlaceOf(br.src.data, env.raw, env.items, i) && p.hi <= |br.src.data|
    requires p.hi == p.lo + |env.items[i].payload|
    ensures Stands(p, ShownPayload(br.src.data, env, i))
  {
    var v, shown := br.buf[..], ShownPayload(br.src.data, env, i);
    forall k | 0 <= k < |shown|
      ensures p.a[p.lo..p.hi][k] == shown[k]
    {
      assert v[p.lo + k] == Shown(br.src.data, br.refills, p.lo + k);
    }
  }

  /** Every item has the payload it is kept with. */
  lemma AllShow(br: Reader, items: seq<ParsedItem>, env: Envelope)
    requires br.Valid() && br.Followed() && Kept(br.buf, false, items, env.items)
    requires Finished(br, env.raw, items, env.items)
    ensures forall i | 0 <= i < |items| :: Stands(items[i].payload, KeptPayload(br.src.data, env, i))
  {
    forall i | 0 <= i < |items|
      ensures Stands(items[i].payload, KeptPayload(br.src.data, env, i))
    {
      if items[i].payload.a == br.buf {
        ViewShows(br, env, i, items[i].payload);
      }
    }
  }

  /** The parsed `items` are those of `env`, each with the payload it is kept with. */
  ghost predicate Agree(src: Source, clone: bool, items: seq<ParsedItem>, env: Envelope)
    reads set p | p in items :: p.payload.a
  {
    && |items| == |env.items|
    && (forall i | 0 <= i < |items| :: SameHeader(items[i], env.items[i]) && InArray(items[i].payload))
    && (forall i | 0 <= i < |items| && (clone || items[i].meta.length.Some?) ::
          Stands(items[i].payload, env.items[i].payload))
    && (src.whole && !clone ==>
          forall i | 0 <= i < |items| :: Stands(items[i].payload, KeptPayload(src.data, env, i)))
  }

  lemma KeptAgree(br: Reader, clone: bool, items: seq<ParsedItem>, env: Envelope)
    requires br.Valid() && Kept(br.buf, clone, items, env.items)
    requires br.src.whole && !clone ==> br.Followed() && Finished(br, env.raw, items, env.items)
    ensures Agree(br.src, clone, items, env)
  {
    if br.src.whole && !clone {
      AllShow(br, items, env);
    }
  }

  lemma AgreeIff(src: Source, items: seq<ParsedItem>, env: Envelope)
    requires Agree(src, false, items, env) && src.whole
    ensures AllStand(items, env.items) <==> Undisturbed(src.data, env)
  {
    forall i | 0 <= i < |items|
      ensures Stands(items[i].payload, env.items[i].payload) <==>
              KeptPayload(src.data, env, i) == env.items[i].payload
    {
      assert Stands(items[i].payload, KeptPayload(src.data, env, i));
    }
  }

  /** The envelope behind its header line `raw`. */
  method ParseRest(br: Reader, dec: Decoder, clone: bool, raw: bytes, dsn: string) returns (res: Result<Parsed, Fault>)
    requires br.Valid() && !br.eof && (br.src.whole ==> Starting(br, raw))
    modifies br, br.src`pos, br.buf
    ensures match ParseItems(dec, br.src.data[old(br.At())..], 0)
            case Err(e) => res == Err(e)
            case Ok(model) =>
              && res.Ok? && res.value.raw == raw && res.value.dsn == dsn
              && Agree(br.src, clone, res.value.items, Envelope(raw, dsn, model))
  {
    ghost var parsed := ParseItems(dec, br.src.data[br.At()..], 0);
    var items := ReadItems(br, dec, clone, raw);
    match items {
      case Err(e) => return Err(e);
      case Ok(its) =>
        KeptAgree(br, clone, its, Envelope(raw, dsn, parsed.value));
        res := Ok(Parsed(raw, dsn, its));
    }
  }

  /**
   The parser on a source of any chunking. It answers what the parser over the whole body
   answers; headers and length-prefixed payloads are byte for byte what was sent, and so
   are line payloads when they are copied. When they are left as views of the window and
   the body comes in as fast as it fits, each shows exactly what the refills of the window
   leave there; so all are what was sent if and only if no refill disturbs one.
   */
  method ParseEnvelope(src: Source, dec: Decoder, clone: bool) returns (res: Result<Parsed, Fault>)
    requires src.Valid() && src.pos == 0
    modifies src`pos
    ensures match Parse(dec, src.data)
            case Err(e) => res == Err(e)
            case Ok(env) =>
              && res.Ok? && res.value.raw == env.raw && res.value.dsn == env.dsn
              && Agree(src, clone, res.value.items, env)
              && (src.whole && !clone ==> (AllStand(res.value.items, env.items) <==> Undisturbed(src.data, env)))
  {
    var br := new Reader(src);
    var line := CopyLine(br);
    match line {
      case NoText => return Err(HeaderMissing);
      case LongText => return Err(HeaderTooLong);
      case Text(raw) =>
        if raw == [] {
          return Err(HeaderEmpty);
        }
        match dec.header(raw) {
          case None => return Err(HeaderNotJson);
          case Some(dsn) =>
            res := ParseRest(br, dec, clone, raw, dsn);
            if res.Ok? && src.whole && !clone {
              AgreeIff(src, res.value.items, Parse(dec, src.data).value);
            }
        }
    }
  }
}
