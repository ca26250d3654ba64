// The self-contained UTF-16 codecs of the trunk win_iconv
// (trunk/win_iconv/win_iconv.c, utf16le_mbtowc, utf16le_wctomb,
// utf16be_mbtowc, utf16be_wctomb), with the encoding of section 2.1 of
// RFC 2781 as their reference: a scalar value below 0x10000 is one unit, a
// larger one is a high surrogate (D800-DBFF) followed by a low surrogate
// (DC00-DFFF).
module Utf16 {
  import opened CLib

  predicate IsHighSurrogate(u: int) { 0xD800 <= u <= 0xDBFF }
  predicate IsLowSurrogate(u: int) { 0xDC00 <= u <= 0xDFFF }

  /** A Unicode scalar value: a code point that is not a surrogate. */
  predicate IsScalar(c: int) { 0 <= c <= 0x10FFFF && !(0xD800 <= c <= 0xDFFF) }

  /** Section 2.1 of RFC 2781: the UTF-16 units of a scalar value. */
  function EncodeScalar(c: int): (u: seq<Unit16>)
    requires IsScalar(c)
    ensures |u| == 1 || |u| == 2
    ensures |u| == 1 <==> c < 0x10000
    ensures |u| == 2 ==> IsHighSurrogate(u[0]) && IsLowSurrogate(u[1])
    ensures |u| == 1 ==> !IsHighSurrogate(u[0]) && !IsLowSurrogate(u[0])
  {
    if c < 0x10000 then [c]
    else
      var v := c - 0x10000;
      [0xD800 + v / 0x400, 0xDC00 + v % 0x400]
  }

  /** Section 2.2 of RFC 2781: the scalar value of one or two units. */
  function DecodeUnits(u: seq<Unit16>): int
    requires |u| == 1 || |u| == 2
  {
    if |u| == 1 then u[0] as int else 0x10000 + (u[0] as int - 0xD800) * 0x400 + (u[1] as int - 0xDC00)
  }

  /** The units are the encoding of one scalar value. */
  predicate IsCharUnits(u: seq<Unit16>)
  {
    (|u| == 1 && !IsHighSurrogate(u[0]) && !IsLowSurrogate(u[0])) ||
    (|u| == 2 && IsHighSurrogate(u[0]) && IsLowSurrogate(u[1]))
  }

  lemma {:induction false} EncodeDecode(c: int)
    requires IsScalar(c)
    ensures IsCharUnits(EncodeScalar(c)) && DecodeUnits(EncodeScalar(c)) == c
  {
  }

  lemma {:induction false} DecodeEncode(u: seq<Unit16>)
    requires IsCharUnits(u)
    ensures IsScalar(DecodeUnits(u)) && EncodeScalar(DecodeUnits(u)) == u
  {
  }

  // ------------------------------------------------------------------ bytes

  /** The two bytes of a unit, least significant first. */
  function LeBytes(u: seq<Unit16>): (b: seq<Byte>)
    ensures |b| == 2 * |u|
    ensures forall i :: 0 <= i < |u| ==> b[2 * i] == u[i] % 0x100 && b[2 * i + 1] == u[i] / 0x100
  {
    if u == [] then [] else [u[0] % 0x100, u[0] / 0x100] + LeBytes(u[1..])
  }

  /** The two bytes of a unit, most significant first. */
  function BeBytes(u: seq<Unit16>): (b: seq<Byte>)
    ensures |b| == 2 * |u|
    ensures forall i :: 0 <= i < |u| ==> b[2 * i] == u[i] / 0x100 && b[2 * i + 1] == u[i] % 0x100
  {
    if u == [] then [] else [u[0] / 0x100, u[0] % 0x100] + BeBytes(u[1..])
  }

  /** Exchanges the bytes of each pair; a trailing odd byte stays. */
  function SwapPairs(b: seq<Byte>): (r: seq<Byte>)
    ensures |r| == |b|
  {
    if |b| < 2 then b else [b[1], b[0]] + SwapPairs(b[2..])
  }

  lemma {:induction false} SwapPairsAt(b: seq<Byte>, i: nat)
    requires 2 * i + 1 < |b|
    ensures SwapPairs(b)[2 * i] == b[2 * i + 1] && SwapPairs(b)[2 * i + 1] == b[2 * i]
    decreases i
  {
    if i > 0 {
      SwapPairsAt(b[2..], i - 1);
    }
  }

  /** `(buf[1] << 8) | buf[0]` */
  function LeUnit(lo: Byte, hi: Byte): Unit16 { hi * 0x100 + lo }

  /** `(buf[0] << 8) | buf[1]` */
  function BeUnit(hi: Byte, lo: Byte): Unit16 { hi * 0x100 + lo }

  /** `((w & 0xFF00) >> 8) | ((w & 0x00FF) << 8)` on a 16-bit wchar_t. */
  function Swap16(w: Unit16): Unit16
  {
    (w % 0x100) * 0x100 + w / 0x100
  }

  /** Swapping a big-endian reading gives the little-endian one. */
  lemma {:induction false} Swap16Be(hi: Byte, lo: Byte)
    ensures Swap16(BeUnit(hi, lo)) == LeUnit(hi, lo)
  {
    var w := hi * 0x100 + lo;
    assert w % 0x100 == lo && w / 0x100 == hi;
  }

  // ------------------------------------------------------------------ decoders

  /** The outcome of an `mbtowc` converter: bytes consumed and units produced. */
  datatype Decoded = Decoded(insize: nat, units: seq<Unit16>)

  datatype DecodeResult = Decode(d: Decoded) | DecodeError(e: Errno)

  /** What every UTF-16 decoding promises, given how its units are serialised. */
  predicate WellDecoded(r: DecodeResult, buf: seq<Byte>, littleEndian: bool)
  {
    r.Decode? ==>
      r.d.insize == 2 * |r.d.units| && r.d.insize <= |buf| && IsCharUnits(r.d.units) &&
      buf[..r.d.insize] == (if littleEndian then LeBytes(r.d.units) else BeBytes(r.d.units))
  }

  /**
   * utf16le_mbtowc: EINVAL for fewer than two bytes or a high surrogate
   * without two more; EILSEQ for a leading low surrogate or a high surrogate
   * not followed by a low one.
   */
  function Utf16LeMbtowc(buf: seq<Byte>): (r: DecodeResult)
    ensures WellDecoded(r, buf, true)
    ensures |buf| < 2 ==> r == DecodeError(EINVAL)
    ensures |buf| >= 2 ==> (IsLowSurrogate(LeUnit(buf[0], buf[1])) ==> r == DecodeError(EILSEQ))
    ensures |buf| >= 2 && IsHighSurrogate(LeUnit(buf[0], buf[1])) ==>
      r == (if |buf| < 4 then DecodeError(EINVAL)
            else if !IsLowSurrogate(LeUnit(buf[2], buf[3])) then DecodeError(EILSEQ)
            else r)
    ensures r.Decode? ==> r.d.insize == 2 || r.d.insize == 4
    ensures r.DecodeError? ==> r.e != E2BIG
  {
    if |buf| < 2 then DecodeError(EINVAL)
    else
      var w0 := LeUnit(buf[0], buf[1]);
      if IsLowSurrogate(w0) then DecodeError(EILSEQ)
      else if IsHighSurrogate(w0) then
        if |buf| < 4 then DecodeError(EINVAL)
        else
          var w1 := LeUnit(buf[2], buf[3]);
          if !IsLowSurrogate(w1) then DecodeError(EILSEQ)
          else
            assert buf[..4] == LeBytes([w0, w1]);
            Decode(Decoded(4, [w0, w1]))
      else
        assert buf[..2] == LeBytes([w0]);
        Decode(Decoded(2, [w0]))
  }

  /** utf16be_mbtowc: the same rules with the most significant byte first. */
  function Utf16BeMbtowc(buf: seq<Byte>): (r: DecodeResult)
    ensures WellDecoded(r, buf, false)
    ensures |buf| < 2 ==> r == DecodeError(EINVAL)
    ensures |buf| >= 2 ==> (IsLowSurrogate(BeUnit(buf[0], buf[1])) ==> r == DecodeError(EILSEQ))
    ensures |buf| >= 2 && IsHighSurrogate(BeUnit(buf[0], buf[1])) ==>
      r == (if |buf| < 4 then DecodeError(EINVAL)
            else if !IsLowSurrogate(BeUnit(buf[2], buf[3])) then DecodeError(EILSEQ)
            else r)
    ensures r.Decode? ==> r.d.insize == 2 || r.d.insize == 4
    ensures r.DecodeError? ==> r.e != E2BIG
  {
    if |buf| < 2 then DecodeError(EINVAL)
    else
      var w0 := BeUnit(buf[0], buf[1]);
      if IsLowSurrogate(w0) then DecodeError(EILSEQ)
      else if IsHighSurrogate(w0) then
        if |buf| < 4 then DecodeError(EINVAL)
        else
          var w1 := BeUnit(buf[2], buf[3]);
          if !IsLowSurrogate(w1) then DecodeError(EILSEQ)
          else
            assert buf[..4] == BeBytes([w0, w1]);
            Decode(Decoded(4, [w0, w1]))
      else
        assert buf[..2] == BeBytes([w0]);
        Decode(Decoded(2, [w0]))
  }

  lemma {:induction false} LeUnitBytes(u: Unit16)
    ensures LeUnit(u % 0x100, u / 0x100) == u && BeUnit(u / 0x100, u % 0x100) == u
  {
  }

  /** Encoding a scalar value and decoding the bytes gives the value back (little-endian). */
  lemma {:induction false} Utf16LeEncodeDecode(c: int, rest: seq<Byte>)
    requires IsScalar(c)
    ensures Utf16LeMbtowc(LeBytes(EncodeScalar(c)) + rest) ==
      Decode(Decoded(2 * |EncodeScalar(c)|, EncodeScalar(c)))
  {
    var u := EncodeScalar(c);
    var b := LeBytes(u) + rest;
    LeUnitBytes(u[0]);
    assert b[0] == u[0] % 0x100 && b[1] == u[0] / 0x100;
    if |u| == 2 {
      LeUnitBytes(u[1]);
      assert b[2] == u[1] % 0x100 && b[3] == u[1] / 0x100;
    }
  }

  /** Encoding a scalar value and decoding the bytes gives the value back (big-endian). */
  lemma {:induction false} Utf16BeEncodeDecode(c: int, rest: seq<Byte>)
    requires IsScalar(c)
    ensures Utf16BeMbtowc(BeBytes(EncodeScalar(c)) + rest) ==
      Decode(Decoded(2 * |EncodeScalar(c)|, EncodeScalar(c)))
  {
    var u := EncodeScalar(c);
    var b := BeBytes(u) + rest;
    LeUnitBytes(u[0]);
    assert b[0] == u[0] / 0x100 && b[1] == u[0] % 0x100;
    if |u| == 2 {
      LeUnitBytes(u[1]);
      assert b[2] == u[1] / 0x100 && b[3] == u[1] % 0x100;
    }
  }

  /** Decoding as big-endian is decoding the pair-swapped bytes as little-endian. */
  lemma {:induction false} BeDecodeIsSwappedLe(buf: seq<Byte>)
    requires |buf| % 2 == 0
    ensures Utf16BeMbtowc(buf) == Utf16LeMbtowc(SwapPairs(buf))
  {
    if |buf| >= 2 {
      SwapPairsAt(buf, 0);
    }
    if |buf| >= 4 {
      SwapPairsAt(buf, 1);
    }
  }

  // ------------------------------------------------------------------ encoders

  /**
   * What a `wctomb` converter did: its return value, and the bytes it stored
   * at the output pointer, which on an error may be a first part of a
   * character the cursors do not advance over.
   */
  datatype Encoded = Encoded(ret: Status, written: seq<Byte>)

  /**
   * utf16le_wctomb on `wbuf` (the whole wide-character buffer: the function
   * reads `wbuf[1]` whenever `wbuf[0]` is a high surrogate, whatever the unit
   * count says) and `bufsize` bytes of room.  The two bytes of `wbuf[0]` are
   * stored before the room for a pair is checked.
   */
  function Utf16LeWctombSpec(wbuf: seq<Unit16>, bufsize: nat): (r: Encoded)
    requires |wbuf| >= 2
    ensures |r.written| <= bufsize
    ensures r.ret.Err? ==> r.ret.e == E2BIG
    ensures r.ret.Err? <==> bufsize < 2 || (IsHighSurrogate(wbuf[0]) && bufsize < 4)
    ensures r.ret.Ok? ==> r.ret.n == |r.written|
    ensures r.ret.Ok? ==> r.written == LeBytes(wbuf[..if IsHighSurrogate(wbuf[0]) then 2 else 1])
    ensures r.ret.Err? ==> r.written == (if bufsize < 2 then [] else LeBytes(wbuf[..1]))
  {
    if bufsize < 2 then Encoded(Err(E2BIG), [])
    else
      var first := [wbuf[0] % 0x100, wbuf[0] / 0x100];
      assert first == LeBytes(wbuf[..1]);
      if IsHighSurrogate(wbuf[0]) then
        if bufsize < 4 then Encoded(Err(E2BIG), first)
        else
          assert first + [wbuf[1] % 0x100, wbuf[1] / 0x100] == LeBytes(wbuf[..2]);
          Encoded(Ok(4), first + [wbuf[1] % 0x100, wbuf[1] / 0x100])
      else Encoded(Ok(2), first)
  }

  /** utf16be_wctomb: the same with the most significant byte first. */
  function Utf16BeWctombSpec(wbuf: seq<Unit16>, bufsize: nat): (r: Encoded)
    requires |wbuf| >= 2
    ensures |r.written| <= bufsize
    ensures r.ret.Err? ==> r.ret.e == E2BIG
    ensures r.ret.Err? <==> bufsize < 2 || (IsHighSurrogate(wbuf[0]) && bufsize < 4)
    ensures r.ret.Ok? ==> r.ret.n == |r.written|
    ensures r.ret.Ok? ==> r.written == BeBytes(wbuf[..if IsHighSurrogate(wbuf[0]) then 2 else 1])
    ensures r.ret.Err? ==> r.written == (if bufsize < 2 then [] else BeBytes(wbuf[..1]))
  {
    if bufsize < 2 then Encoded(Err(E2BIG), [])
    else
      var first := [wbuf[0] / 0x100, wbuf[0] % 0x100];
      assert first == BeBytes(wbuf[..1]);
      if IsHighSurrogate(wbuf[0]) then
        if bufsize < 4 then Encoded(Err(E2BIG), first)
        else
          assert first + [wbuf[1] / 0x100, wbuf[1] % 0x100] == BeBytes(wbuf[..2]);
          Encoded(Ok(4), first + [wbuf[1] / 0x100, wbuf[1] % 0x100])
      else Encoded(Ok(2), first)
  }

  /** utf16le_wctomb as the C function does it, storing into the caller's buffer. */
  method Utf16LeWctomb(wbuf: seq<Unit16>, out: array<Byte>, pos: nat, bufsize: nat) returns (ret: Status)
    requires |wbuf| >= 2 && pos + bufsize <= out.Length
    modifies out
    ensures ret == Utf16LeWctombSpec(wbuf, bufsize).ret
    ensures out[..] == Overwrite(old(out[..]), pos, Utf16LeWctombSpec(wbuf, bufsize).written)
  {
    ghost var written := Utf16LeWctombSpec(wbuf, bufsize).written;
    if bufsize < 2 {
      return Err(E2BIG);
    }
    out[pos] := wbuf[0] % 0x100;
    out[pos + 1] := wbuf[0] / 0x100;
    if IsHighSurrogate(wbuf[0]) {
      if bufsize < 4 {
        OverwriteFrom(old(out[..]), pos, written, out[..]);
        return Err(E2BIG);
      }
      out[pos + 2] := wbuf[1] % 0x100;
      out[pos + 3] := wbuf[1] / 0x100;
      OverwriteFrom(old(out[..]), pos, written, out[..]);
      return Ok(4);
    }
    OverwriteFrom(old(out[..]), pos, written, out[..]);
    return Ok(2);
  }

  /** utf16be_wctomb as the C function does it. */
  method Utf16BeWctomb(wbuf: seq<Unit16>, out: array<Byte>, pos: nat, bufsize: nat) returns (ret: Status)
    requires |wbuf| >= 2 && pos + bufsize <= out.Length
    modifies out
    ensures ret == Utf16BeWctombSpec(wbuf, bufsize).ret
    ensures out[..] == Overwrite(old(out[..]), pos, Utf16BeWctombSpec(wbuf, bufsize).written)
  {
    ghost var written := Utf16BeWctombSpec(wbuf, bufsize).written;
    if bufsize < 2 {
      return Err(E2BIG);
    }
    out[pos] := wbuf[0] / 0x100;
    out[pos + 1] := wbuf[0] % 0x100;
    if IsHighSurrogate(wbuf[0]) {
      if bufsize < 4 {
        OverwriteFrom(old(out[..]), pos, written, out[..]);
        return Err(E2BIG);
      }
      out[pos + 2] := wbuf[1] / 0x100;
      out[pos + 3] := wbuf[1] % 0x100;
      OverwriteFrom(old(out[..]), pos, written, out[..]);
      return Ok(4);
    }
    OverwriteFrom(old(out[..]), pos, written, out[..]);
    return Ok(2);
  }

  /**
   * Decoding and re-encoding with the same byte order gives back the bytes
   * read, whatever stale units follow in the wide-character buffer.
   */
  lemma {:induction false} Utf16LeRoundTrip(buf: seq<Byte>, stale: seq<Unit16>, bufsize: nat)
    requires Utf16LeMbtowc(buf).Decode? && bufsize >= Utf16LeMbtowc(buf).d.insize
    requires |Utf16LeMbtowc(buf).d.units + stale| >= 2
    ensures var d := Utf16LeMbtowc(buf).d;
      Utf16LeWctombSpec(d.units + stale, bufsize) == Encoded(Ok(d.insize), buf[..d.insize])
  {
    var d := Utf16LeMbtowc(buf).d;
    assert (d.units + stale)[..|d.units|] == d.units;
  }

  lemma {:induction false} Utf16BeRoundTrip(buf: seq<Byte>, stale: seq<Unit16>, bufsize: nat)
    requires Utf16BeMbtowc(buf).Decode? && bufsize >= Utf16BeMbtowc(buf).d.insize
    requires |Utf16BeMbtowc(buf).d.units + stale| >= 2
    ensures var d := Utf16BeMbtowc(buf).d;
      Utf16BeWctombSpec(d.units + stale, bufsize) == Encoded(Ok(d.insize), buf[..d.insize])
  {
    var d := Utf16BeMbtowc(buf).d;
    assert (d.units + stale)[..|d.units|] == d.units;
  }

  lemma {:induction false} LeIsSwappedBe(u: seq<Unit16>)
    ensures LeBytes(u) == SwapPairs(BeBytes(u))
  {
    if u != [] {
      LeIsSwappedBe(u[1..]);
      assert BeBytes(u)[2..] == BeBytes(u[1..]);
    }
  }

  /**
   * Decoding big-endian input and encoding little-endian output swaps each
   * byte pair of the character.
   */
  lemma {:induction false} BeToLeSwapsPairs(buf: seq<Byte>, stale: seq<Unit16>, bufsize: nat)
    requires Utf16BeMbtowc(buf).Decode? && bufsize >= Utf16BeMbtowc(buf).d.insize
    requires |Utf16BeMbtowc(buf).d.units + stale| >= 2
    ensures var d := Utf16BeMbtowc(buf).d;
      Utf16LeWctombSpec(d.units + stale, bufsize) == Encoded(Ok(d.insize), SwapPairs(buf[..d.insize]))
  {
    var d := Utf16BeMbtowc(buf).d;
    assert (d.units + stale)[..|d.units|] == d.units;
    LeIsSwappedBe(d.units);
  }

  lemma {:induction false} BeIsSwappedLe(u: seq<Unit16>)
    ensures BeBytes(u) == SwapPairs(LeBytes(u))
  {
    if u != [] {
      BeIsSwappedLe(u[1..]);
      assert LeBytes(u)[2..] == LeBytes(u[1..]);
    }
  }

  /** Decoding little-endian input and encoding big-endian output swaps each byte pair. */
  lemma {:induction false} LeToBeSwapsPairs(buf: seq<Byte>, stale: seq<Unit16>, bufsize: nat)
    requires Utf16LeMbtowc(buf).Decode? && bufsize >= Utf16LeMbtowc(buf).d.insize
    requires |Utf16LeMbtowc(buf).d.units + stale| >= 2
    ensures var d := Utf16LeMbtowc(buf).d;
      Utf16BeWctombSpec(d.units + stale, bufsize) == Encoded(Ok(d.insize), SwapPairs(buf[..d.insize]))
  {
    var d := Utf16LeMbtowc(buf).d;
    assert (d.units + stale)[..|d.units|] == d.units;
    BeIsSwappedLe(d.units);
  }

  /** Swapping pairs is done pair by pair: an even-length prefix swaps on its own. */
  lemma {:induction false} SwapPairsAppend(a: seq<Byte>, b: seq<Byte>)
    requires |a| % 2 == 0
    ensures SwapPairs(a + b) == SwapPairs(a) + SwapPairs(b)
    decreases |a|
  {
    if a != [] {
      assert (a + b)[2..] == a[2..] + b;
      SwapPairsAppend(a[2..], b);
      assert SwapPairs(a + b) == [a[1], a[0]] + SwapPairs(a[2..] + b);
      assert SwapPairs(a) == [a[1], a[0]] + SwapPairs(a[2..]);
      assert [a[1], a[0]] + (SwapPairs(a[2..]) + SwapPairs(b)) == ([a[1], a[0]] + SwapPairs(a[2..])) + SwapPairs(b);
    } else {
      assert a + b == b;
    }
  }

  /** The bytes of a UTF-16 character in the other byte order, or the same ones. */
  function Reordered(swap: bool, b: seq<Byte>): (r: seq<Byte>)
    ensures |r| == |b|
  {
    if swap then SwapPairs(b) else b
  }

  /** Reordering an even-length run and what follows it is reordering each. */
  lemma {:induction false} ReorderedSplit(swap: bool, s: seq<Byte>, n: nat, m: nat)
    requires n + m <= |s| && n % 2 == 0
    ensures Reordered(swap, s[..n]) + Reordered(swap, s[n..][..m]) == Reordered(swap, s[..n + m])
  {
    TakeSplit(s, n, m);
    SwapPairsAppend(s[..n], s[n..][..m]);
  }

  /** The EILSEQ expectation of the test driver: DBFF followed by E000 is not a pair. */
  lemma HighSurrogateWithoutLow()
    ensures Utf16BeMbtowc([0xDB, 0xFF, 0xE0, 0x00]) == DecodeError(EILSEQ)
    ensures Utf16BeMbtowc([0xDB, 0xFF, 0xDF, 0xFF]) == Decode(Decoded(4, [0xDBFF, 0xDFFF]))
  {
  }
}
