// utf16_to_utf8 of the IIIMF bridge (iiimf-vim/autoload/iiimf-vim.c): a
// zero-terminated string of 16-bit units, optionally byte-swapped, becomes a
// zero-terminated UTF-8 string.  Each value is written with the encoding of
// section 3 of RFC 3629; a high surrogate is combined with the unit after it
// without looking at that unit.
module Iiimf {
  import opened CLib
  import opened Utf16
  import Mblen

  // ------------------------------------------------------------------ RFC 3629

  /**
   * Section 3 of RFC 3629: the bytes of a value, by the four ranges of its
   * table.  `(c >> 6) | 0xC0` and friends are written as sums, because the
   * shifted value never reaches the bits the mask sets.
   */
  function Utf8Bytes(c: int): (b: seq<Byte>)
    requires 0 <= c <= 0x10FFFF
    ensures 1 <= |b| <= 4
    ensures |b| == 1 <==> c <= 0x7F
    ensures |b| == 2 <==> 0x80 <= c <= 0x7FF
    ensures |b| == 3 <==> 0x800 <= c <= 0xFFFF
    ensures |b| == 4 <==> 0x10000 <= c
    ensures forall k :: 1 <= k < |b| ==> 0x80 <= b[k] <= 0xBF
  {
    if c <= 0x7F then [c]
    else if c <= 0x7FF then [0xC0 + c / 0x40, 0x80 + c % 0x40]
    else if c <= 0xFFFF then [0xE0 + c / 0x1000, 0x80 + c / 0x40 % 0x40, 0x80 + c % 0x40]
    else [0xF0 + c / 0x4_0000, 0x80 + c / 0x1000 % 0x40, 0x80 + c / 0x40 % 0x40, 0x80 + c % 0x40]
  }

  /** The value of an RFC 3629 sequence, from its lead byte and continuation bytes. */
  function Utf8Value(b: seq<Byte>): int
    requires 1 <= |b| <= 4
  {
    var b0, b1, b2, b3 := b[0] as int, if |b| > 1 then b[1] as int else 0, if |b| > 2 then b[2] as int else 0, if |b| > 3 then b[3] as int else 0;
    if |b| == 1 then b0
    else if |b| == 2 then (b0 - 0xC0) * 0x40 + (b1 - 0x80)
    else if |b| == 3 then ((b0 - 0xE0) * 0x40 + (b1 - 0x80)) * 0x40 + (b2 - 0x80)
    else (((b0 - 0xF0) * 0x40 + (b1 - 0x80)) * 0x40 + (b2 - 0x80)) * 0x40 + (b3 - 0x80)
  }

  /**
   * The bytes decode back to the value, and the lead byte announces the
   * sequence's length as the win_iconv UTF-8 prober reads it.
   */
  lemma {:induction false} Utf8BytesRoundTrip(c: int)
    requires 0 <= c <= 0x10FFFF
    ensures Utf8Value(Utf8Bytes(c)) == c
    ensures Mblen.Utf8LeadLength(Utf8Bytes(c)[0]) == |Utf8Bytes(c)|
  {
    var b := Utf8Bytes(c);
    if c <= 0x7F {
    } else if c <= 0x7FF {
      assert b[0] == 0xC0 + c / 0x40 && 0xC2 <= b[0] <= 0xDF;
    } else if c <= 0xFFFF {
      assert b[0] == 0xE0 + c / 0x1000 && 0xE0 <= b[0] <= 0xEF;
      assert (c / 0x1000) * 0x40 + c / 0x40 % 0x40 == c / 0x40;
    } else {
      assert b[0] == 0xF0 + c / 0x4_0000 && 0xF0 <= b[0] <= 0xF4;
      assert (c / 0x4_0000) * 0x40 + c / 0x1000 % 0x40 == c / 0x1000;
      assert (c / 0x1000) * 0x40 + c / 0x40 % 0x40 == c / 0x40;
    }
  }

  // ------------------------------------------------------------------ units

  /** The unit as the loop reads it: byte-swapped when `little_endian` is set. */
  function Host(u: Unit16, littleEndian: bool): Unit16
  {
    if littleEndian then Swap16(u) else u
  }

  /** `(((c & 0x3FF) << 10) | (c2 & 0x3FF)) + 0x10000`, with no test on `c2`. */
  function Combine(c: Unit16, c2: Unit16): (v: int)
    ensures 0x10000 <= v <= 0x10FFFF
  {
    (c % 0x400) * 0x400 + c2 % 0x400 + 0x10000
  }

  /**
   * The UTF-8 text of the units of a string (its terminator excluded): a
   * 0xFEFF unit is dropped before any swap, a high surrogate takes the next
   * unit as its partner whatever it is, and a high surrogate with no unit
   * after it is written as the three bytes of its own value.
   */
  function Utf8Of(s: seq<Unit16>, littleEndian: bool): seq<Byte>
    decreases |s|
  {
    if s == [] then []
    else if s[0] == 0xFEFF then Utf8Of(s[1..], littleEndian)
    else
      var c := Host(s[0], littleEndian);
      if IsHighSurrogate(c) && |s| >= 2 then
        Utf8Bytes(Combine(c, Host(s[1], littleEndian))) + Utf8Of(s[2..], littleEndian)
      else
        Utf8Bytes(c) + Utf8Of(s[1..], littleEndian)
  }

  /** The string is the units before the first zero unit. */
  function StrLen(mem: seq<Unit16>): (n: nat)
    requires 0 in mem
    ensures n < |mem| && mem[n] == 0
    ensures forall k :: 0 <= k < n ==> mem[k] != 0
  {
    if mem[0] == 0 then 0
    else
      assert 0 in mem[1..] by { var j :| 0 <= j < |mem| && mem[j] == 0; assert mem[1..][j - 1] == 0; }
      1 + StrLen(mem[1..])
  }

  /**
   * utf16_to_utf8: the loop reads a unit, skips a BOM, swaps, pairs a high
   * surrogate with the next unit unless that unit is the terminator, and
   * appends the UTF-8 bytes; the result is zero-terminated.  The static
   * 8196-byte buffer is a sequence here.
   */
  method Utf16ToUtf8(u16: seq<Unit16>, littleEndian: bool) returns (buf: seq<Byte>)
    requires 0 in u16
    ensures buf == Utf8Of(u16[..StrLen(u16)], littleEndian) + [0]
  {
    ghost var n := StrLen(u16);
    var i := 0;
    buf := [];
    while u16[i] != 0
      invariant 0 <= i <= n
      invariant buf + Utf8Of(u16[i..n], littleEndian) == Utf8Of(u16[..n], littleEndian)
      decreases n - i
    {
      ghost var s := u16[i..n];
      var c := u16[i];
      i := i + 1;
      assert s[1..] == u16[i..n];
      if c != 0xFEFF {
        c := Host(c, littleEndian);
        if IsHighSurrogate(c) && u16[i] != 0 {
          var c2 := Host(u16[i], littleEndian);
          i := i + 1;
          assert s[2..] == u16[i..n];
          c := Combine(c, c2);
        }
        AppendAssoc(buf, Utf8Bytes(c), Utf8Of(u16[i..n], littleEndian));
        buf := buf + Utf8Bytes(c);
      }
    }
    assert u16[i..n] == [];
    buf := buf + [0];
  }

  lemma {:induction false} AppendAssoc(a: seq<Byte>, b: seq<Byte>, c: seq<Byte>)
    ensures a + (b + c) == (a + b) + c
  {
  }

  // ------------------------------------------------------------------ properties

  /** Every unit contributes at most three bytes (a pair four bytes for two units). */
  lemma {:induction false} Utf8OfLength(s: seq<Unit16>, littleEndian: bool)
    ensures |Utf8Of(s, littleEndian)| <= 3 * |s|
    decreases |s|
  {
    if s != [] {
      var c := Host(s[0], littleEndian);
      if s[0] != 0xFEFF && IsHighSurrogate(c) && |s| >= 2 {
        Utf8OfLength(s[2..], littleEndian);
      } else {
        Utf8OfLength(s[1..], littleEndian);
      }
    }
  }

  /** The units of a sequence of scalar values, as section 2.1 of RFC 2781 lays them out. */
  function UnitsOf(cs: seq<int>): (u: seq<Unit16>)
    requires forall k :: 0 <= k < |cs| ==> IsScalar(cs[k])
  {
    if cs == [] then [] else EncodeScalar(cs[0]) + UnitsOf(cs[1..])
  }

  /** The RFC 3629 bytes of a sequence of values, one after another. */
  function BytesOf(cs: seq<int>): seq<Byte>
    requires forall k :: 0 <= k < |cs| ==> 0 <= cs[k] <= 0x10FFFF
  {
    if cs == [] then [] else Utf8Bytes(cs[0]) + BytesOf(cs[1..])
  }

  /**
   * On well-formed big-endian UTF-16 without a BOM, the conversion is the
   * RFC 3629 encoding of the scalar values the units carry.
   */
  lemma {:induction false} Utf8OfScalars(cs: seq<int>)
    requires forall k :: 0 <= k < |cs| ==> IsScalar(cs[k]) && cs[k] != 0xFEFF
    ensures Utf8Of(UnitsOf(cs), false) == BytesOf(cs)
    decreases |cs|
  {
    if cs != [] {
      Utf8OfScalars(cs[1..]);
      Utf8OfOneScalar(cs[0], UnitsOf(cs[1..]));
    }
  }

  /** The units of one scalar value, then anything: that value's bytes, then the rest's. */
  lemma {:induction false} Utf8OfOneScalar(c: int, rest: seq<Unit16>)
    requires IsScalar(c) && c != 0xFEFF
    ensures Utf8Of(EncodeScalar(c) + rest, false) == Utf8Bytes(c) + Utf8Of(rest, false)
  {
    var e := EncodeScalar(c);
    var s := e + rest;
    assert s[0] == e[0];
    if |e| == 1 {
      assert s[1..] == rest;
    } else {
      assert s[1] == e[1] && s[2..] == rest;
      CombineOfPair(c);
    }
  }

  /** The surrogate pair of a supplementary value recombines to that value. */
  lemma {:induction false} CombineOfPair(c: int)
    requires IsScalar(c) && c >= 0x10000
    ensures Combine(EncodeScalar(c)[0], EncodeScalar(c)[1]) == c
  {
    var v := c - 0x10000;
    var e := EncodeScalar(c);
    assert e[0] == 0xD800 + v / 0x400 && e[1] == 0xDC00 + v % 0x400;
    assert e[0] % 0x400 == v / 0x400;
    assert e[1] % 0x400 == v % 0x400;
  }

  /** Each unit byte-swapped. */
  function SwapEach(s: seq<Unit16>): (r: seq<Unit16>)
    ensures |r| == |s|
  {
    if s == [] then [] else [Swap16(s[0])] + SwapEach(s[1..])
  }

  lemma {:induction false} Swap16Twice(u: Unit16)
    ensures Swap16(Swap16(u)) == u
  {
    assert Swap16(u) % 0x100 == u / 0x100 && Swap16(u) / 0x100 == u % 0x100;
  }

  /**
   * With `little_endian` set the loop reads each unit byte-swapped, so the
   * result is that of the swapped string read as is, as long as the BOM
   * test, which looks at the unit before the swap, selects nothing in
   * either reading.
   */
  lemma {:induction false} LittleEndianSwaps(s: seq<Unit16>)
    requires forall k :: 0 <= k < |s| ==> s[k] != 0xFEFF && s[k] != 0xFFFE
    ensures Utf8Of(s, true) == Utf8Of(SwapEach(s), false)
    decreases |s|
  {
    if s != [] {
      var w := SwapEach(s);
      assert w[0] == Swap16(s[0]) && w[1..] == SwapEach(s[1..]);
      assert w[0] != 0xFEFF by { Swap16Twice(s[0]); }
      if |s| >= 2 {
        assert w[2..] == SwapEach(s[2..]) by {
          assert SwapEach(s[1..])[1..] == SwapEach(s[2..]);
        }
        assert w[1] == Swap16(s[1]);
        LittleEndianSwaps(s[2..]);
      }
      LittleEndianSwaps(s[1..]);
    }
  }

  /** The BOM test comes before the swap: a swapped BOM is written out as U+FEFF. */
  lemma BomCheckedBeforeSwap()
    ensures Utf8Of([0xFEFF], true) == []
    ensures Utf8Of([0xFFFE], true) == [0xEF, 0xBB, 0xBF]
    ensures Utf8Of([0xFEFF], false) == []
  {
  }

  /** A high surrogate swallows the unit after it even when that is not a low surrogate. */
  lemma UncheckedPartner()
    ensures Utf8Of([0xD800, 0x41], false) == Utf8Bytes(0x10041)
    ensures Utf8Of([0xD800, 0xDC00], false) == [0xF0, 0x90, 0x80, 0x80]
  {
    PairOf(0xD800, 0x41);
    assert Combine(0xD800, 0x41) == 0x10041;
    PairOf(0xD800, 0xDC00);
    assert Combine(0xD800, 0xDC00) == 0x10000;
    FirstSupplementaryBytes();
  }

  lemma FirstSupplementaryBytes()
    ensures Utf8Bytes(0x10000) == [0xF0, 0x90, 0x80, 0x80]
  {
  }

  lemma LoneHighBytes()
    ensures Utf8Bytes(0xD800) == [0xED, 0xA0, 0x80]
  {
  }

  lemma {:induction false} PairOf(c: Unit16, c2: Unit16)
    requires IsHighSurrogate(c)
    ensures Utf8Of([c, c2], false) == Utf8Bytes(Combine(c, c2))
  {
    var s := [c, c2];
    assert s[2..] == [];
  }

  // ------------------------------------------------------------------ as written

  /**
   * The loop as written, over the memory the pointer walks: a high surrogate
   * takes the next unit even when it is the terminator, and the loop then
   * goes on reading after it.  None is a read outside `mem`.
   */
  function Utf8OfAsWritten(mem: seq<Unit16>, i: nat, littleEndian: bool): (r: Option<seq<Byte>>)
    ensures (forall k :: i <= k < |mem| ==> mem[k] != 0) ==> r.None?
    ensures r.Some? ==> |r.value| <= 3 * (|mem| - i)
    decreases |mem| - i
  {
    if i >= |mem| then None
    else if mem[i] == 0 then Some([])
    else if mem[i] == 0xFEFF then Utf8OfAsWritten(mem, i + 1, littleEndian)
    else
      var c := Host(mem[i], littleEndian);
      if IsHighSurrogate(c) then
        if i + 1 >= |mem| then None
        else
          var rest := Utf8OfAsWritten(mem, i + 2, littleEndian);
          if rest.None? then None
          else Some(Utf8Bytes(Combine(c, Host(mem[i + 1], littleEndian))) + rest.value)
      else
        var rest := Utf8OfAsWritten(mem, i + 1, littleEndian);
        if rest.None? then None else Some(Utf8Bytes(c) + rest.value)
  }

  /** The string's last unit is a high surrogate left without a partner. */
  predicate EndsInLoneHigh(s: seq<Unit16>, littleEndian: bool)
    decreases |s|
  {
    if s == [] then false
    else if s[0] == 0xFEFF then EndsInLoneHigh(s[1..], littleEndian)
    else if IsHighSurrogate(Host(s[0], littleEndian)) then |s| == 1 || EndsInLoneHigh(s[2..], littleEndian)
    else EndsInLoneHigh(s[1..], littleEndian)
  }

  /** Unless the string ends in a lone high surrogate, the code as written agrees with `Utf8Of`. */
  lemma {:induction false} AsWrittenAgrees(mem: seq<Unit16>, i: nat, n: nat, littleEndian: bool)
    requires i <= n < |mem| && mem[n] == 0
    requires forall k :: i <= k < n ==> mem[k] != 0
    requires !EndsInLoneHigh(mem[i..n], littleEndian)
    ensures Utf8OfAsWritten(mem, i, littleEndian) == Some(Utf8Of(mem[i..n], littleEndian))
    decreases n - i
  {
    if i < n {
      var s := mem[i..n];
      assert s[0] == mem[i] && s[1..] == mem[i + 1..n];
      if mem[i] != 0xFEFF && IsHighSurrogate(Host(mem[i], littleEndian)) {
        assert |s| >= 2 && s[1] == mem[i + 1] && s[2..] == mem[i + 2..n];
        AsWrittenAgrees(mem, i + 2, n, littleEndian);
      } else {
        AsWrittenAgrees(mem, i + 1, n, littleEndian);
      }
    }
  }

  /**
   * A high surrogate right before the terminator makes the code as written
   * consume the terminator and convert the units after it ("A" here), or
   * read past the end of the memory.
   */
  lemma ReadsPastTerminator()
    ensures Utf8OfAsWritten([0xD800, 0, 0x41, 0], 0, false) == Some([0xF0, 0x90, 0x80, 0x80, 0x41])
    ensures Utf8OfAsWritten([0xD800, 0], 0, false) == None
    ensures Utf8Of([0xD800], false) == [0xED, 0xA0, 0x80]
  {
    var mem: seq<Unit16> := [0xD800, 0, 0x41, 0];
    assert Utf8OfAsWritten(mem, 3, false) == Some([]);
    SingleAsWritten(mem, 2);
    assert Utf8Bytes(mem[2]) + [] == [0x41];
    PairAsWritten(mem, 0);
    assert Combine(mem[0], mem[1]) == 0x10000;
    FirstSupplementaryBytes();
    assert [0xF0, 0x90, 0x80, 0x80] + [0x41] == [0xF0, 0x90, 0x80, 0x80, 0x41];
    assert Utf8OfAsWritten(mem, 0, false) == Some([0xF0, 0x90, 0x80, 0x80, 0x41]);
    assert Utf8Of([0xD800], false) == Utf8Bytes(0xD800) + Utf8Of([], false);
    LoneHighBytes();
  }

  lemma {:induction false} PairAsWritten(mem: seq<Unit16>, i: nat)
    requires i + 1 < |mem| && mem[i] != 0 && mem[i] != 0xFEFF && IsHighSurrogate(mem[i])
    ensures Utf8OfAsWritten(mem, i, false) ==
      var rest := Utf8OfAsWritten(mem, i + 2, false);
      if rest.None? then None else Some(Utf8Bytes(Combine(mem[i], mem[i + 1])) + rest.value)
  {
  }

  lemma {:induction false} SingleAsWritten(mem: seq<Unit16>, i: nat)
    requires i < |mem| && mem[i] != 0 && mem[i] != 0xFEFF && !IsHighSurrogate(mem[i])
    ensures Utf8OfAsWritten(mem, i, false) ==
      var rest := Utf8OfAsWritten(mem, i + 1, false);
      if rest.None? then None else Some(Utf8Bytes(mem[i]) + rest.value)
  {
  }
}
