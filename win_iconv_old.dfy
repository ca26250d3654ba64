// The older revision of win_iconv (win_iconv/win_iconv.c): a descriptor is
// a pair of code pages with MLang modes, every character is sized by
// cp_mblen, widened and narrowed through a 16-unit and a 32-byte scratch
// buffer, and the loop is either kernel_iconv (Windows conversion calls and
// two hand-written UTF-16 helpers) or mlang_iconv (the MLang calls).
module WinIconvOld {
  import opened CLib
  import opened Win32
  import opened Aliases
  import opened Mblen
  import opened Utf16
  import WinIconv

  // ------------------------------------------------------------------ names

  /**
   * name_to_codepage of the older revision: a `cp`/`CP` prefix is taken as a
   * number only when the system knows that code page; every other name goes
   * through the if-chain of lstrcmpi comparisons.
   */
  function OldCodepageOfName(p: Platform, name: string): int
  {
    if WinIconv.HasCpPrefix(name) && p.isValidCodePage(Atoi(name[2..])) then Atoi(name[2..])
    else match Lookup(Older, name)
      case Some(c) => c
      case None => -1
  }

  /** The resolution rules: the `cp` number when valid, else the chain, else -1. */
  lemma {:induction false} OldCodepageOfNameRules(p: Platform, name: string)
    ensures WinIconv.HasCpPrefix(name) && p.isValidCodePage(Atoi(name[2..])) ==>
      OldCodepageOfName(p, name) == Atoi(name[2..])
    ensures !(WinIconv.HasCpPrefix(name) && p.isValidCodePage(Atoi(name[2..]))) ==>
      (OldCodepageOfName(p, name) == -1 <==> NoMatchBetween(Older, name, 0, AliasCount)) &&
      (OldCodepageOfName(p, name) != -1 ==>
        exists k :: 0 <= k < AliasCount && Matches(Older, name, k) && NoMatchBetween(Older, name, 0, k) &&
          OlderAliasAt(k).codepage == OldCodepageOfName(p, name))
  {
    LookupNone(Older, name);
    var c := OldCodepageOfName(p, name);
    if !(WinIconv.HasCpPrefix(name) && p.isValidCodePage(Atoi(name[2..]))) && Lookup(Older, name).Some? {
      LookupFirstMatch(Older, name, c);
      var k := FirstMatchIndex(Older, name, 0);
      assert OlderAliasAt(k).codepage != -1 by { OlderCodepagesPositive(k); }
    }
  }

  /** No entry of the older chain answers -1. */
  lemma {:induction false} OlderCodepagesPositive(k: nat)
    requires k < AliasCount
    ensures OlderAliasAt(k).codepage > 0
  {
    if k < 16 {
      OlderPart0Positive();
    } else if k < 32 {
      OlderPart1Positive();
    } else if k < 48 {
      OlderPart2Positive();
    } else if k < 64 {
      OlderPart3Positive();
    } else if k < 80 {
      OlderPart4Positive();
    } else if k < 96 {
      OlderPart5Positive();
    } else if k < 112 {
      OlderPart6Positive();
    } else if k < 128 {
      OlderPart7Positive();
    } else if k < 144 {
      OlderPart8Positive();
    } else {
      OlderPart9Positive();
    }
  }

  /** In this revision `EUC-JP` names 20932 on every system. */
  lemma {:induction false} OldEucJpName(p: Platform)
    ensures OldCodepageOfName(p, "EUC-JP") == 20932
  {
    EucJpAlias();
  }

  /**
   * `CP367` names 367 when the system knows that code page and otherwise
   * reaches its chain entry, US-ASCII (20127): the validity test lets the
   * `cp` prefix fall through to the chain.
   */
  lemma {:induction false} OldCp367Name(p: Platform)
    ensures OldCodepageOfName(p, "CP367") == if p.isValidCodePage(367) then 367 else 20127
  {
    Cp367Number();
    Cp367Listed(Older);
  }

  lemma Cp367Number()
    ensures WinIconv.HasCpPrefix("CP367") && Atoi("CP367"[2..]) == 367
  {
    WinIconv.CpPrefixShadowsTable();
  }

  /** is_kernel_codepage: Windows converts it, or it is UTF-16LE/BE. */
  predicate IsKernelCodepage(p: Platform, codepage: int)
  {
    p.isValidCodePage(codepage) || codepage == 1200 || codepage == 1201
  }

  // ------------------------------------------------------------------ cp_mblen

  /**
   * The byte `str[i]` cp_mblen reads.  cp_mblen reads the second byte of a
   * UTF-16 character before the caller has checked that it exists; past the
   * unread input the model reads 0.  That byte only chooses between the
   * lengths 2 and 4, both more than the one byte left, so the caller's EINVAL
   * does not depend on it (`OneUtf16ByteIsIncomplete`).
   */
  function ByteAt(str: seq<Byte>, i: nat): Byte
  {
    if i < |str| then str[i] else 0
  }

  /** Unit `i` of a UTF-16 string in code page 1200 (LE) or otherwise BE. */
  function Utf16UnitAt(str: seq<Byte>, i: nat, codepage: int): Unit16
    requires 2 * i + 1 < |str|
  {
    if codepage == 1200 then LeUnit(str[2 * i], str[2 * i + 1]) else BeUnit(str[2 * i], str[2 * i + 1])
  }

  /**
   * cp_mblen: the byte length of the character at the start of `str`, or -1.
   * 51932 is measured as 20932; UTF-16 characters are 4 bytes after a high
   * surrogate and 2 otherwise; UTF-8 lead bytes are classified by their bit
   * masks; other code pages use MaxCharSize and, for double-byte ones, the
   * lead-byte test.
   */
  function CpMblen(p: Platform, codepage: int, str: seq<Byte>): (r: int)
    requires |str| >= 1
    ensures r == -1 || 1 <= r <= 6
    ensures (codepage == 1200 || codepage == 1201) ==> r == 2 || r == 4
    ensures (codepage == 1200 || codepage == 1201) && |str| >= 2 ==>
      r == (if IsHighSurrogate(Utf16UnitAt(str, 0, codepage)) then 4 else 2)
    ensures codepage == 65001 ==> r == (if Utf8LeadLength(str[0]) == 0 then -1 else Utf8LeadLength(str[0]))
  {
    var cp := if codepage == 51932 then 20932 else codepage;
    if cp == 1200 then
      if IsHighSurrogate(LeUnit(str[0], ByteAt(str, 1))) then 4 else 2
    else if cp == 1201 then
      if IsHighSurrogate(BeUnit(str[0], ByteAt(str, 1))) then 4 else 2
    else if cp == 65001 then
      MaskClassification(str[0]);
      var b := str[0];
      if b < 0x80 then 1
      else if MaskIs(b, 0xE0, 0xC0) then 2
      else if MaskIs(b, 0xF0, 0xE0) then 3
      else if MaskIs(b, 0xF8, 0xF0) then 4
      else if MaskIs(b, 0xFC, 0xF8) then 5
      else if MaskIs(b, 0xFE, 0xFC) then 6
      else -1
    else if HasCPInfo(p, cp) then
      if p.maxCharSize(cp) == 1 then 1
      else if p.maxCharSize(cp) == 2 then (if p.isLeadByte(cp, str[0]) then 2 else 1)
      else -1
    else -1
  }

  /** 51932 is sized exactly as 20932. */
  lemma {:induction false} CpMblenEucJp(p: Platform, str: seq<Byte>)
    requires |str| >= 1
    ensures CpMblen(p, 51932, str) == CpMblen(p, 20932, str)
  {
  }

  /** A code page that is neither UTF-16, UTF-8 nor known to GetCPInfoEx has no lengths. */
  lemma {:induction false} CpMblenUnknown(p: Platform, codepage: int, str: seq<Byte>)
    requires |str| >= 1
    requires codepage !in {1200, 1201, 65001, 51932} && !HasCPInfo(p, codepage)
    ensures CpMblen(p, codepage, str) == -1
  {
  }

  /**
   * In UTF-16 either length is more than one byte, whatever the byte past
   * the input holds, so one remaining byte is always an incomplete character.
   */
  lemma {:induction false} OneUtf16ByteIsIncomplete(p: Platform, codepage: int, str: seq<Byte>)
    requires codepage == 1200 || codepage == 1201
    requires |str| == 1
    ensures CpMblen(p, codepage, str) > |str|
  {
  }

  // ------------------------------------------------------------------ utf16_to_wchar

  /** A wide-character buffer after utf16_to_wchar, with its return value. */
  datatype Widened = Widened(ok: bool, wbuf: seq<Unit16>)

  /** What utf16_to_wchar may assume: the bytes of the character cp_mblen sized. */
  predicate HasUtf16Char(str: seq<Byte>, codepage: int)
  {
    |str| >= 2 && (IsHighSurrogate(Utf16UnitAt(str, 0, codepage)) ==> |str| >= 4)
  }

  /**
   * utf16_to_wchar: the first unit goes to wbuf[0] (read big-endian and
   * swapped for 1200); after a high surrogate the second goes to wbuf[1]
   * and must be a low surrogate.  A leading low surrogate is accepted.
   */
  function Utf16ToWcharSpec(str: seq<Byte>, wbuf: seq<Unit16>, codepage: int): (r: Widened)
    requires |wbuf| == 16 && HasUtf16Char(str, codepage)
    ensures |r.wbuf| == 16
    ensures r.wbuf[0] == Utf16UnitAt(str, 0, codepage)
    ensures !IsHighSurrogate(r.wbuf[0]) ==> r.ok && r.wbuf == wbuf[0 := r.wbuf[0]]
    ensures IsHighSurrogate(r.wbuf[0]) ==>
      r.wbuf == wbuf[0 := r.wbuf[0]][1 := Utf16UnitAt(str, 1, codepage)] &&
      (r.ok <==> IsLowSurrogate(r.wbuf[1]))
  {
    var w0 := BeUnit(str[0], str[1]);
    var u0 := if codepage == 1200 then Swap16(w0) else w0;
    Swap16Be(str[0], str[1]);
    if IsHighSurrogate(u0) then
      var w1 := BeUnit(str[2], str[3]);
      var u1 := if codepage == 1200 then Swap16(w1) else w1;
      Swap16Be(str[2], str[3]);
      Widened(IsLowSurrogate(u1), wbuf[0 := u0][1 := u1])
    else
      Widened(true, wbuf[0 := u0])
  }

  /** utf16_to_wchar on the 16-unit buffer of the caller. */
  method Utf16ToWchar(str: seq<Byte>, wbuf: array<Unit16>, codepage: int) returns (ok: bool)
    requires wbuf.Length == 16 && HasUtf16Char(str, codepage)
    modifies wbuf
    ensures Widened(ok, wbuf[..]) == Utf16ToWcharSpec(str, old(wbuf[..]), codepage)
  {
    wbuf[0] := BeUnit(str[0], str[1]);
    if codepage == 1200 {
      wbuf[0] := Swap16(wbuf[0]);
    }
    Swap16Be(str[0], str[1]);
    assert wbuf[0] == Utf16UnitAt(str, 0, codepage);
    if IsHighSurrogate(wbuf[0]) {
      wbuf[1] := BeUnit(str[2], str[3]);
      if codepage == 1200 {
        wbuf[1] := Swap16(wbuf[1]);
      }
      if !IsLowSurrogate(wbuf[1]) {
        return false;
      }
    }
    return true;
  }

  /** The trunk decoder of the same byte order (utf16le_mbtowc or utf16be_mbtowc). */
  function TrunkDecoder(str: seq<Byte>, codepage: int): DecodeResult
  {
    if codepage == 1200 then Utf16LeMbtowc(str) else Utf16BeMbtowc(str)
  }

  /**
   * Except at a leading low surrogate, utf16_to_wchar accepts exactly what
   * the trunk decoder accepts, and leaves the same units in the buffer.
   */
  lemma {:induction false} Utf16ToWcharAgreesWithTrunk(str: seq<Byte>, wbuf: seq<Unit16>, codepage: int)
    requires |wbuf| == 16 && HasUtf16Char(str, codepage)
    requires !IsLowSurrogate(Utf16UnitAt(str, 0, codepage))
    ensures var r := Utf16ToWcharSpec(str, wbuf, codepage);
      var t := TrunkDecoder(str, codepage);
      (r.ok <==> t.Decode?) && (t.Decode? ==> r.wbuf[..|t.d.units|] == t.d.units)
  {
    var r := Utf16ToWcharSpec(str, wbuf, codepage);
    var t := TrunkDecoder(str, codepage);
    if t.Decode? {
      if IsHighSurrogate(r.wbuf[0]) {
        assert r.wbuf[..2] == [r.wbuf[0], r.wbuf[1]];
      } else {
        assert r.wbuf[..1] == [r.wbuf[0]];
      }
    }
  }

  /** A lone low surrogate passes utf16_to_wchar, while the trunk decoder rejects it. */
  lemma {:induction false} LoneLowSurrogateAccepted(wbuf: seq<Unit16>)
    requires |wbuf| == 16
    ensures Utf16ToWcharSpec([0xDC, 0x00], wbuf, 1201).ok
    ensures Utf16BeMbtowc([0xDC, 0x00]) == DecodeError(EILSEQ)
  {
    assert Utf16UnitAt([0xDC, 0x00], 0, 1201) == 0xDC00;
  }

  // ------------------------------------------------------------------ wchar_to_utf16

  /**
   * wchar_to_utf16 as written: the bytes of wbuf[0] in the code page's order,
   * and after a high surrogate the third byte from wbuf[1] but the fourth
   * from wbuf[2].  Other code pages leave the buffer alone.
   */
  function WcharToUtf16AsWrittenSpec(wbuf: seq<Unit16>, buf: seq<Byte>, codepage: int): (r: seq<Byte>)
    requires |wbuf| == 16 && |buf| == 32
    ensures |r| == 32
  {
    if codepage == 1200 then
      var b := buf[0 := wbuf[0] % 0x100][1 := wbuf[0] / 0x100];
      if IsHighSurrogate(wbuf[0]) then b[2 := wbuf[1] % 0x100][3 := wbuf[2] / 0x100] else b
    else if codepage == 1201 then
      var b := buf[0 := wbuf[0] / 0x100][1 := wbuf[0] % 0x100];
      if IsHighSurrogate(wbuf[0]) then b[2 := wbuf[1] / 0x100][3 := wbuf[2] % 0x100] else b
    else buf
  }

  method WcharToUtf16AsWritten(wbuf: array<Unit16>, buf: array<Byte>, codepage: int)
    requires wbuf.Length == 16 && buf.Length == 32
    modifies buf
    ensures buf[..] == WcharToUtf16AsWrittenSpec(wbuf[..], old(buf[..]), codepage)
  {
    if codepage == 1200 {
      buf[0] := wbuf[0] % 0x100;
      buf[1] := wbuf[0] / 0x100;
      if IsHighSurrogate(wbuf[0]) {
        buf[2] := wbuf[1] % 0x100;
        buf[3] := wbuf[2] / 0x100;
      }
    } else if codepage == 1201 {
      buf[0] := wbuf[0] / 0x100;
      buf[1] := wbuf[0] % 0x100;
      if IsHighSurrogate(wbuf[0]) {
        buf[2] := wbuf[1] / 0x100;
        buf[3] := wbuf[2] % 0x100;
      }
    }
  }

  /**
   * The pair U+D800 U+DC00 with 0 in wbuf[2] comes out of the as-written
   * helper as 00 D8 00 00 instead of 00 D8 00 DC, so utf16_to_wchar does not
   * read the pair back.
   */
  lemma {:induction false} WcharToUtf16Defect(wbuf: seq<Unit16>, buf: seq<Byte>)
    requires |wbuf| == 16 && |buf| == 32
    requires wbuf[0] == 0xD800 && wbuf[1] == 0xDC00 && wbuf[2] == 0
    ensures WcharToUtf16AsWrittenSpec(wbuf, buf, 1200)[..4] == [0x00, 0xD8, 0x00, 0x00]
    ensures WcharToUtf16AsWrittenSpec(wbuf, buf, 1200)[..4] != LeBytes(wbuf[..2])
    ensures !Utf16ToWcharSpec(WcharToUtf16AsWrittenSpec(wbuf, buf, 1200), wbuf, 1200).ok
  {
    var r := WcharToUtf16AsWrittenSpec(wbuf, buf, 1200);
    assert r[..4] == [0x00, 0xD8, 0x00, 0x00];
    assert LeBytes(wbuf[..2])[3] == 0xDC;
    assert Utf16UnitAt(r, 0, 1200) == 0xD800;
    assert Utf16UnitAt(r, 1, 1200) == 0;
  }

  /** wchar_to_utf16 with the fourth byte taken from wbuf[1]. */
  function WcharToUtf16Spec(wbuf: seq<Unit16>, buf: seq<Byte>, codepage: int): (r: seq<Byte>)
    requires |wbuf| == 16 && |buf| == 32
    ensures |r| == 32
  {
    if codepage == 1200 then
      var b := buf[0 := wbuf[0] % 0x100][1 := wbuf[0] / 0x100];
      if IsHighSurrogate(wbuf[0]) then b[2 := wbuf[1] % 0x100][3 := wbuf[1] / 0x100] else b
    else if codepage == 1201 then
      var b := buf[0 := wbuf[0] / 0x100][1 := wbuf[0] % 0x100];
      if IsHighSurrogate(wbuf[0]) then b[2 := wbuf[1] / 0x100][3 := wbuf[1] % 0x100] else b
    else buf
  }

  method WcharToUtf16(wbuf: array<Unit16>, buf: array<Byte>, codepage: int)
    requires wbuf.Length == 16 && buf.Length == 32
    modifies buf
    ensures buf[..] == WcharToUtf16Spec(wbuf[..], old(buf[..]), codepage)
  {
    if codepage == 1200 {
      buf[0] := wbuf[0] % 0x100;
      buf[1] := wbuf[0] / 0x100;
      if IsHighSurrogate(wbuf[0]) {
        buf[2] := wbuf[1] % 0x100;
        buf[3] := wbuf[1] / 0x100;
      }
    } else if codepage == 1201 {
      buf[0] := wbuf[0] / 0x100;
      buf[1] := wbuf[0] % 0x100;
      if IsHighSurrogate(wbuf[0]) {
        buf[2] := wbuf[1] / 0x100;
        buf[3] := wbuf[1] % 0x100;
      }
    }
  }

  /** How many units wchar_to_utf16 serialises: two after a high surrogate. */
  function PairLength(wbuf: seq<Unit16>): nat
    requires |wbuf| >= 1
  {
    if IsHighSurrogate(wbuf[0]) then 2 else 1
  }

  /**
   * The corrected helper writes the first one or two units in the byte
   * order of the code page, exactly as the trunk encoders serialise them,
   * and leaves the rest of the buffer alone.
   */
  lemma {:induction false} WcharToUtf16Serialises(wbuf: seq<Unit16>, buf: seq<Byte>, codepage: int)
    requires |wbuf| == 16 && |buf| == 32 && (codepage == 1200 || codepage == 1201)
    ensures var n := 2 * PairLength(wbuf);
      var r := WcharToUtf16Spec(wbuf, buf, codepage);
      r[..n] == (if codepage == 1200 then LeBytes(wbuf[..n / 2]) else BeBytes(wbuf[..n / 2])) &&
      r[n..] == buf[n..]
  {
    var n := 2 * PairLength(wbuf);
    var r := WcharToUtf16Spec(wbuf, buf, codepage);
    var e := if codepage == 1200 then LeBytes(wbuf[..n / 2]) else BeBytes(wbuf[..n / 2]);
    assert |e| == n;
    forall i | 0 <= i < n ensures r[i] == e[i] {
      assert wbuf[..n / 2][i / 2] == wbuf[i / 2];
    }
  }

  /** The fourth byte the as-written helper stores after a high surrogate: a byte of `wbuf[2]`. */
  function StaleByte(u: Unit16, codepage: int): Byte
  {
    if codepage == 1200 then u / 0x100 else u % 0x100
  }

  /**
   * The as-written helper stores what the corrected one stores, except for
   * the fourth byte of a surrogate pair, which is a byte of `wbuf[2]`.
   */
  lemma {:induction false} WcharToUtf16AsWrittenAgrees(wbuf: seq<Unit16>, buf: seq<Byte>, codepage: int)
    requires |wbuf| == 16 && |buf| == 32 && (codepage == 1200 || codepage == 1201)
    ensures var a := WcharToUtf16AsWrittenSpec(wbuf, buf, codepage);
      var c := WcharToUtf16Spec(wbuf, buf, codepage);
      && (!IsHighSurrogate(wbuf[0]) ==> a == c)
      && (IsHighSurrogate(wbuf[0]) ==> a == c[3 := StaleByte(wbuf[2], codepage)])
  {
  }

  /**
   * Widening a UTF-16 character and narrowing it again with the corrected
   * helper, into the same code page, reproduces its bytes.
   */
  lemma {:induction false} Utf16RoundTripOld(str: seq<Byte>, wbuf: seq<Unit16>, buf: seq<Byte>, codepage: int)
    requires |wbuf| == 16 && |buf| == 32 && (codepage == 1200 || codepage == 1201)
    requires HasUtf16Char(str, codepage)
    requires Utf16ToWcharSpec(str, wbuf, codepage).ok
    ensures var w := Utf16ToWcharSpec(str, wbuf, codepage).wbuf;
      var n := 2 * PairLength(w);
      n <= |str| && WcharToUtf16Spec(w, buf, codepage)[..n] == str[..n]
  {
    var w := Utf16ToWcharSpec(str, wbuf, codepage).wbuf;
    var r := WcharToUtf16Spec(w, buf, codepage);
    UnitAtBytes(str, 0, codepage);
    assert r[0] == str[0] && r[1] == str[1];
    if IsHighSurrogate(w[0]) {
      UnitAtBytes(str, 1, codepage);
      assert r[2] == str[2] && r[3] == str[3];
      assert r[..4] == str[..4];
    } else {
      assert r[..2] == str[..2];
    }
  }

  /** The two bytes a unit was read from are its low and high byte in the code page's order. */
  lemma {:induction false} UnitAtBytes(str: seq<Byte>, i: nat, codepage: int)
    requires 2 * i + 1 < |str| && (codepage == 1200 || codepage == 1201)
    ensures var u := Utf16UnitAt(str, i, codepage);
      if codepage == 1200 then u % 0x100 == str[2 * i] && u / 0x100 == str[2 * i + 1]
      else u / 0x100 == str[2 * i] && u % 0x100 == str[2 * i + 1]
  {
  }

  // ------------------------------------------------------------------ one character

  /** csconv_t of this revision: a code page and the MLang conversion mode. */
  datatype Side = Side(mode: int, codepage: int)

  /** The two stack buffers of the loops: `wchar_t wbuf[16]` and `char buf[32]`. */
  datatype Scratch = Scratch(wbuf: seq<Unit16>, buf: seq<Byte>)

  predicate Sized(sc: Scratch)
  {
    |sc.wbuf| == 16 && |sc.buf| == 32
  }

  predicate IsUtf16Codepage(codepage: int)
  {
    codepage == 1200 || codepage == 1201
  }

  /** The wide-character buffer after widening, and `wsize`. */
  datatype Wide = Wide(wbuf: seq<Unit16>, wsize: nat)

  /** The byte buffer after narrowing, and `outsize`. */
  datatype Narrow = Narrow(buf: seq<Byte>, outsize: nat)

  /**
   * The widening half of a kernel_iconv step on a character of `len` bytes:
   * utf16_to_wchar for UTF-16, with `len / 2` units, and MultiByteToWideChar
   * otherwise; None is the EILSEQ of either.
   */
  function KernelWiden(p: Platform, codepage: int, str: seq<Byte>, len: int, wbuf: seq<Unit16>): (r: Option<Wide>)
    requires |wbuf| == 16 && 1 <= len <= |str| && len == CpMblen(p, codepage, str)
    ensures r.Some? ==> |r.value.wbuf| == 16 && 1 <= r.value.wsize <= 16
    ensures r.Some? && IsUtf16Codepage(codepage) ==> r.value.wsize == PairLength(r.value.wbuf) && len == 2 * r.value.wsize
  {
    if IsUtf16Codepage(codepage) then
      var w := Utf16ToWcharSpec(str, wbuf, codepage);
      if w.ok then Some(Wide(w.wbuf, len / 2)) else None
    else
      var units := MultiByteToWideChar(p, codepage, str[..len], 16);
      if units == [] then None else Some(Wide(Overwrite(wbuf, 0, units), |units|))
  }

  /**
   * The narrowing half: wchar_to_utf16 as written for UTF-16, with
   * `2 * wsize` bytes, and WideCharToMultiByte into the 32-byte buffer
   * otherwise, which fails on a 0 result or a substituted default character
   * (not asked for with 65000 and 65001).
   */
  function KernelNarrow(p: Platform, codepage: int, w: Wide, buf: seq<Byte>): (r: Option<Narrow>)
    requires |w.wbuf| == 16 && 1 <= w.wsize <= 16 && |buf| == 32
    ensures r.Some? ==> |r.value.buf| == 32 && r.value.outsize <= 32
  {
    if IsUtf16Codepage(codepage) then Some(Narrow(WcharToUtf16AsWrittenSpec(w.wbuf, buf, codepage), 2 * w.wsize))
    else
      var c := WideCharToMultiByte(p, codepage, w.wbuf[..w.wsize], 32, !(codepage == 65000 || codepage == 65001));
      if c.ret == 0 || c.usedDefault then None else Some(Narrow(Overwrite(buf, 0, c.written), c.ret))
  }

  /** One turn of a loop: a character converted, or the error that stops the call. */
  datatype OldStep =
    | Stepped(insize: nat, bytes: seq<Byte>, from: Side, to: Side, scratch: Scratch)
    | Failed(e: Errno, from: Side, to: Side)

  /** The loop a descriptor runs: kernel_iconv or mlang_iconv. */
  datatype Engine = KernelEngine | MlangEngine

  /** One turn of kernel_iconv on the unread input `str` with `outLeft` bytes of room. */
  function KernelStep(p: Platform, from: Side, to: Side, str: seq<Byte>, outLeft: nat, sc: Scratch): OldStep
    requires |str| >= 1 && Sized(sc)
  {
    var len := CpMblen(p, from.codepage, str);
    if len == -1 then Failed(EILSEQ, from, to)
    else if |str| < len then Failed(EINVAL, from, to)
    else match KernelWiden(p, from.codepage, str, len, sc.wbuf)
      case None => Failed(EILSEQ, from, to)
      case Some(w) =>
        match KernelNarrow(p, to.codepage, w, sc.buf)
        case None => Failed(EILSEQ, from, to)
        case Some(n) =>
          if outLeft < n.outsize then Failed(E2BIG, from, to)
          else Stepped(len, n.buf[..n.outsize], from, to, Scratch(w.wbuf, n.buf))
  }

  /**
   * One turn of mlang_iconv: ConvertINetMultiByteToUnicode must consume the
   * whole character and ConvertINetUnicodeToMultiByte all its units; both
   * update their side's mode even when they fail.
   */
  function MlangStep(p: Platform, from: Side, to: Side, str: seq<Byte>, outLeft: nat, sc: Scratch): OldStep
    requires |str| >= 1 && Sized(sc)
  {
    var len := CpMblen(p, from.codepage, str);
    if len == -1 then Failed(EILSEQ, from, to)
    else if |str| < len then Failed(EINVAL, from, to)
    else
      var wide := ConvertINetMultiByteToUnicode(p, from.mode, from.codepage, str[..len], 16);
      var from' := from.(mode := wide.mode);
      if !wide.ok || wide.consumed != len then Failed(EILSEQ, from', to)
      else
        var narrow := ConvertINetUnicodeToMultiByte(p, to.mode, to.codepage, wide.output, 32);
        var to' := to.(mode := narrow.mode);
        if !narrow.ok || narrow.consumed != |wide.output| then Failed(EILSEQ, from', to')
        else if outLeft < |narrow.output| then Failed(E2BIG, from', to')
        else Stepped(len, narrow.output, from', to',
                     Scratch(Overwrite(sc.wbuf, 0, wide.output), Overwrite(sc.buf, 0, narrow.output)))
  }

  /** A turn of the engine's loop. */
  function Step(p: Platform, engine: Engine, from: Side, to: Side, str: seq<Byte>, outLeft: nat, sc: Scratch): (r: OldStep)
    requires |str| >= 1 && Sized(sc)
    ensures r.Stepped? ==> 1 <= r.insize <= |str| && |r.bytes| <= outLeft && Sized(r.scratch)
    ensures r.from == from.(mode := r.from.mode) && r.to == to.(mode := r.to.mode)
    ensures engine == KernelEngine ==> r.from == from && r.to == to
  {
    match engine
    case KernelEngine => KernelStep(p, from, to, str, outLeft, sc)
    case MlangEngine => MlangStep(p, from, to, str, outLeft, sc)
  }

  /**
   * The order of the checks: a character cp_mblen cannot size is EILSEQ, one
   * that does not fit the input is EINVAL, both before any conversion call;
   * a converted character consumes exactly its cp_mblen length.
   */
  lemma {:induction false} StepCheckOrder(p: Platform, engine: Engine, from: Side, to: Side, str: seq<Byte>, outLeft: nat, sc: Scratch)
    requires |str| >= 1 && Sized(sc)
    ensures var len := CpMblen(p, from.codepage, str);
      var st := Step(p, engine, from, to, str, outLeft, sc);
      && (len == -1 ==> st == Failed(EILSEQ, from, to))
      && (len != -1 && |str| < len ==> st == Failed(EINVAL, from, to))
      && (st.Stepped? ==> st.insize == len)
  {
  }

  /**
   * E2BIG is reported only for a character that converts but does not fit:
   * the bytes it needs (at most 32) are more than the room left, and with
   * 32 bytes of room the same turn succeeds.  Room beyond what a character
   * needs changes nothing.
   */
  lemma {:induction false} StepRoom(p: Platform, engine: Engine, from: Side, to: Side, str: seq<Byte>, outLeft: nat, sc: Scratch)
    requires |str| >= 1 && Sized(sc)
    ensures var st := Step(p, engine, from, to, str, outLeft, sc);
      var big := Step(p, engine, from, to, str, 32, sc);
      && (st.Failed? && st.e == E2BIG ==> big.Stepped? && outLeft < |big.bytes| && st.from == big.from && st.to == big.to)
      && (st.Stepped? ==> outLeft >= |st.bytes| && (outLeft <= 32 ==> big == st))
  {
  }

  // ------------------------------------------------------------------ the loop

  /** What a call of the loop did: bytes consumed and produced, the error that stopped it, the new sides. */
  datatype OldOutcome = OldOutcome(consumed: nat, produced: seq<Byte>, err: Option<Errno>, from: Side, to: Side)

  /** The loop from the top: nothing left, or a turn (RunStep). */
  function RunFrom(p: Platform, engine: Engine, from: Side, to: Side, input: seq<Byte>, outLeft: nat, sc: Scratch): (r: OldOutcome)
    requires Sized(sc)
    ensures r.consumed <= |input| && |r.produced| <= outLeft
    ensures r.err == None <==> r.consumed == |input|
    ensures r.from == from.(mode := r.from.mode) && r.to == to.(mode := r.to.mode)
    ensures engine == KernelEngine ==> r.from == from && r.to == to
    decreases |input|, 1
  {
    if |input| == 0 then OldOutcome(0, [], None, from, to)
    else RunStep(p, engine, from, to, input, outLeft, sc)
  }

  /** One turn on a non-empty input, then the turns after it. */
  function RunStep(p: Platform, engine: Engine, from: Side, to: Side, input: seq<Byte>, outLeft: nat, sc: Scratch): (r: OldOutcome)
    requires Sized(sc) && |input| >= 1
    ensures r.consumed <= |input| && |r.produced| <= outLeft
    ensures r.err == None <==> r.consumed == |input|
    ensures r.from == from.(mode := r.from.mode) && r.to == to.(mode := r.to.mode)
    ensures engine == KernelEngine ==> r.from == from && r.to == to
    decreases |input|, 0
  {
    match Step(p, engine, from, to, input, outLeft, sc)
    case Failed(e, f, t) => OldOutcome(0, [], Some(e), f, t)
    case Stepped(n, bytes, f, t, sc') => Resumed(n, bytes, RunFrom(p, engine, f, t, input[n..], outLeft - |bytes|, sc'))
  }

  /** An outcome preceded by `consumed` bytes already converted into `produced`. */
  function Resumed(consumed: nat, produced: seq<Byte>, o: OldOutcome): (r: OldOutcome)
  {
    o.(consumed := consumed + o.consumed, produced := produced + o.produced)
  }

  lemma {:induction false} ResumedTwice(c0: nat, w0: seq<Byte>, c1: nat, w1: seq<Byte>, o: OldOutcome)
    ensures Resumed(c0, w0, Resumed(c1, w1, o)) == Resumed(c0 + c1, w0 + w1, o)
  {
    assert w0 + (w1 + o.produced) == (w0 + w1) + o.produced;
  }

  /**
   * What one call of kernel_iconv or mlang_iconv does on `input` with
   * `outLeft` bytes of room, starting from the scratch contents `sc`.  A
   * failing turn writes nothing: `produced` is whole characters only.
   */
  function Run(p: Platform, engine: Engine, from: Side, to: Side, input: seq<Byte>, outLeft: nat, sc: Scratch): (r: OldOutcome)
    requires Sized(sc)
    ensures r.consumed <= |input| && |r.produced| <= outLeft
    ensures r.err == None <==> r.consumed == |input|
    ensures r.from == from.(mode := r.from.mode) && r.to == to.(mode := r.to.mode)
    ensures engine == KernelEngine ==> r.from == from && r.to == to
  {
    RunFrom(p, engine, from, to, input, outLeft, sc)
  }

  /** The first turn of a call, unfolded. */
  lemma {:induction false} RunUnfold(p: Platform, engine: Engine, from: Side, to: Side, input: seq<Byte>, outLeft: nat, sc: Scratch)
    requires Sized(sc) && |input| >= 1
    ensures var st := Step(p, engine, from, to, input, outLeft, sc);
      Run(p, engine, from, to, input, outLeft, sc) ==
        if st.Failed? then OldOutcome(0, [], Some(st.e), st.from, st.to)
        else Resumed(st.insize, st.bytes, Run(p, engine, st.from, st.to, input[st.insize..], outLeft - |st.bytes|, st.scratch))
  {
    assert Run(p, engine, from, to, input, outLeft, sc) == RunStep(p, engine, from, to, input, outLeft, sc);
  }

  /**
   * Between UTF-16LE and UTF-16BE, a kernel_iconv turn on a single unit
   * copies its two bytes when both sides have the same byte order and swaps
   * them otherwise.  On a surrogate pair the first three bytes are copied or
   * swapped the same way, but the fourth is a byte of whatever unit the
   * scratch `wbuf[2]` held before the turn.
   */
  lemma {:induction false} KernelUtf16StepBytes(p: Platform, from: Side, to: Side, str: seq<Byte>, outLeft: nat, sc: Scratch)
    requires IsUtf16Codepage(from.codepage) && IsUtf16Codepage(to.codepage)
    requires |str| >= 1 && Sized(sc)
    requires KernelStep(p, from, to, str, outLeft, sc).Stepped?
    ensures var st := KernelStep(p, from, to, str, outLeft, sc);
      var want := Reordered(from.codepage != to.codepage, str[..st.insize]);
      && |str| >= 2
      && (st.insize == 2 || st.insize == 4)
      && (st.insize == 2 <==> !IsHighSurrogate(Utf16UnitAt(str, 0, from.codepage)))
      && (st.insize == 2 ==> st.bytes == want)
      && (st.insize == 4 ==> st.bytes == want[3 := StaleByte(sc.wbuf[2], to.codepage)])
  {
    var len := CpMblen(p, from.codepage, str);
    var w := KernelWiden(p, from.codepage, str, len, sc.wbuf).value;
    var n := 2 * w.wsize;
    var u := w.wbuf[..w.wsize];
    var swap := from.codepage != to.codepage;
    var fixed := WcharToUtf16Spec(w.wbuf, sc.buf, to.codepage);
    Utf16RoundTripOld(str, sc.wbuf, sc.buf, from.codepage);
    WcharToUtf16Serialises(w.wbuf, sc.buf, from.codepage);
    WcharToUtf16Serialises(w.wbuf, sc.buf, to.codepage);
    if swap {
      LeIsSwappedBe(u);
      BeIsSwappedLe(u);
    }
    assert fixed[..n] == Reordered(swap, str[..n]);
    WcharToUtf16AsWrittenAgrees(w.wbuf, sc.buf, to.codepage);
    if n == 4 {
      var x := StaleByte(w.wbuf[2], to.codepage);
      assert fixed[3 := x][..4] == fixed[..4][3 := x];
    }
  }

  /**
   * The pair U+D800 U+DC00 read as UTF-16BE and written as UTF-16LE by a
   * turn whose scratch `wbuf[2]` holds 0 comes out as 00 D8 00 00.
   */
  lemma {:induction false} KernelPairStaleByte(p: Platform, sc: Scratch)
    requires Sized(sc) && sc.wbuf[2] == 0
    ensures var st := KernelStep(p, Side(0, 1201), Side(0, 1200), [0xD8, 0x00, 0xDC, 0x00], 4, sc);
      st.Stepped? && st.insize == 4 && st.bytes == [0x00, 0xD8, 0x00, 0x00]
  {
    var str: seq<Byte> := [0xD8, 0x00, 0xDC, 0x00];
    assert Utf16UnitAt(str, 0, 1201) == 0xD800;
    assert Utf16UnitAt(str, 1, 1201) == 0xDC00;
    KernelUtf16StepBytes(p, Side(0, 1201), Side(0, 1200), str, 4, sc);
    assert Reordered(true, str) == [0x00, 0xD8, 0x00, 0xDC];
  }

  /** No unit at an even offset of `input` opens a surrogate pair. */
  ghost predicate NoPairs(input: seq<Byte>, codepage: int)
  {
    forall i: nat :: 2 * i + 1 < |input| ==> !IsHighSurrogate(Utf16UnitAt(input, i, codepage))
  }

  lemma {:induction false} NoPairsTail(input: seq<Byte>, codepage: int)
    requires |input| >= 2 && NoPairs(input, codepage)
    ensures NoPairs(input[2..], codepage)
  {
    forall i: nat | 2 * i + 1 < |input| - 2
      ensures !IsHighSurrogate(Utf16UnitAt(input[2..], i, codepage))
    {
      assert Utf16UnitAt(input[2..], i, codepage) == Utf16UnitAt(input, i + 1, codepage);
    }
  }

  /**
   * Over a whole call between the UTF-16 code pages on text without
   * surrogate pairs: copied, or each pair of bytes swapped.
   */
  lemma {:induction false} KernelUtf16RunBytes(p: Platform, from: Side, to: Side, input: seq<Byte>, outLeft: nat, sc: Scratch)
    requires IsUtf16Codepage(from.codepage) && IsUtf16Codepage(to.codepage) && Sized(sc)
    requires NoPairs(input, from.codepage)
    ensures var o := Run(p, KernelEngine, from, to, input, outLeft, sc);
      o.produced == Reordered(from.codepage != to.codepage, input[..o.consumed])
    decreases |input|
  {
    if |input| > 0 {
      RunUnfold(p, KernelEngine, from, to, input, outLeft, sc);
      var st := KernelStep(p, from, to, input, outLeft, sc);
      if st.Stepped? {
        KernelUtf16StepBytes(p, from, to, input, outLeft, sc);
        assert !IsHighSurrogate(Utf16UnitAt(input, 0, from.codepage));
        var n := st.insize;
        var o' := Run(p, KernelEngine, from, to, input[n..], outLeft - |st.bytes|, st.scratch);
        NoPairsTail(input, from.codepage);
        KernelUtf16RunBytes(p, from, to, input[n..], outLeft - |st.bytes|, st.scratch);
        ReorderedResumed(from.codepage != to.codepage, input, n, st.bytes, o');
      }
    }
  }

  /** A reordered even-length first character, then a reordered rest, is the reordered whole. */
  lemma {:induction false} ReorderedResumed(swap: bool, input: seq<Byte>, n: nat, bytes: seq<Byte>, o: OldOutcome)
    requires n <= |input| && n % 2 == 0 && o.consumed <= |input| - n
    requires bytes == Reordered(swap, input[..n])
    requires o.produced == Reordered(swap, input[n..][..o.consumed])
    ensures Resumed(n, bytes, o).produced == Reordered(swap, input[..Resumed(n, bytes, o).consumed])
  {
    ReorderedSplit(swap, input, n, o.consumed);
  }

  // ------------------------------------------------------------------ the loop, in place

  /** The bytes a turn stores at the output pointer: none when it fails. */
  function StepOutput(st: OldStep): seq<Byte>
  {
    if st.Stepped? then st.bytes else []
  }

  /** The widening half of kernel_iconv's loop body, into `wbuf`. */
  method KernelWidenChar(p: Platform, codepage: int, str: seq<Byte>, len: int, wbuf: array<Unit16>)
    returns (ok: bool, wsize: nat)
    requires wbuf.Length == 16 && 1 <= len <= |str| && len == CpMblen(p, codepage, str)
    modifies wbuf
    ensures var w := KernelWiden(p, codepage, str, len, old(wbuf[..]));
      (ok <==> w.Some?) && (ok ==> w.value == Wide(wbuf[..], wsize))
  {
    if codepage == 1200 || codepage == 1201 {
      ok := Utf16ToWchar(str, wbuf, codepage);
      if !ok {
        return false, 0;
      }
      wsize := len / 2;
    } else {
      var units := MultiByteToWideChar(p, codepage, str[..len], 16);
      if units == [] {
        return false, 0;
      }
      CopyInto(wbuf, 0, units);
      ok, wsize := true, |units|;
    }
  }

  /** The narrowing half, from `wbuf[..wsize]` into `buf`; `n` is `outsize`. */
  method KernelNarrowChar(p: Platform, codepage: int, wbuf: array<Unit16>, wsize: nat, buf: array<Byte>)
    returns (ok: bool, n: nat)
    requires wbuf.Length == 16 && 1 <= wsize <= 16 && buf.Length == 32
    modifies buf
    ensures var r := KernelNarrow(p, codepage, Wide(wbuf[..], wsize), old(buf[..]));
      (ok <==> r.Some?) && (ok ==> r.value == Narrow(buf[..], n))
  {
    if codepage == 1200 || codepage == 1201 {
      WcharToUtf16AsWritten(wbuf, buf, codepage);
      return true, wsize * 2;
    }
    var call := WideCharToMultiByte(p, codepage, wbuf[..wsize], 32, !(codepage == 65000 || codepage == 65001));
    if call.ret == 0 || call.usedDefault {
      return false, 0;
    }
    CopyInto(buf, 0, call.written);
    return true, call.ret;
  }

  /**
   * The body of kernel_iconv's loop on the stack buffers `wbuf` and `buf`,
   * storing the character at `out[pos..]` only once every check has passed.
   */
  method KernelChar(p: Platform, from: Side, to: Side, str: seq<Byte>,
                    wbuf: array<Unit16>, buf: array<Byte>, out: array<Byte>, pos: nat, room: nat)
    returns (outsize: Status, insize: nat)
    requires |str| >= 1 && wbuf.Length == 16 && buf.Length == 32 && buf != out && pos + room <= out.Length
    modifies wbuf, buf, out
    ensures var st := KernelStep(p, from, to, str, room, Scratch(old(wbuf[..]), old(buf[..])));
      && (outsize.Ok? <==> st.Stepped?)
      && (st.Stepped? ==> outsize == Ok(|st.bytes|) && insize == st.insize && st.scratch == Scratch(wbuf[..], buf[..]))
      && (st.Failed? ==> outsize == Err(st.e))
      && out[..] == Overwrite(old(out[..]), pos, StepOutput(st))
  {
    var len := CpMblen(p, from.codepage, str);
    if len == -1 {
      return Err(EILSEQ), 0;
    }
    if |str| < len {
      return Err(EINVAL), 0;
    }
    insize := len;
    var ok, wsize := KernelWidenChar(p, from.codepage, str, len, wbuf);
    if !ok {
      return Err(EILSEQ), 0;
    }
    var n: nat;
    ok, n := KernelNarrowChar(p, to.codepage, wbuf, wsize, buf);
    if !ok {
      return Err(EILSEQ), 0;
    }
    if room < n {
      return Err(E2BIG), 0;
    }
    CopyInto(out, pos, buf[..n]);
    outsize := Ok(n);
  }

  /** The body of mlang_iconv's loop, with the sides' new modes. */
  method MlangChar(p: Platform, from: Side, to: Side, str: seq<Byte>,
                   wbuf: array<Unit16>, buf: array<Byte>, out: array<Byte>, pos: nat, room: nat)
    returns (outsize: Status, insize: nat, from': Side, to': Side)
    requires |str| >= 1 && wbuf.Length == 16 && buf.Length == 32 && buf != out && pos + room <= out.Length
    modifies wbuf, buf, out
    ensures var st := MlangStep(p, from, to, str, room, Scratch(old(wbuf[..]), old(buf[..])));
      && (outsize.Ok? <==> st.Stepped?)
      && from' == st.from && to' == st.to
      && (st.Stepped? ==> outsize == Ok(|st.bytes|) && insize == st.insize && st.scratch == Scratch(wbuf[..], buf[..]))
      && (st.Failed? ==> outsize == Err(st.e))
      && out[..] == Overwrite(old(out[..]), pos, StepOutput(st))
  {
    from', to' := from, to;
    var len := CpMblen(p, from.codepage, str);
    if len == -1 {
      return Err(EILSEQ), 0, from', to';
    }
    if |str| < len {
      return Err(EINVAL), 0, from', to';
    }
    insize := len;
    var wide := ConvertINetMultiByteToUnicode(p, from.mode, from.codepage, str[..insize], 16);
    from' := from.(mode := wide.mode);
    if !wide.ok || wide.consumed != len {
      return Err(EILSEQ), 0, from', to';
    }
    CopyInto(wbuf, 0, wide.output);
    OverwriteHead(old(wbuf[..]), wide.output);
    var narrow := ConvertINetUnicodeToMultiByte(p, to.mode, to.codepage, wbuf[..|wide.output|], 32);
    assert wbuf[..|wide.output|] == wide.output;
    to' := to.(mode := narrow.mode);
    if !narrow.ok || narrow.consumed != |wide.output| {
      return Err(EILSEQ), 0, from', to';
    }
    if room < |narrow.output| {
      return Err(E2BIG), 0, from', to';
    }
    CopyInto(buf, 0, narrow.output);
    OverwriteHead(old(buf[..]), narrow.output);
    assert buf[..|narrow.output|] == narrow.output;
    CopyInto(out, pos, buf[..|narrow.output|]);
    outsize := Ok(|narrow.output|);
  }

  /**
   * One turn of either loop: `written` bytes are stored at `out[outPos..]`
   * and the character at the head of `rest` goes right after them.
   */
  method Advance(p: Platform, engine: Engine, from: Side, to: Side, rest: seq<Byte>,
                 wbuf: array<Unit16>, buf: array<Byte>, out: array<Byte>, pos: nat, room: nat,
                 ghost initial: seq<Byte>, ghost outPos: nat, ghost written: seq<Byte>)
    returns (outsize: Status, insize: nat, from': Side, to': Side, ghost bytes: seq<Byte>)
    requires |rest| >= 1 && wbuf.Length == 16 && buf.Length == 32 && buf != out
    requires pos == outPos + |written| && pos + room <= out.Length == |initial|
    requires out[..] == Overwrite(initial, outPos, written)
    modifies wbuf, buf, out
    ensures |bytes| <= room && out[..] == Overwrite(initial, outPos, written + bytes)
    ensures outsize.Ok? ==>
      && outsize.n == |bytes| && 1 <= insize <= |rest|
      && Run(p, engine, from, to, rest, room, Scratch(old(wbuf[..]), old(buf[..]))) ==
           Resumed(insize, bytes, Run(p, engine, from', to', rest[insize..], room - outsize.n, Scratch(wbuf[..], buf[..])))
    ensures outsize.Err? ==>
      Run(p, engine, from, to, rest, room, Scratch(old(wbuf[..]), old(buf[..]))) ==
        OldOutcome(0, [], Some(outsize.e), from', to') && bytes == []
  {
    ghost var sc := Scratch(wbuf[..], buf[..]);
    ghost var st := Step(p, engine, from, to, rest, room, sc);
    ghost var before := out[..];
    if engine == KernelEngine {
      outsize, insize := KernelChar(p, from, to, rest, wbuf, buf, out, pos, room);
      from', to' := from, to;
    } else {
      outsize, insize, from', to' := MlangChar(p, from, to, rest, wbuf, buf, out, pos, room);
    }
    bytes := StepOutput(st);
    OverwriteStep(initial, before, out[..], outPos, written, bytes);
    RunUnfold(p, engine, from, to, rest, room, sc);
  }

  // ------------------------------------------------------------------ the descriptor

  /** rec_iconv_t of this revision: the two sides and the loop iconv_open chose. */
  class OldIconv {
    var from: Side
    var to: Side
    const engine: Engine

    constructor (from: Side, to: Side, engine: Engine)
      ensures this.from == from && this.to == to && this.engine == engine
    {
      this.from := from;
      this.to := to;
      this.engine := engine;
    }

    /**
     * iconv: the loop iconv_open chose, on `input` (the `*inbytesleft`
     * bytes at `*inbuf`) into `out[outPos..outPos + outLeft]`.  `stale` is
     * the initial content of the two stack buffers.  A NULL input returns 0
     * and changes nothing; otherwise the cursors move by exactly what the
     * completed turns consumed and produced, and a failing turn stores
     * nothing.
     */
    method Convert(p: Platform, inbufNull: bool, input: seq<Byte>, out: array<Byte>, outPos: nat, outLeft: nat,
                   stale: Scratch)
      returns (ret: int, err: Option<Errno>, consumed: nat, produced: nat)
      requires Sized(stale) && outPos + outLeft <= out.Length
      modifies this, out
      ensures inbufNull ==>
        ret == 0 && err == None && consumed == 0 && produced == 0 &&
        out[..] == old(out[..]) && from == old(from) && to == old(to)
      ensures !inbufNull ==> var r := Run(p, engine, old(from), old(to), input, outLeft, stale);
        && consumed == r.consumed && produced == |r.produced| && err == r.err
        && from == r.from && to == r.to
        && out[..] == Overwrite(old(out[..]), outPos, r.produced)
      ensures ret == (if err == None then 0 else -1)
    {
      if inbufNull {
        return 0, None, 0, 0;
      }
      var wbuf := new Unit16[16](i => if 0 <= i < |stale.wbuf| then stale.wbuf[i] else 0);
      var buf := new Byte[32](i => if 0 <= i < |stale.buf| then stale.buf[i] else 0);
      assert Scratch(wbuf[..], buf[..]) == stale;
      var f, t := from, to;
      ghost var whole := Run(p, engine, from, to, input, outLeft, stale);
      var rest := input;
      var inLeft: nat, outLeftAfter: nat := |input|, outLeft;
      consumed, produced := 0, 0;
      ghost var written: seq<Byte> := [];
      while inLeft != 0
        invariant consumed + inLeft == |input| && produced + outLeftAfter == outLeft && |rest| == inLeft
        invariant |written| == produced
        invariant out[..] == Overwrite(old(out[..]), outPos, written)
        invariant whole == Resumed(consumed, written, Run(p, engine, f, t, rest, outLeftAfter, Scratch(wbuf[..], buf[..])))
      {
        ghost var sc := Scratch(wbuf[..], buf[..]);
        var outsize, insize, f', t', bytes := Advance(p, engine, f, t, rest, wbuf, buf, out, outPos + produced, outLeftAfter,
                                                     old(out[..]), outPos, written);
        if outsize.Err? {
          assert written + [] == written;
          from, to := f', t';
          return -1, Some(outsize.e), consumed, produced;
        }
        ResumedTwice(consumed, written, insize, bytes,
                     Run(p, engine, f', t', rest[insize..], outLeftAfter - outsize.n, Scratch(wbuf[..], buf[..])));
        f, t := f', t';
        written := written + bytes;
        rest, consumed, inLeft := rest[insize..], consumed + insize, inLeft - insize;
        produced, outLeftAfter := produced + outsize.n, outLeftAfter - outsize.n;
      }
      assert written + [] == written;
      from, to := f, t;
      return 0, None, consumed, produced;
    }
  }

  /**
   * iconv_open of this revision.  `mlangLoaded` says whether MLang was
   * already loaded by an earlier call; `loaded` is that state afterwards.
   * A pair that is not entirely kernel code pages needs MLang, and fails
   * with EINVAL when it cannot be loaded; the loop is kernel_iconv exactly
   * when both code pages are kernel ones.
   */
  method OldIconvOpen(p: Platform, tocode: string, fromcode: string, mlangLoaded: bool)
    returns (cd: OldIconv?, err: Option<Errno>, loaded: bool)
    ensures var f, t := Side(0, OldCodepageOfName(p, fromcode)), Side(0, OldCodepageOfName(p, tocode));
      var kernel := IsKernelCodepage(p, f.codepage) && IsKernelCodepage(p, t.codepage);
      var named := f.codepage != -1 && t.codepage != -1;
      && (cd == null <==> !named || (!kernel && !mlangLoaded && !p.mlangLoads))
      && (cd == null ==> err == Some(EINVAL))
      && (cd != null ==> fresh(cd) && cd.from == f && cd.to == t && err == None &&
                         cd.engine == (if kernel then KernelEngine else MlangEngine))
      && loaded == (mlangLoaded || (named && !kernel && p.mlangLoads))
  {
    loaded := mlangLoaded;
    var from := Side(0, OldCodepageOfName(p, fromcode));
    var to := Side(0, OldCodepageOfName(p, tocode));
    if from.codepage == -1 || to.codepage == -1 {
      return null, Some(EINVAL), loaded;
    }
    if !loaded && (!IsKernelCodepage(p, from.codepage) || !IsKernelCodepage(p, to.codepage)) {
      if !p.mlangLoads {
        return null, Some(EINVAL), loaded;
      }
      loaded := true;
    }
    if IsKernelCodepage(p, from.codepage) && IsKernelCodepage(p, to.codepage) {
      cd := new OldIconv(from, to, KernelEngine);
    } else {
      cd := new OldIconv(from, to, MlangEngine);
    }
    err := None;
  }
}
