// The length probers of the trunk win_iconv (trunk/win_iconv/win_iconv.c,
// sbcs_mblen, dbcs_mblen, utf8_mblen, eucjp_mblen): from the first bytes of
// the input they tell how long the next character is, or fail with EINVAL
// (the input stops inside the character) or EILSEQ (no character starts
// here).  `buf` is the unread input, so `|buf|` is the `bufsize` argument.
module Mblen {
  import opened CLib
  import opened Win32

  /** sbcs_mblen: every character of a single-byte code page is one byte. */
  function SbcsMblen(buf: seq<Byte>): (r: Status)
    ensures r == Ok(1)
  {
    Ok(1)
  }

  /**
   * dbcs_mblen: two bytes after a lead byte of the code page, one otherwise;
   * EINVAL when the input ends after a lead byte.
   */
  function DbcsMblen(p: Platform, codepage: int, buf: seq<Byte>): (r: Status)
    requires |buf| >= 1
    ensures r.Ok? <==> (!p.isLeadByte(codepage, buf[0]) || |buf| >= 2)
    ensures r.Ok? ==> r.n == (if p.isLeadByte(codepage, buf[0]) then 2 else 1) && 1 <= r.n <= |buf|
    ensures r.Err? ==> r.e == EINVAL
  {
    var len := if p.isLeadByte(codepage, buf[0]) then 2 else 1;
    if |buf| < len then Err(EINVAL) else Ok(len)
  }

  // ------------------------------------------------------------------ UTF-8

  /**
   * The sequence length a UTF-8 lead byte announces, read off the byte's value
   * range: 1 to 4 as in the table of section 3 of RFC 3629, 5 and 6 for the
   * longer forms of the original definition, 0 for a continuation byte or
   * 0xFE/0xFF.
   */
  function Utf8LeadLength(b: Byte): nat
  {
    if b < 0x80 then 1
    else if b < 0xC0 then 0
    else if b < 0xE0 then 2
    else if b < 0xF0 then 3
    else if b < 0xF8 then 4
    else if b < 0xFC then 5
    else if b < 0xFE then 6
    else 0
  }

  /** `(b & mask) == value` on an unsigned char. */
  predicate MaskIs(b: Byte, mask: bv8, value: bv8)
  {
    (b as bv8) & mask == value
  }

  /**
   * utf8_mblen: the lead byte is classified by the bit masks
   * 0xE0/0xC0, 0xF0/0xE0, 0xF8/0xF0, 0xFC/0xF8 and 0xFE/0xFC in turn.  The
   * contract states the same classification by value ranges.
   */
  function Utf8Mblen(buf: seq<Byte>): (r: Status)
    requires |buf| >= 1
    ensures r == Err(EILSEQ) <==> Utf8LeadLength(buf[0]) == 0
    ensures r == Err(EINVAL) <==> Utf8LeadLength(buf[0]) > |buf|
    ensures r.Ok? <==> 1 <= Utf8LeadLength(buf[0]) <= |buf|
    ensures r.Ok? ==> r.n == Utf8LeadLength(buf[0])
  {
    var b := buf[0];
    var len :=
      if b < 0x80 then 1
      else if MaskIs(b, 0xE0, 0xC0) then 2
      else if MaskIs(b, 0xF0, 0xE0) then 3
      else if MaskIs(b, 0xF8, 0xF0) then 4
      else if MaskIs(b, 0xFC, 0xF8) then 5
      else if MaskIs(b, 0xFE, 0xFC) then 6
      else 0;
    MaskClassification(b);
    if len == 0 then Err(EILSEQ)
    else if |buf| < len then Err(EINVAL)
    else Ok(len)
  }

  /** The mask tests of utf8_mblen pick out the value ranges of `Utf8LeadLength`. */
  lemma {:induction false} MaskClassification(b: Byte)
    ensures b >= 0x80 ==> (MaskIs(b, 0xE0, 0xC0) <==> 0xC0 <= b < 0xE0)
    ensures b >= 0x80 ==> (MaskIs(b, 0xF0, 0xE0) <==> 0xE0 <= b < 0xF0)
    ensures b >= 0x80 ==> (MaskIs(b, 0xF8, 0xF0) <==> 0xF0 <= b < 0xF8)
    ensures b >= 0x80 ==> (MaskIs(b, 0xFC, 0xF8) <==> 0xF8 <= b < 0xFC)
    ensures b >= 0x80 ==> (MaskIs(b, 0xFE, 0xFC) <==> 0xFC <= b < 0xFE)
  {
    var v := b as bv8;
    assert v & 0xE0 == 0xC0 <==> 0xC0 <= v < 0xE0;
    assert v & 0xF0 == 0xE0 <==> 0xE0 <= v < 0xF0;
    assert v & 0xF8 == 0xF0 <==> 0xF0 <= v < 0xF8;
    assert v & 0xFC == 0xF8 <==> 0xF8 <= v < 0xFC;
    assert v & 0xFE == 0xFC <==> 0xFC <= v < 0xFE;
  }

  /**
   * Section 3 of RFC 3629: the lead bytes of well-formed UTF-8 (00-7F, C2-DF,
   * E0-EF, F0-F4) announce 1, 2, 3 and 4 bytes, and continuation bytes
   * (80-BF) are never accepted as a lead.
   */
  lemma {:induction false} Utf8MblenAgreesWithRfc3629(buf: seq<Byte>)
    requires |buf| >= 4
    ensures buf[0] <= 0x7F ==> Utf8Mblen(buf) == Ok(1)
    ensures 0xC2 <= buf[0] <= 0xDF ==> Utf8Mblen(buf) == Ok(2)
    ensures 0xE0 <= buf[0] <= 0xEF ==> Utf8Mblen(buf) == Ok(3)
    ensures 0xF0 <= buf[0] <= 0xF4 ==> Utf8Mblen(buf) == Ok(4)
    ensures 0x80 <= buf[0] <= 0xBF ==> Utf8Mblen(buf) == Err(EILSEQ)
  {
  }

  /** A lone E3 starts a three-byte character that the input does not finish. */
  lemma LoneE3IsIncomplete()
    ensures Utf8Mblen([0xE3]) == Err(EINVAL)
    ensures Utf8Mblen([0xE3, 0x81, 0x82]) == Ok(3)
  {
  }

  // ------------------------------------------------------------------ EUC-JP

  predicate InA1FE(b: Byte) { 0xA1 <= b <= 0xFE }

  /**
   * eucjp_mblen: ASCII is one byte; SS2 (0x8E) introduces a JIS X 0201 kana
   * byte in A1-DF; SS3 (0x8F) introduces two JIS X 0212 bytes in A1-FE; any
   * other lead is the first of two JIS X 0208 bytes, both in A1-FE.
   */
  function EucJpMblen(buf: seq<Byte>): (r: Status)
    requires |buf| >= 1
    ensures buf[0] < 0x80 ==> r == Ok(1)
    ensures buf[0] == 0x8E ==>
      r == (if |buf| < 2 then Err(EINVAL) else if 0xA1 <= buf[1] <= 0xDF then Ok(2) else Err(EILSEQ))
    ensures buf[0] == 0x8F ==>
      r == (if |buf| < 3 then Err(EINVAL) else if InA1FE(buf[1]) && InA1FE(buf[2]) then Ok(3) else Err(EILSEQ))
    ensures buf[0] >= 0x80 && buf[0] != 0x8E && buf[0] != 0x8F ==>
      r == (if |buf| < 2 then Err(EINVAL) else if InA1FE(buf[0]) && InA1FE(buf[1]) then Ok(2) else Err(EILSEQ))
    ensures r.Ok? ==> 1 <= r.n <= |buf|
  {
    var b := buf[0];
    if b < 0x80 then Ok(1)
    else if b == 0x8E then
      if |buf| < 2 then Err(EINVAL)
      else if !(0xA1 <= buf[1] <= 0xDF) then Err(EILSEQ)
      else Ok(2)
    else if b == 0x8F then
      if |buf| < 3 then Err(EINVAL)
      else if !InA1FE(buf[1]) || !InA1FE(buf[2]) then Err(EILSEQ)
      else Ok(3)
    else
      if |buf| < 2 then Err(EINVAL)
      else if !InA1FE(buf[0]) || !InA1FE(buf[1]) then Err(EILSEQ)
      else Ok(2)
  }

  /**
   * The EUC-JP expectations of the test driver: after the character A4 A2,
   * a lone A4 is incomplete and FF FF is invalid.
   */
  lemma EucJpTestExpectations()
    ensures EucJpMblen([0xA4, 0xA2]) == Ok(2)
    ensures EucJpMblen([0xA4]) == Err(EINVAL)
    ensures EucJpMblen([0xFF, 0xFF]) == Err(EILSEQ)
  {
  }

  // ------------------------------------------------------------------ the slot

  /** The `mblen` slot of a `csconv_t`. */
  datatype Prober = NoProber | SbcsProber | DbcsProber | Utf8Prober | EucJpProber

  /** Calling `cv->mblen(cv, buf, bufsize)` through the slot. */
  function ProbeLength(p: Platform, prober: Prober, codepage: int, buf: seq<Byte>): (r: Status)
    requires prober != NoProber && |buf| >= 1
    ensures r.Ok? ==> 1 <= r.n <= |buf|
    ensures r.Err? ==> r.e != E2BIG
  {
    match prober
    case SbcsProber => SbcsMblen(buf)
    case DbcsProber => DbcsMblen(p, codepage, buf)
    case Utf8Prober => Utf8Mblen(buf)
    case EucJpProber => EucJpMblen(buf)
  }

  /**
   * A prober's answer depends only on the bytes of the character: more input
   * after a complete character does not change it.
   */
  lemma {:induction false} ProbeLengthPrefix(p: Platform, prober: Prober, codepage: int, buf: seq<Byte>, more: seq<Byte>)
    requires prober != NoProber && |buf| >= 1
    requires ProbeLength(p, prober, codepage, buf).Ok?
    ensures ProbeLength(p, prober, codepage, buf + more) == ProbeLength(p, prober, codepage, buf)
  {
    assert (buf + more)[0] == buf[0];
    if |buf| >= 2 { assert (buf + more)[1] == buf[1]; }
    if |buf| >= 3 { assert (buf + more)[2] == buf[2]; }
  }
}
