// The trunk win_iconv (trunk/win_iconv/win_iconv.c): name resolution,
// the per-side converter descriptor `csconv_t`, `iconv_open`, and the
// conversion loop `win_iconv` that converts one character per step through
// a small wide-character buffer.
module WinIconv {
  import opened CLib
  import opened Win32
  import opened Aliases
  import opened Mblen
  import opened Utf16

  /** MB_CHAR_MAX: the capacity of the wide-character buffer and of mlang_wctomb's byte buffer. */
  const MbCharMax: nat := 16

  // ------------------------------------------------------------------ names

  predicate HasCpPrefix(name: string)
  {
    (CharAt(name, 0) == 'c' || CharAt(name, 0) == 'C') && (CharAt(name, 1) == 'p' || CharAt(name, 1) == 'P')
  }

  /**
   * name_to_codepage as written: a `cp`/`CP` prefix makes the rest a number,
   * a leading digit makes the whole name one, and only other names are looked
   * up in `codepage_alias`.
   */
  function CodepageOfName(name: string): (c: int)
    ensures !HasCpPrefix(name) && !IsDigit(CharAt(name, 0)) ==> (c == -1 <==> Lookup(Trunk, name).None?)
  {
    TrunkLookupPositive(name);
    if HasCpPrefix(name) then Atoi(name[2..])
    else if IsDigit(CharAt(name, 0)) then Atoi(name)
    else match Lookup(Trunk, name)
      case Some(c) => c
      case None => -1
  }

  /** name_to_codepage, scanning the table in a loop up to its terminator. */
  method NameToCodepage(name: string) returns (codepage: int)
    ensures codepage == CodepageOfName(name)
  {
    if (CharAt(name, 0) == 'c' || CharAt(name, 0) == 'C') && (CharAt(name, 1) == 'p' || CharAt(name, 1) == 'P') {
      return Atoi(name[2..]);
    } else if '0' <= CharAt(name, 0) <= '9' {
      return Atoi(name);
    }
    var i := 0;
    while i < AliasCount
      invariant 0 <= i <= AliasCount
      invariant Lookup(Trunk, name) == LookupFrom(Trunk, name, i)
    {
      if EqualsIgnoreCase(name, TrunkAliasAt(i).name) {
        return TrunkAliasAt(i).codepage;
      }
      i := i + 1;
    }
    return -1;
  }

  /** The three resolution rules and the unknown-name case. */
  lemma {:induction false} CodepageOfNameRules(name: string, c: int)
    ensures HasCpPrefix(name) ==> CodepageOfName(name) == Atoi(name[2..])
    ensures !HasCpPrefix(name) && IsDigit(CharAt(name, 0)) ==> CodepageOfName(name) == Atoi(name)
    ensures !HasCpPrefix(name) && !IsDigit(CharAt(name, 0)) ==>
      (CodepageOfName(name) == -1 <==> NoMatchBetween(Trunk, name, 0, AliasCount))
    ensures !HasCpPrefix(name) && !IsDigit(CharAt(name, 0)) && c != -1 ==>
      (CodepageOfName(name) == c <==>
        exists k :: 0 <= k < AliasCount && Matches(Trunk, name, k) && TrunkAliasAt(k).codepage == c &&
          NoMatchBetween(Trunk, name, 0, k))
  {
    LookupNone(Trunk, name);
    LookupFirstMatch(Trunk, name, c);
    if Lookup(Trunk, name).Some? {
      var k := FirstMatchIndex(Trunk, name, 0);
      assert TrunkAliasAt(k).codepage != -1 by { TrunkCodepagesPositive(k); }
    }
  }

  /** A table answer is a positive page, so -1 can only mean an unknown name. */
  lemma {:induction false} TrunkLookupPositive(name: string)
    ensures Lookup(Trunk, name).Some? ==> Lookup(Trunk, name).value > 0
  {
    if Lookup(Trunk, name).Some? {
      var k := FirstMatchIndex(Trunk, name, 0);
      TrunkCodepagesPositive(k);
    }
  }

  /** No trunk table entry carries -1, so -1 always means "unknown". */
  lemma {:induction false} TrunkCodepagesPositive(k: nat)
    requires k < AliasCount
    ensures TrunkAliasAt(k).codepage > 0
  {
    if k < 16 {
      TrunkPart0Positive();
    } else if k < 32 {
      TrunkPart1Positive();
    } else if k < 48 {
      TrunkPart2Positive();
    } else if k < 64 {
      TrunkPart3Positive();
    } else if k < 80 {
      TrunkPart4Positive();
    } else if k < 96 {
      TrunkPart5Positive();
    } else if k < 112 {
      TrunkPart6Positive();
    } else if k < 128 {
      TrunkPart7Positive();
    } else if k < 144 {
      TrunkPart8Positive();
    } else {
      TrunkPart9Positive();
    }
  }

  /** A `cp` prefix followed by the decimal digits of `n` resolves to `n`. */
  lemma {:induction false} CpNumber(name: string, n: nat)
    requires HasCpPrefix(name) && name[2..] == NatString(n)
    ensures CodepageOfName(name) == n
  {
    AtoiDecimal(n, []);
    assert DecimalString(n) + [] == name[2..];
  }

  /** A name made of the decimal digits of `n` resolves to `n`. */
  lemma {:induction false} DigitsNumber(name: string, n: nat)
    requires name == NatString(n) && !HasCpPrefix(name)
    ensures CodepageOfName(name) == n
  {
    AtoiDecimal(n, []);
    assert DecimalString(n) + [] == name;
  }

  /** `cp932` takes the `cp` rule. */
  lemma Cp932Name()
    ensures CodepageOfName("cp932") == 932
  {
    assert NatString(9) == "9" && NatString(93) == "93" && NatString(932) == "932";
    CpNumber("cp932", 932);
  }

  /** `CP65001` takes the `cp` rule. */
  lemma Cp65001Name()
    ensures CodepageOfName("CP65001") == 65001
  {
    assert NatString(6) == "6" && NatString(65) == "65" && NatString(650) == "650";
    assert NatString(6500) == "6500" && NatString(65001) == "65001";
    CpNumber("CP65001", 65001);
  }

  /** `20127` takes the leading-digit rule. */
  lemma NumericName()
    ensures CodepageOfName("20127") == 20127
  {
    assert NatString(2) == "2" && NatString(20) == "20" && NatString(201) == "201";
    assert NatString(2012) == "2012" && NatString(20127) == "20127";
    DigitsNumber("20127", 20127);
  }

  /** `UTF16` and `EUC-JP` are looked up in the table. */
  lemma TableNames()
    ensures CodepageOfName("UTF16") == 1201
    ensures CodepageOfName("EUC-JP") == 51932
  {
    TrunkUtf16IsBigEndian();
    EucJpAlias();
  }

  /**
   * The `cp` rule runs before the table, so a listed name that starts with
   * `cp` never reaches its entry: `CP367`, listed as US-ASCII (20127), resolves
   * to 367, a code page the table's own comment calls invalid.
   */
  lemma CpPrefixShadowsTable()
    ensures Lookup(Trunk, "CP367") == Some(20127)
    ensures CodepageOfName("CP367") == 367
  {
    Cp367Listed(Trunk);
    assert NatString(3) == "3" && NatString(36) == "36" && NatString(367) == "367";
    CpNumber("CP367", 367);
  }

  /**
   * name_to_codepage as evidently intended: a name the table lists resolves
   * to its entry; the numeric forms apply to the other names.
   */
  function ResolveCodepage(name: string): (c: int)
    ensures Lookup(Trunk, name).Some? ==> c == Lookup(Trunk, name).value
    ensures Lookup(Trunk, name).None? ==> c == CodepageOfName(name)
  {
    match Lookup(Trunk, name)
    case Some(c) => c
    case None => CodepageOfName(name)
  }

  /** With the table consulted first, every listed alias reaches its own entry. */
  lemma {:induction false} ListedAliasesReachable(k: nat)
    requires k < AliasCount
    ensures Lookup(Trunk, TrunkAliasAt(k).name).Some?
    ensures ResolveCodepage(TrunkAliasAt(k).name) == Lookup(Trunk, TrunkAliasAt(k).name).value
    ensures ResolveCodepage(TrunkAliasAt(k).name) != -1
  {
    ListedNameResolves(Trunk, k);
    var f := FirstMatchIndex(Trunk, TrunkAliasAt(k).name, 0);
    TrunkCodepagesPositive(f);
  }

  lemma ResolveCp367()
    ensures ResolveCodepage("CP367") == 20127
  {
    Cp367Listed(Trunk);
  }

  // ------------------------------------------------------------------ csconv_t

  /** The pair of `mbtowc`/`wctomb` slots of a `csconv_t`. */
  datatype Codec = Unassigned | Utf16LeCodec | Utf16BeCodec | KernelCodec | MlangCodec

  /**
   * csconv_t: the code page, the converter slots, whether a `flush` function
   * is present, and the MLang conversion mode.
   */
  datatype CsConv = CsConv(codepage: int, codec: Codec, prober: Prober, hasFlush: bool, mode: int)

  /** The slots are filled in as make_csconv fills them for a supported page. */
  predicate Wired(cv: CsConv)
  {
    cv.codec != Unassigned && (cv.codec == KernelCodec || cv.codec == MlangCodec ==> cv.prober != NoProber)
  }

  /** The pages make_csconv accepts. */
  predicate Supported(p: Platform, codepage: int)
  {
    codepage == 1200 || codepage == 1201 || codepage == 65001 || (codepage == 51932 && p.mlangLoads) ||
    (p.isValidCodePage(codepage) && HasCPInfo(p, codepage) &&
     (p.maxCharSize(codepage) == 1 || p.maxCharSize(codepage) == 2))
  }

  /** make_csconv once the name is resolved to `codepage`. */
  function CsConvFor(p: Platform, codepage: int): (cv: CsConv)
    ensures cv.mode == 0 && !cv.hasFlush
    ensures cv.codepage == (if Supported(p, codepage) then codepage else -1)
    ensures Supported(p, codepage) ==> Wired(cv)
    ensures cv.codec == Utf16LeCodec <==> codepage == 1200
    ensures cv.codec == Utf16BeCodec <==> codepage == 1201
    ensures cv.codec == MlangCodec <==> (codepage == 51932 && p.mlangLoads)
    ensures cv.prober == Utf8Prober <==> codepage == 65001
  {
    if codepage == 1200 then CsConv(codepage, Utf16LeCodec, NoProber, false, 0)
    else if codepage == 1201 then CsConv(codepage, Utf16BeCodec, NoProber, false, 0)
    else if codepage == 65001 then CsConv(codepage, KernelCodec, Utf8Prober, false, 0)
    else if codepage == 51932 && p.mlangLoads then CsConv(codepage, MlangCodec, EucJpProber, false, 0)
    else if p.isValidCodePage(codepage) && HasCPInfo(p, codepage) &&
            (p.maxCharSize(codepage) == 1 || p.maxCharSize(codepage) == 2) then
      CsConv(codepage, KernelCodec, if p.maxCharSize(codepage) == 1 then SbcsProber else DbcsProber, false, 0)
    else CsConv(-1, Unassigned, NoProber, false, 0)
  }

  /**
   * make_csconv: the name resolved by name_to_codepage as written, then the
   * slots of that page, or -1 for a page it does not support.
   */
  function MakeCsConv(p: Platform, name: string): (cv: CsConv)
    ensures cv.mode == 0 && !cv.hasFlush
    ensures cv.codepage != -1 ==> Wired(cv) && cv.codepage == CodepageOfName(name)
    ensures HasCpPrefix(name) && Supported(p, Atoi(name[2..])) ==> cv.codepage == Atoi(name[2..])
    ensures !HasCpPrefix(name) && !IsDigit(CharAt(name, 0)) && Lookup(Trunk, name).None? ==> cv.codepage == -1
  {
    CsConvFor(p, CodepageOfName(name))
  }

  /**
   * Through the `cp` rule, iconv_open never opens `CP367` as US-ASCII: it
   * asks for page 367, which a platform without that page refuses, while
   * the corrected resolution would open 20127.
   */
  lemma ShadowedAliasRefused(p: Platform)
    requires !p.isValidCodePage(367) && Supported(p, 20127)
    ensures MakeCsConv(p, "CP367").codepage == -1
    ensures CsConvFor(p, ResolveCodepage("CP367")).codepage == 20127
  {
    CpPrefixShadowsTable();
    ResolveCp367();
  }

  /** A page that is not 1200, 1201, 65001, 51932 with MLang, or a valid SBCS/DBCS page is refused. */
  lemma {:induction false} UnsupportedIsMinusOne(p: Platform, codepage: int)
    requires codepage != 1200 && codepage != 1201 && codepage != 65001
    requires !(codepage == 51932 && p.mlangLoads)
    requires !p.isValidCodePage(codepage) || !(p.maxCharSize(codepage) == 1 || p.maxCharSize(codepage) == 2)
    ensures CsConvFor(p, codepage).codepage == -1
  {
  }

  // ------------------------------------------------------------------ one character

  /** What a `mbtowc` slot did: its outcome and the converter's mode afterwards. */
  datatype MbStep = MbStep(r: DecodeResult, mode: int)

  /**
   * kernel_mbtowc: the prober sizes the character, then MultiByteToWideChar
   * converts exactly those bytes into at most MB_CHAR_MAX units; a 0 return
   * is EILSEQ.
   */
  function KernelMbtowc(p: Platform, cv: CsConv, buf: seq<Byte>): (r: DecodeResult)
    requires cv.prober != NoProber && |buf| >= 1
    ensures r.Decode? <==> (ProbeLength(p, cv.prober, cv.codepage, buf).Ok? &&
      MultiByteToWideChar(p, cv.codepage, buf[..ProbeLength(p, cv.prober, cv.codepage, buf).n], MbCharMax) != [])
    ensures r.Decode? ==> r.d.insize == ProbeLength(p, cv.prober, cv.codepage, buf).n
    ensures r.Decode? ==> r.d.units == p.toWide(cv.codepage, buf[..r.d.insize]) && 1 <= |r.d.units| <= MbCharMax
    ensures r.DecodeError? && ProbeLength(p, cv.prober, cv.codepage, buf).Ok? ==> r.e == EILSEQ
    ensures r.DecodeError? && ProbeLength(p, cv.prober, cv.codepage, buf).Err? ==>
      r.e == ProbeLength(p, cv.prober, cv.codepage, buf).e
  {
    match ProbeLength(p, cv.prober, cv.codepage, buf)
    case Err(e) => DecodeError(e)
    case Ok(len) =>
      var units := MultiByteToWideChar(p, cv.codepage, buf[..len], MbCharMax);
      if units == [] then DecodeError(EILSEQ) else Decode(Decoded(len, units))
  }

  /**
   * mlang_mbtowc: the prober sizes the character, then
   * ConvertINetMultiByteToUnicode must report exactly those bytes consumed.
   * The mode it updates stays updated when the call fails.
   */
  function MlangMbtowc(p: Platform, cv: CsConv, buf: seq<Byte>): (r: MbStep)
    requires cv.prober != NoProber && |buf| >= 1
    ensures ProbeLength(p, cv.prober, cv.codepage, buf).Err? ==>
      r == MbStep(DecodeError(ProbeLength(p, cv.prober, cv.codepage, buf).e), cv.mode)
    ensures ProbeLength(p, cv.prober, cv.codepage, buf).Ok? ==>
      var len := ProbeLength(p, cv.prober, cv.codepage, buf).n;
      var call := ConvertINetMultiByteToUnicode(p, cv.mode, cv.codepage, buf[..len], MbCharMax);
      && r.mode == call.mode
      && (r.r.Decode? <==> call.ok && call.consumed == len)
      && (r.r.Decode? ==> r.r.d == Decoded(len, call.output) && |r.r.d.units| <= MbCharMax)
      && (r.r.DecodeError? ==> r.r.e == EILSEQ)
  {
    match ProbeLength(p, cv.prober, cv.codepage, buf)
    case Err(e) => MbStep(DecodeError(e), cv.mode)
    case Ok(len) =>
      var call := ConvertINetMultiByteToUnicode(p, cv.mode, cv.codepage, buf[..len], MbCharMax);
      if !call.ok || call.consumed != len then MbStep(DecodeError(EILSEQ), call.mode)
      else MbStep(Decode(Decoded(len, call.output)), call.mode)
  }

  /** `cv->mbtowc(cv, buf, bufsize, wbuf, &wsize)` through the slot. */
  function Mbtowc(p: Platform, cv: CsConv, buf: seq<Byte>): (r: MbStep)
    requires Wired(cv) && |buf| >= 1
    ensures r.r.Decode? ==> 1 <= r.r.d.insize <= |buf| && |r.r.d.units| <= MbCharMax
    ensures cv.codec != MlangCodec ==> r.mode == cv.mode
  {
    match cv.codec
    case Utf16LeCodec => MbStep(Utf16LeMbtowc(buf), cv.mode)
    case Utf16BeCodec => MbStep(Utf16BeMbtowc(buf), cv.mode)
    case KernelCodec => MbStep(KernelMbtowc(p, cv, buf), cv.mode)
    case MlangCodec => MlangMbtowc(p, cv, buf)
  }

  /** What a `wctomb` slot did: its outcome and the converter's mode afterwards. */
  datatype WcStep = WcStep(enc: Encoded, mode: int)

  /**
   * kernel_wctomb as written: WideCharToMultiByte converts the `wsize` units
   * into the caller's buffer.  A 0 return is E2BIG when the last error is
   * ERROR_INSUFFICIENT_BUFFER and EILSEQ otherwise; a substituted default
   * character (not asked about for 65000/65001) is EILSEQ after the bytes
   * have been stored.  With `bufsize == 0` the call is a size query.
   */
  function KernelWctombAsWritten(p: Platform, codepage: int, units: seq<Unit16>, bufsize: nat): (r: Encoded)
    ensures |r.written| <= bufsize && (bufsize == 0 ==> r.written == [])
    ensures r.ret.Ok? ==> p.fromWide(codepage, units).Converted? && r.ret.n == |p.fromWide(codepage, units).bytes| >= 1
    ensures r.ret.Ok? && bufsize > 0 ==> r.written == p.fromWide(codepage, units).bytes
    ensures r.ret.Ok? && codepage != 65000 && codepage != 65001 ==> !p.fromWide(codepage, units).usedDefault
    ensures bufsize == 0 ==> (r.ret.Ok? <==>
      (units != [] && p.fromWide(codepage, units).Converted? && p.fromWide(codepage, units).bytes != [] &&
       (codepage == 65000 || codepage == 65001 || !p.fromWide(codepage, units).usedDefault)))
    ensures r.ret.Err? ==> r.ret.e != EINVAL
  {
    var call := WideCharToMultiByte(p, codepage, units, bufsize, codepage != 65000 && codepage != 65001);
    if call.ret == 0 then Encoded(Err(if call.insufficient then E2BIG else EILSEQ), call.written)
    else if call.usedDefault then Encoded(Err(EILSEQ), call.written)
    else Encoded(Ok(call.ret), call.written)
  }

  /**
   * With no room left, kernel_wctomb asks WideCharToMultiByte in query mode
   * and reports the needed size as bytes produced although it stored none:
   * converting "A" into 1252 with `*outbytesleft == 0` gives 1 and
   * win_iconv then moves `*outbuf` past the buffer and wraps `*outbytesleft`.
   */
  lemma {:induction false} KernelWctombEmptyBuffer(p: Platform)
    requires p.fromWide(1252, [0x41]) == Converted([0x41], false)
    ensures KernelWctombAsWritten(p, 1252, [0x41], 0) == Encoded(Ok(1), [])
  {
  }

  /** kernel_wctomb as evidently intended: an empty output buffer is E2BIG. */
  function KernelWctomb(p: Platform, codepage: int, units: seq<Unit16>, bufsize: nat): (r: Encoded)
    ensures r.ret.Ok? ==> 1 <= r.ret.n == |r.written| <= bufsize
    ensures r.ret.Ok? ==> p.fromWide(codepage, units).Converted? && r.written == p.fromWide(codepage, units).bytes
    ensures r.ret.Ok? && codepage != 65000 && codepage != 65001 ==> !p.fromWide(codepage, units).usedDefault
    ensures r.ret == Err(E2BIG) <==> (units != [] && p.fromWide(codepage, units).Converted? &&
      p.fromWide(codepage, units).bytes != [] && (bufsize == 0 || |p.fromWide(codepage, units).bytes| > bufsize))
    ensures |r.written| <= bufsize
    ensures r.ret.Err? ==> r.ret.e != EINVAL
    ensures bufsize > 0 ==> r == KernelWctombAsWritten(p, codepage, units, bufsize)
  {
    if bufsize == 0 then
      if units != [] && p.fromWide(codepage, units).Converted? && p.fromWide(codepage, units).bytes != [] then
        Encoded(Err(E2BIG), [])
      else Encoded(Err(EILSEQ), [])
    else KernelWctombAsWritten(p, codepage, units, bufsize)
  }

  /**
   * mlang_wctomb: ConvertINetUnicodeToMultiByte converts into a local buffer
   * of MB_CHAR_MAX bytes and must consume all `wsize` units (else EILSEQ);
   * the bytes are copied out only when they fit (else E2BIG).
   */
  function MlangWctomb(p: Platform, cv: CsConv, units: seq<Unit16>, bufsize: nat): (r: WcStep)
    ensures r.mode == p.mlangFromUnicode(cv.mode, cv.codepage, units).mode
    ensures var call := ConvertINetUnicodeToMultiByte(p, cv.mode, cv.codepage, units, MbCharMax);
      && (r.enc.ret.Ok? <==> call.ok && call.consumed == |units| && |call.output| <= bufsize)
      && (r.enc.ret.Ok? ==> r.enc.ret.n == |r.enc.written| && r.enc.written == call.output)
      && (r.enc.ret.Err? ==> r.enc.written == [])
      && (r.enc.ret == Err(E2BIG) <==> call.ok && call.consumed == |units| && |call.output| > bufsize)
    ensures r.enc.ret.Err? ==> r.enc.ret.e != EINVAL
  {
    var call := ConvertINetUnicodeToMultiByte(p, cv.mode, cv.codepage, units, MbCharMax);
    if !call.ok || call.consumed != |units| then WcStep(Encoded(Err(EILSEQ), []), call.mode)
    else if bufsize < |call.output| then WcStep(Encoded(Err(E2BIG), []), call.mode)
    else WcStep(Encoded(Ok(|call.output|), call.output), call.mode)
  }

  /**
   * The loop's kernel encoder and kernel_wctomb as written part only when no
   * room is left: there the source reports the size query's answer as bytes
   * produced, with none stored, where the model reports E2BIG.
   */
  lemma {:induction false} WctombSpecKernelRoom(p: Platform, cv: CsConv, wbuf: seq<Unit16>, wsize: nat, bufsize: nat)
    requires Wired(cv) && |wbuf| == MbCharMax && wsize <= MbCharMax && cv.codec == KernelCodec
    ensures var asWritten := KernelWctombAsWritten(p, cv.codepage, wbuf[..wsize], bufsize);
      && (bufsize > 0 ==> WctombSpec(p, cv, wbuf, wsize, bufsize).enc == asWritten)
      && (bufsize == 0 && asWritten.ret.Ok? ==>
            asWritten.ret.n >= 1 && asWritten.written == [] &&
            WctombSpec(p, cv, wbuf, wsize, bufsize).enc == Encoded(Err(E2BIG), []))
  {
  }

  /** `cv->wctomb(cv, wbuf, wsize, buf, bufsize)` through the slot. */
  function WctombSpec(p: Platform, cv: CsConv, wbuf: seq<Unit16>, wsize: nat, bufsize: nat): (r: WcStep)
    requires Wired(cv) && |wbuf| == MbCharMax && wsize <= MbCharMax
    ensures |r.enc.written| <= bufsize
    ensures r.enc.ret.Ok? ==> r.enc.ret.n == |r.enc.written|
    ensures r.enc.ret.Err? ==> r.enc.ret.e != EINVAL
    ensures cv.codec != MlangCodec ==> r.mode == cv.mode
  {
    match cv.codec
    case Utf16LeCodec => WcStep(Utf16LeWctombSpec(wbuf, bufsize), cv.mode)
    case Utf16BeCodec => WcStep(Utf16BeWctombSpec(wbuf, bufsize), cv.mode)
    case KernelCodec => WcStep(KernelWctomb(p, cv.codepage, wbuf[..wsize], bufsize), cv.mode)
    case MlangCodec => MlangWctomb(p, cv, wbuf[..wsize], bufsize)
  }

  /** The `wctomb` slot called on the caller's output buffer. */
  method Wctomb(p: Platform, cv: CsConv, wbuf: seq<Unit16>, wsize: nat, out: array<Byte>, pos: nat, bufsize: nat)
    returns (ret: Status, mode: int)
    requires Wired(cv) && |wbuf| == MbCharMax && wsize <= MbCharMax && pos + bufsize <= out.Length
    modifies out
    ensures WcStep(Encoded(ret, WctombSpec(p, cv, wbuf, wsize, bufsize).enc.written), mode) == WctombSpec(p, cv, wbuf, wsize, bufsize)
    ensures out[..] == Overwrite(old(out[..]), pos, WctombSpec(p, cv, wbuf, wsize, bufsize).enc.written)
  {
    mode := cv.mode;
    match cv.codec {
      case Utf16LeCodec =>
        ret := Utf16LeWctomb(wbuf, out, pos, bufsize);
      case Utf16BeCodec =>
        ret := Utf16BeWctomb(wbuf, out, pos, bufsize);
      case KernelCodec =>
        var e := KernelWctomb(p, cv.codepage, wbuf[..wsize], bufsize);
        CopyInto(out, pos, e.written);
        ret := e.ret;
      case MlangCodec =>
        var w := MlangWctomb(p, cv, wbuf[..wsize], bufsize);
        CopyInto(out, pos, w.enc.written);
        ret, mode := w.enc.ret, w.mode;
    }
  }

  /**
   * One step of the loop on the unread input: decode one character into the
   * wide-character buffer, then encode it into the remaining output room.
   */
  datatype StepResult =
    | Stepped(insize: nat, bytes: seq<Byte>, from: CsConv, to: CsConv, wbuf: seq<Unit16>)
    | Failed(e: Errno, pending: seq<Byte>, from: CsConv, to: CsConv)

  /** The bytes a step stores in the output buffer, whether or not it succeeds. */
  function StepOutput(st: StepResult): seq<Byte>
  {
    if st.Stepped? then st.bytes else st.pending
  }

  function ConvStep(p: Platform, from: CsConv, to: CsConv, input: seq<Byte>, outLeft: nat, wbuf: seq<Unit16>): (r: StepResult)
    requires Wired(from) && Wired(to) && |input| >= 1 && |wbuf| == MbCharMax
    ensures r.Stepped? ==> 1 <= r.insize <= |input| && |r.bytes| <= outLeft && |r.wbuf| == MbCharMax
    ensures r.Failed? ==> |r.pending| <= outLeft
    ensures Wired(r.from) && Wired(r.to)
    ensures r.from == from.(mode := r.from.mode) && r.to == to.(mode := r.to.mode)
  {
    var m := Mbtowc(p, from, input);
    var from' := from.(mode := m.mode);
    match m.r
    case DecodeError(e) => Failed(e, [], from', to)
    case Decode(d) =>
      var wbuf' := d.units + wbuf[|d.units|..];
      var w := WctombSpec(p, to, wbuf', |d.units|, outLeft);
      var to' := to.(mode := w.mode);
      match w.enc.ret
      case Err(e) => Failed(e, w.enc.written, from', to')
      case Ok(n) => Stepped(d.insize, w.enc.written, from', to', wbuf')
  }

  /**
   * What win_iconv did on the whole input: bytes consumed, bytes produced
   * (the cursors moved over them), bytes a failing step stored past the
   * produced ones, the error if it stopped early, and the final state.
   */
  datatype Outcome = Outcome(consumed: nat, produced: seq<Byte>, pending: seq<Byte>, err: Option<Errno>,
                             from: CsConv, to: CsConv, wbuf: seq<Unit16>)

  /**
   * The win_iconv loop on the unread `input`: one character per step until
   * the input is used up or a step fails.
   */
  function RunFrom(p: Platform, from: CsConv, to: CsConv, input: seq<Byte>, outLeft: nat, wbuf: seq<Unit16>): (r: Outcome)
    requires Wired(from) && Wired(to) && |wbuf| == MbCharMax
    ensures r.consumed <= |input| && |r.produced| + |r.pending| <= outLeft
    ensures r.err == None <==> r.consumed == |input|
    ensures r.err == None ==> r.pending == []
    ensures Wired(r.from) && Wired(r.to) && |r.wbuf| == MbCharMax
    ensures r.from == from.(mode := r.from.mode) && r.to == to.(mode := r.to.mode)
    decreases |input|, 1
  {
    if |input| == 0 then Outcome(0, [], [], None, from, to, wbuf)
    else RunStep(p, from, to, input, outLeft, wbuf)
  }

  /** One turn of the loop on a non-empty input, then the turns after it. */
  function RunStep(p: Platform, from: CsConv, to: CsConv, input: seq<Byte>, outLeft: nat, wbuf: seq<Unit16>): (r: Outcome)
    requires Wired(from) && Wired(to) && |wbuf| == MbCharMax && |input| >= 1
    ensures r.consumed <= |input| && |r.produced| + |r.pending| <= outLeft
    ensures r.err == None <==> r.consumed == |input|
    ensures r.err == None ==> r.pending == []
    ensures Wired(r.from) && Wired(r.to) && |r.wbuf| == MbCharMax
    ensures r.from == from.(mode := r.from.mode) && r.to == to.(mode := r.to.mode)
    decreases |input|, 0
  {
    match ConvStep(p, from, to, input, outLeft, wbuf)
    case Failed(e, pending, f, t) => Outcome(0, [], pending, Some(e), f, t, wbuf)
    case Stepped(n, bytes, f, t, w) => Resumed(n, bytes, RunFrom(p, f, t, input[n..], outLeft - |bytes|, w))
  }

  /** An outcome preceded by `consumed` bytes already converted into `produced`. */
  function Resumed(consumed: nat, produced: seq<Byte>, o: Outcome): (r: Outcome)
  {
    o.(consumed := consumed + o.consumed, produced := produced + o.produced)
  }

  /** What one win_iconv call does on `input` with `outLeft` bytes of room. */
  function Run(p: Platform, from: CsConv, to: CsConv, input: seq<Byte>, outLeft: nat, wbuf: seq<Unit16>): (r: Outcome)
    requires Wired(from) && Wired(to) && |wbuf| == MbCharMax
    ensures r.consumed <= |input| && |r.produced| + |r.pending| <= outLeft
    ensures r.err == None <==> r.consumed == |input|
    ensures r.err == None ==> r.pending == []
    ensures Wired(r.from) && Wired(r.to) && |r.wbuf| == MbCharMax
    ensures r.from == from.(mode := r.from.mode) && r.to == to.(mode := r.to.mode)
  {
    RunFrom(p, from, to, input, outLeft, wbuf)
  }

  lemma {:induction false} ResumedTwice(c0: nat, w0: seq<Byte>, c1: nat, w1: seq<Byte>, o: Outcome)
    ensures Resumed(c0, w0, Resumed(c1, w1, o)) == Resumed(c0 + c1, w0 + w1, o)
  {
    assert w0 + (w1 + o.produced) == (w0 + w1) + o.produced;
  }

  /**
   * A decoder that recognised a character looks only at its bytes: more
   * input after them does not change what it does.
   */
  lemma {:induction false} MbtowcPrefix(p: Platform, cv: CsConv, buf: seq<Byte>, more: seq<Byte>)
    requires Wired(cv) && |buf| >= 1 && Mbtowc(p, cv, buf).r.Decode?
    ensures Mbtowc(p, cv, buf + more) == Mbtowc(p, cv, buf)
  {
    var b := buf + more;
    match cv.codec
    case Utf16LeCodec =>
      assert b[0] == buf[0] && b[1] == buf[1];
      if |buf| >= 4 { assert b[2] == buf[2] && b[3] == buf[3]; }
    case Utf16BeCodec =>
      assert b[0] == buf[0] && b[1] == buf[1];
      if |buf| >= 4 { assert b[2] == buf[2] && b[3] == buf[3]; }
    case KernelCodec =>
      ProbeLengthPrefix(p, cv.prober, cv.codepage, buf, more);
      var len := ProbeLength(p, cv.prober, cv.codepage, buf).n;
      assert b[..len] == buf[..len];
    case MlangCodec =>
      ProbeLengthPrefix(p, cv.prober, cv.codepage, buf, more);
      var len := ProbeLength(p, cv.prober, cv.codepage, buf).n;
      assert b[..len] == buf[..len];
  }

  /** A step that converted a character does the same with more input after it. */
  lemma {:induction false} ConvStepPrefix(p: Platform, from: CsConv, to: CsConv, input: seq<Byte>, more: seq<Byte>, outLeft: nat, wbuf: seq<Unit16>)
    requires Wired(from) && Wired(to) && |input| >= 1 && |wbuf| == MbCharMax
    requires ConvStep(p, from, to, input, outLeft, wbuf).Stepped?
    ensures ConvStep(p, from, to, input + more, outLeft, wbuf) == ConvStep(p, from, to, input, outLeft, wbuf)
  {
    MbtowcPrefix(p, from, input, more);
  }

  /** One turn of the loop on a non-empty input, as the outcome of the whole call sees it. */
  lemma {:induction false} RunUnfold(p: Platform, from: CsConv, to: CsConv, input: seq<Byte>, outLeft: nat, wbuf: seq<Unit16>)
    requires Wired(from) && Wired(to) && |wbuf| == MbCharMax && |input| >= 1
    ensures var st := ConvStep(p, from, to, input, outLeft, wbuf);
      Run(p, from, to, input, outLeft, wbuf)
      == if st.Failed? then Outcome(0, [], st.pending, Some(st.e), st.from, st.to, wbuf)
         else Resumed(st.insize, st.bytes, Run(p, st.from, st.to, input[st.insize..], outLeft - |st.bytes|, st.wbuf))
  {
    assert Run(p, from, to, input, outLeft, wbuf) == RunStep(p, from, to, input, outLeft, wbuf);
  }

  /** A first step that converts a character of `a` is the first step on `a + b` too. */
  lemma {:induction false} RunPrefixStep(p: Platform, from: CsConv, to: CsConv, a: seq<Byte>, b: seq<Byte>, outLeft: nat, wbuf: seq<Unit16>)
    requires Wired(from) && Wired(to) && |wbuf| == MbCharMax && |a| >= 1
    requires ConvStep(p, from, to, a, outLeft, wbuf).Stepped?
    ensures var st := ConvStep(p, from, to, a, outLeft, wbuf);
      Run(p, from, to, a + b, outLeft, wbuf)
      == Resumed(st.insize, st.bytes, Run(p, st.from, st.to, a[st.insize..] + b, outLeft - |st.bytes|, st.wbuf))
  {
    var st := ConvStep(p, from, to, a, outLeft, wbuf);
    ConvStepPrefix(p, from, to, a, b, outLeft, wbuf);
    RunUnfold(p, from, to, a + b, outLeft, wbuf);
    assert (a + b)[st.insize..] == a[st.insize..] + b;
  }

  /**
   * Streaming: converting `a + b` in one call is converting `a`, when that
   * succeeds, and then `b` from the state and output room it leaves.
   */
  lemma {:induction false} RunConcat(p: Platform, from: CsConv, to: CsConv, a: seq<Byte>, b: seq<Byte>,
                                     outLeft: nat, wbuf: seq<Unit16>)
    requires Wired(from) && Wired(to) && |wbuf| == MbCharMax
    requires Run(p, from, to, a, outLeft, wbuf).err == None
    ensures var o := Run(p, from, to, a, outLeft, wbuf);
      Run(p, from, to, a + b, outLeft, wbuf)
      == Resumed(|a|, o.produced, Run(p, o.from, o.to, b, outLeft - |o.produced|, o.wbuf))
    decreases |a|
  {
    var o := Run(p, from, to, a, outLeft, wbuf);
    if |a| == 0 {
      assert a + b == b;
      assert [] + Run(p, from, to, b, outLeft, wbuf).produced == Run(p, from, to, b, outLeft, wbuf).produced;
    } else {
      RunUnfold(p, from, to, a, outLeft, wbuf);
      var st := ConvStep(p, from, to, a, outLeft, wbuf);
      var n, bytes, room := st.insize, st.bytes, outLeft - |st.bytes|;
      var o' := Run(p, st.from, st.to, a[n..], room, st.wbuf);
      RunPrefixStep(p, from, to, a, b, outLeft, wbuf);
      var rest := Run(p, o'.from, o'.to, b, room - |o'.produced|, o'.wbuf);
      RunConcat(p, st.from, st.to, a[n..], b, room, st.wbuf);
      ResumedTwice(n, bytes, |a| - n, o'.produced, rest);
      assert outLeft - |o.produced| == room - |o'.produced|;
    }
  }

  /** The UTF-16 codecs of both byte orders. */
  predicate IsUtf16(cv: CsConv)
  {
    cv.codec == Utf16LeCodec || cv.codec == Utf16BeCodec
  }

  /** One step between the UTF-16 codecs copies or swaps the bytes of the character. */
  lemma {:induction false} Utf16StepBytes(p: Platform, from: CsConv, to: CsConv, input: seq<Byte>, outLeft: nat, wbuf: seq<Unit16>)
    requires Wired(from) && Wired(to) && IsUtf16(from) && IsUtf16(to) && |wbuf| == MbCharMax && |input| >= 1
    requires ConvStep(p, from, to, input, outLeft, wbuf).Stepped?
    ensures var st := ConvStep(p, from, to, input, outLeft, wbuf);
      && st.insize % 2 == 0
      && st.bytes == Reordered(from.codec != to.codec, input[..st.insize])
  {
    var d := Mbtowc(p, from, input).r.d;
    var stale := wbuf[|d.units|..];
    if from.codec == Utf16LeCodec {
      if to.codec == Utf16LeCodec { Utf16LeRoundTrip(input, stale, outLeft); }
      else { LeToBeSwapsPairs(input, stale, outLeft); }
    } else {
      if to.codec == Utf16BeCodec { Utf16BeRoundTrip(input, stale, outLeft); }
      else { BeToLeSwapsPairs(input, stale, outLeft); }
    }
  }

  /**
   * Between the UTF-16 codecs, win_iconv copies the bytes it consumes when
   * both sides have the same byte order and swaps each pair otherwise.
   */
  lemma {:induction false} Utf16RunBytes(p: Platform, from: CsConv, to: CsConv, input: seq<Byte>, outLeft: nat,
                                         wbuf: seq<Unit16>)
    requires Wired(from) && Wired(to) && IsUtf16(from) && IsUtf16(to) && |wbuf| == MbCharMax
    ensures var o := Run(p, from, to, input, outLeft, wbuf);
      o.produced == Reordered(from.codec != to.codec, input[..o.consumed])
    decreases |input|
  {
    if |input| > 0 {
      RunUnfold(p, from, to, input, outLeft, wbuf);
      var st := ConvStep(p, from, to, input, outLeft, wbuf);
      if st.Stepped? {
        Utf16StepBytes(p, from, to, input, outLeft, wbuf);
        var n := st.insize;
        var o' := Run(p, st.from, st.to, input[n..], outLeft - |st.bytes|, st.wbuf);
        Utf16RunBytes(p, st.from, st.to, input[n..], outLeft - |st.bytes|, st.wbuf);
        ReorderedResumed(from.codec != to.codec, input, n, st.bytes, o');
      }
    }
  }

  /** A reordered even-length first character, then a reordered rest, is the reordered whole. */
  lemma {:induction false} ReorderedResumed(swap: bool, input: seq<Byte>, n: nat, bytes: seq<Byte>, o: Outcome)
    requires n <= |input| && n % 2 == 0 && o.consumed <= |input| - n
    requires bytes == Reordered(swap, input[..n])
    requires o.produced == Reordered(swap, input[n..][..o.consumed])
    ensures Resumed(n, bytes, o).produced == Reordered(swap, input[..Resumed(n, bytes, o).consumed])
  {
    ReorderedSplit(swap, input, n, o.consumed);
  }

  /** utf-16be "\x01\x02" to utf-16le gives "\x02\x01". */
  lemma {:induction false} Utf16BeToLeExample(p: Platform, from: CsConv, to: CsConv, outLeft: nat, wbuf: seq<Unit16>)
    requires from.codec == Utf16BeCodec && to.codec == Utf16LeCodec && |wbuf| == MbCharMax && outLeft >= 2
    ensures Run(p, from, to, [0x01, 0x02], outLeft, wbuf).err == None
    ensures Run(p, from, to, [0x01, 0x02], outLeft, wbuf).produced == [0x02, 0x01]
  {
    var input: seq<Byte> := [0x01, 0x02];
    assert Run(p, from, to, input, outLeft, wbuf) == RunStep(p, from, to, input, outLeft, wbuf);
    Utf16RunBytes(p, from, to, input, outLeft, wbuf);
  }

  /** utf-8 "\xE3" stops with EINVAL before the incomplete character. */
  lemma {:induction false} IncompleteUtf8Example(p: Platform, from: CsConv, to: CsConv, outLeft: nat, wbuf: seq<Unit16>)
    requires from.codec == KernelCodec && from.prober == Utf8Prober && Wired(to) && |wbuf| == MbCharMax
    ensures Run(p, from, to, [0xE3], outLeft, wbuf) == Outcome(0, [], [], Some(EINVAL), from, to, wbuf)
  {
    RunUnfold(p, from, to, [0xE3], outLeft, wbuf);
    LoneE3IsIncomplete();
  }

  /**
   * euc-jp "\xA4\xA2\xA4" to utf-16be: the first character is converted and
   * the conversion stops with EINVAL before the lone A4, with the cursors
   * after the first character.
   */
  lemma {:induction false} TruncatedEucJpExample(p: Platform, from: CsConv, to: CsConv, outLeft: nat, wbuf: seq<Unit16>)
    requires from.codec == MlangCodec && from.prober == EucJpProber && to.codec == Utf16BeCodec
    requires |wbuf| == MbCharMax && outLeft >= 2
    requires p.mlangToUnicode(from.mode, from.codepage, [0xA4, 0xA2]) == MlangCall(true, 2, [0x3042], from.mode)
    ensures var o := Run(p, from, to, [0xA4, 0xA2, 0xA4], outLeft, wbuf);
      o.consumed == 2 && o.produced == [0x30, 0x42] && o.err == Some(EINVAL)
  {
    var input: seq<Byte> := [0xA4, 0xA2, 0xA4];
    RunUnfold(p, from, to, input, outLeft, wbuf);
    assert input[..2] == [0xA4, 0xA2];
    var st := ConvStep(p, from, to, input, outLeft, wbuf);
    assert st.Stepped? && st.insize == 2 && st.bytes == [0x30, 0x42];
    assert input[2..] == [0xA4];
    RunUnfold(p, st.from, st.to, [0xA4], outLeft - 2, st.wbuf);
  }

  /**
   * The body of the win_iconv loop for one character: the input side's
   * `mbtowc` decodes the next character into the wide-character buffer, the
   * output side's `wctomb` encodes it into `out[pos..pos + room]`.
   */
  method ConvertChar(p: Platform, from: CsConv, to: CsConv, rest: seq<Byte>, wbuf: seq<Unit16>,
                     out: array<Byte>, pos: nat, room: nat)
    returns (outsize: Status, insize: nat, from': CsConv, to': CsConv, wbuf': seq<Unit16>)
    requires Wired(from) && Wired(to) && |rest| >= 1 && |wbuf| == MbCharMax && pos + room <= out.Length
    modifies out
    ensures var st := ConvStep(p, from, to, rest, room, wbuf);
      && (outsize.Ok? <==> st.Stepped?)
      && (st.Stepped? ==> outsize == Ok(|st.bytes|) && st == Stepped(insize, st.bytes, from', to', wbuf'))
      && (st.Failed? ==> st == Failed(outsize.e, st.pending, from', to'))
      && out[..] == Overwrite(old(out[..]), pos, StepOutput(st))
  {
    var m := Mbtowc(p, from, rest);
    from', to', wbuf' := from.(mode := m.mode), to, wbuf;
    if m.r.DecodeError? {
      assert out[..] == Overwrite(old(out[..]), pos, []);
      return Err(m.r.e), 0, from', to', wbuf';
    }
    var d := m.r.d;
    wbuf' := d.units + wbuf[|d.units|..];
    var mode;
    outsize, mode := Wctomb(p, to, wbuf', |d.units|, out, pos, room);
    to' := to.(mode := mode);
    insize := d.insize;
  }

  /**
   * One turn of the win_iconv loop: `written` bytes are stored at
   * `out[outPos..]`; the character at the head of `rest` is converted into
   * the bytes `bytes` stored right after them.
   */
  method Advance(p: Platform, from: CsConv, to: CsConv, rest: seq<Byte>, wbuf: seq<Unit16>,
                 out: array<Byte>, pos: nat, room: nat,
                 ghost initial: seq<Byte>, ghost outPos: nat, ghost written: seq<Byte>)
    returns (outsize: Status, insize: nat, from': CsConv, to': CsConv, wbuf': seq<Unit16>, ghost bytes: seq<Byte>)
    requires Wired(from) && Wired(to) && |rest| >= 1 && |wbuf| == MbCharMax
    requires pos == outPos + |written| && pos + room <= out.Length == |initial|
    requires out[..] == Overwrite(initial, outPos, written)
    modifies out
    ensures |bytes| <= room && out[..] == Overwrite(initial, outPos, written + bytes)
    ensures outsize.Ok? ==>
      && outsize.n == |bytes| && 1 <= insize <= |rest|
      && Wired(from') && Wired(to') && |wbuf'| == MbCharMax
      && Run(p, from, to, rest, room, wbuf) == Resumed(insize, bytes, Run(p, from', to', rest[insize..], room - outsize.n, wbuf'))
    ensures outsize.Err? ==>
      Run(p, from, to, rest, room, wbuf) == Outcome(0, [], bytes, Some(outsize.e), from', to', wbuf)
  {
    ghost var st := ConvStep(p, from, to, rest, room, wbuf);
    ghost var before := out[..];
    outsize, insize, from', to', wbuf' := ConvertChar(p, from, to, rest, wbuf, out, pos, room);
    bytes := StepOutput(st);
    OverwriteStep(initial, before, out[..], outPos, written, bytes);
    RunUnfold(p, from, to, rest, room, wbuf);
  }

  // ------------------------------------------------------------------ the descriptor

  /** rec_iconv_t: the two sides of an open conversion. */
  class Iconv {
    var from: CsConv
    var to: CsConv

    /** Both sides are wired as make_csconv wires them, with no `flush` function. */
    predicate Valid()
      reads this
    {
      Wired(from) && Wired(to) && !from.hasFlush && !to.hasFlush
    }

    constructor (from: CsConv, to: CsConv)
      ensures this.from == from && this.to == to
    {
      this.from := from;
      this.to := to;
    }

    /**
     * win_iconv with `inbuf == NULL` or `*inbuf == NULL`: the output side's
     * mode returns to its initial state and the call returns 0.  A `flush`
     * function would be called on the output buffer first, but make_csconv
     * never installs one, so no output is written.
     */
    method ResetState() returns (ret: int)
      requires Valid()
      modifies this
      ensures ret == 0
      ensures to == old(to).(mode := 0) && from == old(from)
      ensures Valid()
    {
      to := to.(mode := 0);
      return 0;
    }

    /**
     * win_iconv: converts `input` (the `*inbytesleft` bytes at `*inbuf`) into
     * `out[outPos..outPos + outLeft]`, one character per step.  `stale` is the
     * initial content of the wide-character buffer on the stack.  On return
     * the four cursors have moved by exactly what the completed steps
     * consumed and produced; a failing step leaves them where it began.
     */
    method Convert(p: Platform, input: seq<Byte>, out: array<Byte>, outPos: nat, outLeft: nat, stale: seq<Unit16>)
      returns (ret: int, err: Option<Errno>, consumed: nat, inLeft: nat, produced: nat, outLeftAfter: nat)
      requires Valid() && |stale| == MbCharMax && outPos + outLeft <= out.Length
      modifies this, out
      ensures var r := Run(p, old(from), old(to), input, outLeft, stale);
        && consumed == r.consumed && produced == |r.produced| && err == r.err
        && from == r.from && to == r.to
        && out[..] == Overwrite(old(out[..]), outPos, r.produced + r.pending)
      ensures inLeft == |input| - consumed && outLeftAfter == outLeft - produced
      ensures ret == (if err == None then 0 else -1)
      ensures Valid()
    {
      var f, t, wbuf := from, to, stale;
      ghost var whole := Run(p, from, to, input, outLeft, stale);
      var rest := input;
      consumed, produced := 0, 0;
      ghost var written: seq<Byte> := [];
      inLeft, outLeftAfter := |input|, outLeft;
      while inLeft != 0
        invariant consumed + inLeft == |input| && produced + outLeftAfter == outLeft && |rest| == inLeft
        invariant |written| == produced && |wbuf| == MbCharMax && Wired(f) && Wired(t)
        invariant out[..] == Overwrite(old(out[..]), outPos, written)
        invariant whole == Resumed(consumed, written, Run(p, f, t, rest, outLeftAfter, wbuf))
      {
        var outsize, insize, f', t', wbuf', bytes := Advance(p, f, t, rest, wbuf, out, outPos + produced, outLeftAfter,
                                                             old(out[..]), outPos, written);
        if outsize.Err? {
          assert written + [] == written;
          from, to := f', t';
          return -1, Some(outsize.e), consumed, inLeft, produced, outLeftAfter;
        }
        ResumedTwice(consumed, written, insize, bytes, Run(p, f', t', rest[insize..], outLeftAfter - outsize.n, wbuf'));
        f, t, wbuf := f', t', wbuf';
        written := written + bytes;
        rest, consumed, inLeft := rest[insize..], consumed + insize, inLeft - insize;
        produced, outLeftAfter := produced + outsize.n, outLeftAfter - outsize.n;
      }
      assert written + [] == written;
      from, to := f, t;
      return 0, None, consumed, inLeft, produced, outLeftAfter;
    }
  }

  /**
   * iconv_open: builds both sides with make_csconv and refuses the pair,
   * with EINVAL and no descriptor, when either side is unsupported.
   */
  method IconvOpen(p: Platform, tocode: string, fromcode: string) returns (cd: Iconv?, err: Option<Errno>)
    ensures var f, t := MakeCsConv(p, fromcode), MakeCsConv(p, tocode);
      && (cd == null <==> f.codepage == -1 || t.codepage == -1)
      && (cd == null ==> err == Some(EINVAL))
      && (cd != null ==> fresh(cd) && cd.from == f && cd.to == t && cd.Valid() && err == None)
  {
    var from := MakeCsConv(p, fromcode);
    var to := MakeCsConv(p, tocode);
    if from.codepage == -1 || to.codepage == -1 {
      return null, Some(EINVAL);
    }
    cd := new Iconv(from, to);
    err := None;
  }
}
