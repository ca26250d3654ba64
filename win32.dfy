// The Windows and MLang services the iconv implementations call.  They are
// foreign code, so the model takes their behaviour as a parameter: a
// `Platform` value whose fields are arbitrary total functions.  Every
// contract proved with a `Platform` argument therefore holds whatever the
// operating system does.  The wrapper functions below add only what the
// documented calling conventions fix (capacity limits, the query mode of
// WideCharToMultiByte, the error codes the callers look at).
module Win32 {
  import opened CLib

  /** What WideCharToMultiByte would produce for a run of UTF-16 units. */
  datatype WideToMultiByte =
    | Converted(bytes: seq<Byte>, usedDefault: bool)  // usedDefault: a default character was substituted
    | NoTranslation                                   // the call fails with ERROR_NO_UNICODE_TRANSLATION

  /**
   * What one ConvertINet* call does: whether it returns S_OK, how many input
   * elements it reports consumed, what it produces and the new value of the
   * conversion mode it updates through its first argument.
   */
  datatype MlangCall<T> = MlangCall(ok: bool, consumed: int, output: seq<T>, mode: int)

  datatype Platform = Platform(
    isValidCodePage: int -> bool,                               // IsValidCodePage
    maxCharSize: int -> int,                                    // GetCPInfoEx: MaxCharSize, 0 when the call fails
    isLeadByte: (int, Byte) -> bool,                            // IsDBCSLeadByteEx
    toWide: (int, seq<Byte>) -> seq<Unit16>,                    // MultiByteToWideChar(MB_ERR_INVALID_CHARS), [] when invalid
    fromWide: (int, seq<Unit16>) -> WideToMultiByte,            // WideCharToMultiByte
    mlangToUnicode: (int, int, seq<Byte>) -> MlangCall<Unit16>, // ConvertINetMultiByteToUnicode(mode, codepage, src)
    mlangFromUnicode: (int, int, seq<Unit16>) -> MlangCall<Byte>, // ConvertINetUnicodeToMultiByte(mode, codepage, src)
    mlangLoads: bool)                                           // LoadLibrary("mlang.dll") succeeds

  /** GetCPInfoEx(codepage) != 0 */
  predicate HasCPInfo(p: Platform, codepage: int)
  {
    p.maxCharSize(codepage) != 0
  }

  /**
   * MultiByteToWideChar(codepage, MB_ERR_INVALID_CHARS, src, |src|, wbuf, capacity):
   * the units written, or [] for the return value 0 (empty or invalid input,
   * or more units than `capacity` holds).
   */
  function MultiByteToWideChar(p: Platform, codepage: int, src: seq<Byte>, capacity: int): (r: seq<Unit16>)
    ensures |r| <= capacity || r == []
    ensures r != [] ==> r == p.toWide(codepage, src) && src != []
  {
    var units := p.toWide(codepage, src);
    if src == [] || |units| > capacity then [] else units
  }

  /** The outcome of WideCharToMultiByte as its callers see it. */
  datatype MultiByteCall = MultiByteCall(
    ret: int,            // the return value
    written: seq<Byte>,  // the bytes stored at the output pointer
    usedDefault: bool,   // the value left in *lpUsedDefaultChar
    insufficient: bool)  // GetLastError() == ERROR_INSUFFICIENT_BUFFER after a 0 return

  /**
   * WideCharToMultiByte(codepage, 0, src, |src|, buf, bufsize, NULL, pUsedDefault),
   * where `wantDefault` says whether pUsedDefault is non-NULL.  A `bufsize` of 0
   * is the documented query mode: the call returns the size it would need and
   * stores nothing.
   */
  function WideCharToMultiByte(p: Platform, codepage: int, src: seq<Unit16>, bufsize: int, wantDefault: bool): (r: MultiByteCall)
    ensures r.ret >= 0
    ensures r.ret == |r.written| || (bufsize == 0 && r.written == [])
    ensures bufsize > 0 ==> |r.written| <= bufsize
    ensures r.insufficient ==> r.ret == 0
    ensures r.usedDefault ==> wantDefault
  {
    if src == [] then MultiByteCall(0, [], false, false)
    else match p.fromWide(codepage, src)
      case NoTranslation => MultiByteCall(0, [], false, false)
      case Converted(bytes, usedDefault) =>
        if bytes == [] then MultiByteCall(0, [], false, false)
        else if bufsize == 0 then MultiByteCall(|bytes|, [], wantDefault && usedDefault, false)
        else if |bytes| > bufsize then MultiByteCall(0, [], false, true)
        else MultiByteCall(|bytes|, bytes, wantDefault && usedDefault, false)
  }

  /**
   * ConvertINetMultiByteToUnicode(&mode, codepage, src, &srcsize, wbuf, &capacity):
   * output that does not fit `capacity` counts as a failed call.  The mode is
   * updated whatever the outcome.
   */
  function ConvertINetMultiByteToUnicode(p: Platform, mode: int, codepage: int, src: seq<Byte>, capacity: int): (r: MlangCall<Unit16>)
    ensures r.mode == p.mlangToUnicode(mode, codepage, src).mode
    ensures r.ok ==> |r.output| <= capacity
  {
    var c := p.mlangToUnicode(mode, codepage, src);
    if |c.output| > capacity then MlangCall(false, c.consumed, [], c.mode) else c
  }

  /** ConvertINetUnicodeToMultiByte, with the same conventions. */
  function ConvertINetUnicodeToMultiByte(p: Platform, mode: int, codepage: int, src: seq<Unit16>, capacity: int): (r: MlangCall<Byte>)
    ensures r.mode == p.mlangFromUnicode(mode, codepage, src).mode
    ensures r.ok ==> |r.output| <= capacity
  {
    var c := p.mlangFromUnicode(mode, codepage, src);
    if |c.output| > capacity then MlangCall(false, c.consumed, [], c.mode) else c
  }
}
