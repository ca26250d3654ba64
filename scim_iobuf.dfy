// Class vp::iobuf_t of trunk/scim-vim/autoload/scim-vim.cpp, the C++ twin of
// vp_iobuf_t: a std::stringstream that is read with `getline` up to the
// terminator 0x01 and written with `operator<<`.  The stream is modelled by
// what the class relies on (libstdc++, opened for input and output): its
// characters, its independent get and put positions, and the eofbit and
// failbit of its state.  A thrown `logic_error` is an error result.
module ScimIobuf {
  import opened CLib
  import opened VpWire

  /** The message of the `logic_error` the extractors throw. */
  const FormatError := "format error"

  // ------------------------------------------------------------------ the stream

  datatype Stream = Stream(text: string, get: nat, put: nat, eof: bool, fail: bool)

  /** `good()`: neither eofbit nor failbit (badbit never arises on a string). */
  predicate Good(s: Stream) { !s.eof && !s.fail }

  predicate Positioned(s: Stream) { s.get <= |s.text| && s.put <= |s.text| }

  /** The characters the get position has not passed yet. */
  function Unread(s: Stream): string
    requires Positioned(s)
  {
    s.text[s.get..]
  }

  /**
   * `stringstream(t)`, and `clear(); str(t)`: the text is `t`, the state is
   * good, and both positions are at the start (neither `ate` nor `app`).
   */
  function Opened(t: string): (s: Stream)
    ensures Positioned(s) && Good(s) && Unread(s) == t && s.text == t
  {
    Stream(t, 0, 0, false, false)
  }

  /** The string buffer's write of `w` at offset `pos`: it overwrites, then extends. */
  function PutAt(t: string, pos: nat, w: string): (r: string)
    requires pos <= |t|
    ensures |r| == if pos + |w| < |t| then |t| else pos + |w|
    ensures forall i :: 0 <= i < |r| ==> r[i] == if pos <= i < pos + |w| then w[i - pos] else t[i]
  {
    if pos + |w| < |t| then t[..pos] + w + t[pos + |w|..] else t[..pos] + w
  }

  /** `strm << w` for text `w`: written at the put position while good, else nothing. */
  function Write(s: Stream, w: string): (r: Stream)
    requires Positioned(s)
    ensures Positioned(r)
  {
    if Good(s) then s.(text := PutAt(s.text, s.put, w), put := s.put + |w|) else s
  }

  /** Two writes in a row are the write of both. */
  lemma {:induction false} WriteJoin(s: Stream, a: string, b: string)
    requires Positioned(s)
    ensures Write(Write(s, a), b) == Write(s, a + b)
  {
    if Good(s) {
      var t1 := PutAt(s.text, s.put, a);
      var t2 := PutAt(t1, s.put + |a|, b);
      var t3 := PutAt(s.text, s.put, a + b);
      assert |t2| == |t3|;
      assert forall i :: 0 <= i < |t2| ==> t2[i] == t3[i];
      assert t2 == t3;
    }
  }

  /** With the put position at the end, a write appends and the reader will see it. */
  lemma {:induction false} WriteAppends(s: Stream, w: string)
    requires Positioned(s) && Good(s) && s.put == |s.text|
    ensures Write(s, w).text == s.text + w && Write(s, w).put == |Write(s, w).text|
    ensures Good(Write(s, w)) && Unread(Write(s, w)) == Unread(s) + w
  {
    var t := PutAt(s.text, s.put, w);
    assert forall i :: 0 <= i < |t| ==> t[i] == (s.text + w)[i];
    assert t == s.text + w;
    assert t[s.get..] == s.text[s.get..] + w;
  }

  /**
   * After `str(t)` the put position is back at the start, so what is written
   * next overwrites `t` from its first character.
   */
  lemma {:induction false} WriteAfterReset(t: string, w: string)
    ensures |w| < |t| ==> Write(Opened(t), w).text == w + t[|w|..]
    ensures |w| >= |t| ==> Write(Opened(t), w).text == w
  {
    var r := PutAt(t, 0, w);
    assert Write(Opened(t), w).text == r;
    EmptyFront(t, w);
  }

  lemma {:induction false} EmptyFront(t: string, w: string)
    ensures |w| < |t| ==> PutAt(t, 0, w) == w + t[|w|..]
    ensures |w| >= |t| ==> PutAt(t, 0, w) == w
  {
    assert t[..0] == [];
    assert [] + w == w;
  }

  /** The stream after `getline(strm, var, EOV)` and the value of `var`. */
  datatype Got = Got(s: Stream, line: string)

  /**
   * `getline(strm, var, EOV)`: on a stream that is not good the sentry sets
   * failbit and `var` keeps its value; otherwise the characters up to the
   * terminator are taken and the terminator dropped, and reaching the end
   * instead sets eofbit, and failbit too when nothing was taken.
   */
  function GetLine(s: Stream, var0: string): (r: Got)
    requires Positioned(s)
    ensures Positioned(r.s) && r.s.text == s.text && r.s.put == s.put
  {
    if !Good(s) then Got(s.(fail := true), var0)
    else
      var u := Unread(s);
      var k := EovIndex(u);
      if k < |u| then Got(s.(get := s.get + k + 1), u[..k])
      else Got(s.(get := |s.text|, eof := true, fail := u == []), u)
  }

  /**
   * The twin of vp_iobuf_get_str: on a good stream getline takes the token
   * NextToken finds in the unread text.  Where vp_iobuf_get_str refuses
   * ("no data", "EOV error"), getline instead sets its flags: eofbit and
   * failbit for nothing left, eofbit alone for an unterminated tail, which
   * it returns.  On a stream that is not good it reads nothing.
   */
  lemma {:induction false} GetLineMeans(s: Stream, var0: string)
    requires Positioned(s)
    ensures !Good(s) ==>
      GetLine(s, var0).line == var0 && GetLine(s, var0).s.fail && GetLine(s, var0).s.get == s.get
    ensures Good(s) ==>
      match NextToken(Unread(s))
      case Took(t, rest) =>
        GetLine(s, var0).line == t && Good(GetLine(s, var0).s) && Unread(GetLine(s, var0).s) == rest
      case NoData =>
        GetLine(s, var0).line == "" && GetLine(s, var0).s.eof && GetLine(s, var0).s.fail &&
        Unread(GetLine(s, var0).s) == ""
      case Unterminated =>
        GetLine(s, var0).line == Unread(s) && GetLine(s, var0).s.eof && !GetLine(s, var0).s.fail &&
        Unread(GetLine(s, var0).s) == ""
  {
    if Good(s) {
      var u := Unread(s);
      var k := EovIndex(u);
      if u != [] && k < |u| {
        NextTokenAt(u, k);
        assert s.text[s.get + k + 1..] == u[k + 1..];
      }
    }
  }

  /** A terminated item at the get position is read back as itself. */
  lemma {:induction false} LineRoundTrip(s: Stream, w: string, rest: string, var0: string)
    requires Positioned(s) && Good(s) && Unread(s) == w + [Eov] + rest && NoEov(w)
    ensures GetLine(s, var0).line == w
    ensures Good(GetLine(s, var0).s) && Unread(GetLine(s, var0).s) == rest
  {
    NextTokenOfItem(w, rest);
    GetLineMeans(s, var0);
  }

  // ------------------------------------------------------------------ numbers

  /** Where `tmp >> var` left `var` (if it stored into it), and whether tmp reached its end. */
  datatype Scanned<T> = Scanned(stored: Option<T>, atEnd: bool)

  const IntMin := -0x8000_0000
  const IntMax := 0x7FFF_FFFF

  /** What `operator>>(int&)` stores for a value out of `int`'s range. */
  function ClampInt(v: int): (r: int)
    ensures IntMin <= r <= IntMax
    ensures IntMin <= v <= IntMax ==> r == v
    ensures v < IntMin ==> r == IntMin
    ensures v > IntMax ==> r == IntMax
  {
    if v < IntMin then IntMin else if v > IntMax then IntMax else v
  }

  /**
   * `tmp >> n` for an `int n` on a stream holding `t`, in the C locale: white
   * space, an optional sign and the longest run of decimal digits.  Running
   * out during the white space leaves `n` alone; no digits store 0; a value
   * out of range stores the nearest bound.
   */
  function ScanInt(t: string): Scanned<int>
  {
    var u := SkipSpaces(t);
    if u == [] then Scanned(None, true)
    else
      var body := Unsigned(u);
      var d := DigitPrefix(body);
      var atEnd := |d| == |body|;
      if d == [] then Scanned(Some(0), atEnd)
      else if u[0] == '-' then Scanned(Some(ClampInt(-(DigitsValue(d) as int))), atEnd)
      else Scanned(Some(ClampInt(DigitsValue(d))), atEnd)
  }

  /**
   * The typed extractor and vp_iobuf_get_fmt's `%d%n` scan accept the same
   * tokens, except that the extractor raises no error for a token that is
   * empty, blank, or a lone sign; what the scan accepts, the extractor stores.
   */
  lemma {:induction false} ScanIntAgrees(t: string)
    ensures ScanInt(t).atEnd <==>
      ScanDecimal(t).Some? || SkipSpaces(t) == "" || SkipSpaces(t) == "-" || SkipSpaces(t) == "+"
    ensures ScanDecimal(t).Some? ==> ScanInt(t).stored == Some(ClampInt(ScanDecimal(t).value))
  {
    var u := SkipSpaces(t);
    if u != [] {
      var body := Unsigned(u);
      var d := DigitPrefix(body);
      LoneSign(u);
      assert ScanInt(t).atEnd == (|d| == |body|);
      assert ScanDecimal(t).Some? == (d != [] && |d| == |body|);
      assert (d == [] && |d| == |body|) == (body == []);
    }
  }

  /** Only a lone sign leaves nothing once the sign is taken off. */
  lemma {:induction false} LoneSign(u: string)
    requires u != []
    ensures Unsigned(u) == [] <==> u == "-" || u == "+"
  {
    if Unsigned(u) == [] {
      assert u == [u[0]];
    }
  }

  /** An `int` written with `<<` and read with the typed `>>` comes back, without an error. */
  lemma {:induction false} IntRoundTrip(s: Stream, n: int, rest: string)
    requires Positioned(s) && Good(s) && IntMin <= n <= IntMax
    requires Unread(s) == DecimalString(n) + [Eov] + rest
    ensures GetLine(s, "").line == DecimalString(n)
    ensures ScanInt(GetLine(s, "").line) == Scanned(Some(n), true)
  {
    DecimalPlain(n);
    LineRoundTrip(s, DecimalString(n), rest, "");
    ScanDecimalRoundTrip(n);
    ScanIntAgrees(DecimalString(n));
  }

  /**
   * A typed value read past the end of the input raises no error and leaves
   * the variable as it was; the stream is failed from then on.
   */
  lemma {:induction false} ReadPastEnd(s: Stream)
    requires Positioned(s) && (!Good(s) || Unread(s) == [])
    ensures GetLine(s, "").line == "" && GetLine(s, "").s.fail
    ensures ScanInt(GetLine(s, "").line) == Scanned(None, true)
    ensures HexDecode(CStr(GetLine(s, "").line)) == Some([])
  {
    GetLineMeans(s, "");
    assert GetLine(s, "").line == "";
    assert SkipSpaces("") == "";
    assert CStr("") == "" && IsHexText("");
    assert HexDecode("").value == [];
  }

  // ------------------------------------------------------------------ binary

  /** The characters `c_str()` shows a C reader: everything before the first NUL. */
  function CStr(s: string): (r: string)
    ensures |r| <= |s| && r == s[..|r|] && NoNul(r)
    ensures |r| < |s| ==> s[|r|] == '\0'
  {
    if s == [] || s[0] == '\0' then [] else [s[0]] + CStr(s[1..])
  }

  lemma {:induction false} CStrOfNoNul(s: string)
    requires NoNul(s)
    ensures CStr(s) == s
  {
    if s != [] {
      CStrOfNoNul(s[1..]);
      assert [s[0]] + s[1..] == s;
    }
  }

  /** Pairs of hexadecimal digits read up to offset `p` spell `v`. */
  lemma {:induction false} PairsDecode(c: string, v: seq<Byte>, p: nat)
    requires p == 2 * |v| <= |c|
    requires forall j :: 0 <= j < p ==> IsHexDigit(c[j])
    requires forall j :: 0 <= j < |v| ==> v[j] == PairValue(c, j)
    ensures HexDecode(c[..p]) == Some(v)
  {
    var t := c[..p];
    assert IsHexText(t);
    forall j | 0 <= j < |v|
      ensures PairValue(t, j) == v[j]
    {
      assert t[2 * j] == c[2 * j] && t[2 * j + 1] == c[2 * j + 1];
    }
    assert HexDecode(t).value == v;
  }

  /**
   * The loop of `operator>>(buf_t&)`: one byte per pair of hexadecimal
   * digits of `s.c_str()`, either case, pushed in order.  A character that is
   * not a digit where a pair should be, including the terminator after an odd
   * digit, throws, leaving the bytes of the pairs before it.
   */
  method DecodePairs(s: string) returns (v: seq<Byte>, thrown: Option<string>)
    ensures thrown == None || thrown == Some(FormatError)
    ensures thrown == None <==> IsHexText(CStr(s))
    ensures thrown == None ==> HexDecode(CStr(s)) == Some(v)
    ensures thrown.Some? ==> 2 * |v| < |CStr(s)| && HexDecode(CStr(s)[..2 * |v|]) == Some(v)
    ensures thrown.Some? ==>
      !(IsHexDigit(CharAt(CStr(s), 2 * |v|)) && IsHexDigit(CharAt(CStr(s), 2 * |v| + 1)))
  {
    ghost var c := CStr(s);
    var z := s + ['\0'];
    assert forall i :: 0 <= i <= |c| ==> z[i] == CharAt(c, i);
    v := [];
    thrown := None;
    var p := 0;
    while z[p] != '\0'
      invariant p == 2 * |v| <= |c|
      invariant forall j :: 0 <= j < p ==> IsHexDigit(c[j])
      invariant forall j :: 0 <= j < |v| ==> v[j] == PairValue(c, j)
      decreases |c| - p
    {
      if !IsHexDigit(z[p]) || !IsHexDigit(z[p + 1]) {
        thrown := Some(FormatError);
        PairsDecode(c, v, p);
        return;
      }
      v := v + [HexByte(z[p], z[p + 1])];
      p := p + 2;
    }
    assert c[..p] == c;
    PairsDecode(c, v, p);
  }

  /** Binary data written with `<<` is read back by `>>` into the same bytes. */
  lemma {:induction false} BufRoundTrip(s: Stream, bytes: seq<Byte>, rest: string)
    requires Positioned(s) && Good(s) && Unread(s) == HexText(bytes) + [Eov] + rest
    ensures GetLine(s, "").line == HexText(bytes)
    ensures HexDecode(CStr(GetLine(s, "").line)) == Some(bytes)
  {
    HexTextPlain(bytes);
    LineRoundTrip(s, HexText(bytes), rest, "");
    CStrOfNoNul(HexText(bytes));
    HexRoundTrip(bytes);
  }

  /** One more byte written as its two digits extends the text by its pair. */
  lemma {:induction false} HexWriteStep(s0: Stream, bytes: seq<Byte>, i: nat)
    requires Positioned(s0) && i < |bytes|
    ensures Write(Write(Write(s0, HexText(bytes[..i])), [UpperHexDigit(bytes[i] / 16)]),
                  [UpperHexDigit(bytes[i] % 16)])
         == Write(s0, HexText(bytes[..i + 1]))
  {
    var s1 := Write(s0, HexText(bytes[..i]));
    WriteJoin(s1, [UpperHexDigit(bytes[i] / 16)], [UpperHexDigit(bytes[i] % 16)]);
    assert [UpperHexDigit(bytes[i] / 16)] + [UpperHexDigit(bytes[i] % 16)] == HexPair(bytes[i]);
    WriteJoin(s0, HexText(bytes[..i]), HexPair(bytes[i]));
    assert bytes[..i + 1][..i] == bytes[..i];
  }

  // ------------------------------------------------------------------ the class

  class IoBuf {
    /** `m_strm` */
    var strm: Stream
    /** `m_str`, the copy whose characters `str()` hands out */
    var last: string

    ghost predicate Valid()
      reads this
    {
      Positioned(strm)
    }

    /** `iobuf_t(const string& s = "")` */
    constructor (s: string)
      ensures Valid() && strm == Opened(s) && last == ""
    {
      strm := Opened(s);
      last := "";
    }

    /** `str(s)`: clears the state flags and replaces the contents. */
    method SetStr(s: string)
      modifies this
      ensures Valid() && strm == Opened(s) && last == old(last)
    {
      strm := Opened(s);
    }

    /** `str()`: everything in the stream, read or not, kept in `m_str`. */
    method Str() returns (r: string)
      modifies this
      ensures r == strm.text && last == r && strm == old(strm)
    {
      last := strm.text;
      r := last;
    }

    /** `operator>>(string&)`: the text up to the next terminator, which is dropped. */
    method GetString(var0: string) returns (v: string)
      requires Valid()
      modifies this
      ensures Valid() && last == old(last)
      ensures Got(strm, v) == GetLine(old(strm), var0)
    {
      var g := GetLine(strm, var0);
      strm := g.s;
      v := g.line;
    }

    /**
     * The template `operator>>(T&)`: the next token goes into a fresh stream
     * `tmp`, and `scan` is `tmp >> var` for the type; unless that reached the
     * end of the token it throws, after `var` has been stored.
     */
    method GetValue<T>(scan: string -> Scanned<T>, var0: T) returns (v: T, thrown: Option<string>)
      requires Valid()
      modifies this
      ensures Valid() && last == old(last)
      ensures strm == GetLine(old(strm), "").s
      ensures v == match scan(GetLine(old(strm), "").line).stored
                   case Some(x) => x
                   case None => var0
      ensures thrown == if scan(GetLine(old(strm), "").line).atEnd then None else Some(FormatError)
    {
      var g := GetLine(strm, "");
      strm := g.s;
      var tmp := Write(Opened(""), g.line);
      assert tmp.text == g.line;
      var sc := scan(tmp.text);
      v := match sc.stored
           case Some(x) => x
           case None => var0;
      thrown := if sc.atEnd then None else Some(FormatError);
    }

    /** `operator>>(buf_t&)`: clears the buffer, then decodes the next token. */
    method GetBuf() returns (v: seq<Byte>, thrown: Option<string>)
      requires Valid()
      modifies this
      ensures Valid() && last == old(last)
      ensures strm == GetLine(old(strm), "").s
      ensures thrown == None || thrown == Some(FormatError)
      ensures thrown == None <==> IsHexText(CStr(GetLine(old(strm), "").line))
      ensures thrown == None ==> HexDecode(CStr(GetLine(old(strm), "").line)) == Some(v)
    {
      var g := GetLine(strm, "");
      strm := g.s;
      v, thrown := DecodePairs(g.line);
    }

    /** The template `operator<<(const T&)`: the value as `show` prints it, then EOV. */
    method PutValue<T>(show: T -> string, x: T)
      requires Valid()
      modifies this
      ensures Valid() && last == old(last)
      ensures strm == Write(old(strm), show(x) + [Eov])
    {
      strm := Write(strm, show(x));
      strm := Write(strm, [Eov]);
      WriteJoin(old(strm), show(x), [Eov]);
    }

    /** `operator<<(const buf_t&)`: two upper-case digits per byte, high first, then EOV. */
    method PutBuf(bytes: seq<Byte>)
      requires Valid()
      modifies this
      ensures Valid() && last == old(last)
      ensures strm == Write(old(strm), HexText(bytes) + [Eov])
    {
      var i := 0;
      while i < |bytes|
        invariant 0 <= i <= |bytes|
        invariant strm == Write(old(strm), HexText(bytes[..i]))
        invariant last == old(last)
      {
        HexWriteStep(old(strm), bytes, i);
        strm := Write(strm, [UpperHexDigit(bytes[i] / 16)]);
        strm := Write(strm, [UpperHexDigit(bytes[i] % 16)]);
        i := i + 1;
      }
      assert bytes[..|bytes|] == bytes;
      strm := Write(strm, [Eov]);
      WriteJoin(old(strm), HexText(bytes), [Eov]);
    }
  }
}
