// The text form that vp_iobuf_t (scim-vim/autoload/vp_iobuf.c) and its C++
// twin vp::iobuf_t (trunk/scim-vim/autoload/scim-vim.cpp) exchange with Vim:
// a sequence of items, each terminated by the End Of Value character 0x01.
// Strings travel as they are, numbers in decimal, pointers as `%p` prints
// them, and binary data as two upper-case hexadecimal digits per byte.
module VpWire {
  import opened CLib

  /** VP_EOV, the item terminator. */
  const Eov: char := '\U{01}'

  predicate NoNul(s: string) { forall i :: 0 <= i < |s| ==> s[i] != '\0' }

  predicate NoEov(s: string) { forall i :: 0 <= i < |s| ==> s[i] != Eov }

  /** A string that travels as one item: a C string without a terminator in it. */
  predicate Plain(s: string) { NoNul(s) && NoEov(s) }

  // ------------------------------------------------------------------ tokens

  /** `strchr(s, VP_EOV)` as an offset; `|s|` when there is none. */
  function EovIndex(s: string): (k: nat)
    ensures k <= |s|
  {
    if s == [] || s[0] == Eov then 0 else 1 + EovIndex(s[1..])
  }

  /** The offset is that of the first terminator. */
  lemma {:induction false} EovIndexMeans(s: string)
    ensures forall i :: 0 <= i < EovIndex(s) ==> s[i] != Eov
    ensures EovIndex(s) < |s| ==> s[EovIndex(s)] == Eov
  {
    if s != [] && s[0] != Eov {
      EovIndexMeans(s[1..]);
    }
  }

  /** What vp_iobuf_get_str finds at the head of the pending text. */
  datatype Token = Took(token: string, rest: string) | NoData | Unterminated

  function NextToken(pending: string): Token
  {
    if pending == [] then NoData
    else
      var k := EovIndex(pending);
      if k == |pending| then Unterminated else Took(pending[..k], pending[k + 1..])
  }

  /** The token ends at the first terminator. */
  lemma {:induction false} NextTokenAt(pending: string, k: nat)
    requires k == EovIndex(pending) < |pending|
    ensures NextToken(pending) == Took(pending[..k], pending[k + 1..])
  {
  }

  /** A token is everything up to the first terminator, which it drops. */
  lemma {:induction false} NextTokenMeans(pending: string)
    ensures NextToken(pending) == NoData <==> pending == []
    ensures NextToken(pending) == Unterminated <==> pending != [] && NoEov(pending)
    ensures NextToken(pending).Took? ==>
      pending == NextToken(pending).token + [Eov] + NextToken(pending).rest &&
      NoEov(NextToken(pending).token)
  {
    EovIndexMeans(pending);
    if pending != [] {
      var k := EovIndex(pending);
      if k < |pending| {
        assert pending == pending[..k] + [Eov] + pending[k + 1..];
      }
    }
  }

  /** The inverse direction: a terminated item is read back as that item. */
  lemma {:induction false} NextTokenOfItem(s: string, rest: string)
    requires NoEov(s)
    ensures NextToken(s + [Eov] + rest) == Took(s, rest)
  {
    var p := s + [Eov] + rest;
    assert p[|s|] == Eov;
    var k := EovIndex(p);
    EovIndexMeans(p);
    assert forall i :: 0 <= i < |s| ==> p[i] == s[i];
    assert p[..k] == s;
    assert p[k + 1..] == rest;
  }

  // ------------------------------------------------------------------ binary

  /** The two digits vp_iobuf_put_bin writes for one byte. */
  function HexPair(b: Byte): string
  {
    [UpperHexDigit(b / 16), UpperHexDigit(b % 16)]
  }

  function HexText(bytes: seq<Byte>): (r: string)
    ensures |r| == 2 * |bytes|
  {
    if bytes == [] then [] else HexText(bytes[..|bytes| - 1]) + HexPair(bytes[|bytes| - 1])
  }

  /** Byte `i` of the text is the pair at offsets 2i and 2i+1, high digit first. */
  lemma {:induction false} HexTextAt(bytes: seq<Byte>, i: nat)
    requires i < |bytes|
    ensures HexText(bytes)[2 * i] == UpperHexDigit(bytes[i] / 16)
    ensures HexText(bytes)[2 * i + 1] == UpperHexDigit(bytes[i] % 16)
    decreases |bytes|
  {
    var n := |bytes| - 1;
    if i < n {
      HexTextAt(bytes[..n], i);
    }
  }

  /** The value of the digit pair at byte offset `i` of a token. */
  function PairValue(t: string, i: nat): (v: Byte)
    requires 2 * i + 1 < |t| && IsHexDigit(t[2 * i]) && IsHexDigit(t[2 * i + 1])
  {
    HexByte(t[2 * i], t[2 * i + 1])
  }

  /** The byte two hexadecimal digits spell, high digit first. */
  function HexByte(hi: char, lo: char): (v: Byte)
    requires IsHexDigit(hi) && IsHexDigit(lo)
  {
    HexValue(hi) * 16 + HexValue(lo)
  }

  predicate IsHexText(t: string)
  {
    |t| % 2 == 0 && forall i :: 0 <= i < |t| ==> IsHexDigit(t[i])
  }

  /** vp_iobuf_get_bin's reading of a token: pairs of digits of either case. */
  function HexDecode(t: string): (r: Option<seq<Byte>>)
    ensures r.Some? <==> IsHexText(t)
    ensures r.Some? ==> |r.value| * 2 == |t|
    ensures r.Some? ==> forall i :: 0 <= i < |r.value| ==> r.value[i] == PairValue(t, i)
  {
    if IsHexText(t) then Some(seq(|t| / 2, i requires 0 <= i < |t| / 2 => PairValue(t, i)))
    else None
  }

  lemma {:induction false} HexRoundTrip(bytes: seq<Byte>)
    ensures HexDecode(HexText(bytes)) == Some(bytes)
  {
    var t := HexText(bytes);
    forall i | 0 <= i < |bytes|
      ensures IsHexDigit(t[2 * i]) && IsHexDigit(t[2 * i + 1]) && PairValue(t, i) == bytes[i]
    {
      HexTextAt(bytes, i);
    }
    forall j | 0 <= j < |t|
      ensures IsHexDigit(t[j])
    {
      HexTextAt(bytes, j / 2);
      assert j == 2 * (j / 2) || j == 2 * (j / 2) + 1;
    }
    assert HexDecode(t).value == bytes;
  }

  lemma {:induction false} HexTextPlain(bytes: seq<Byte>)
    ensures Plain(HexText(bytes))
  {
    var t := HexText(bytes);
    forall j | 0 <= j < |t|
      ensures IsHexDigit(t[j])
    {
      HexTextAt(bytes, j / 2);
      assert j == 2 * (j / 2) || j == 2 * (j / 2) + 1;
    }
  }

  // ------------------------------------------------------------------ numbers

  /** The token without its sign, after leading white space. */
  function Unsigned(t: string): string
  {
    if t != [] && (t[0] == '-' || t[0] == '+') then t[1..] else t
  }

  /**
   * `sscanf(str, "%d%n", &num, &end) == 1 && str[end] == 0`: white space, an
   * optional sign and at least one digit, and nothing after the digits.
   */
  function ScanDecimal(token: string): Option<int>
  {
    var t := SkipSpaces(token);
    var d := DigitPrefix(Unsigned(t));
    if d == [] || |d| != |Unsigned(t)| then None
    else if t[0] == '-' then Some(-(DigitsValue(d) as int))
    else Some(DigitsValue(d))
  }

  /** A number `%d` printed is scanned back. */
  lemma {:induction false} ScanDecimalRoundTrip(n: int)
    ensures ScanDecimal(DecimalString(n)) == Some(n)
  {
    var s := DecimalString(n);
    if n < 0 {
      assert s[1..] == NatString(-n);
      DigitPrefixOfDigits(NatString(-n), []);
      assert NatString(-n) + [] == NatString(-n);
    } else {
      assert s[0] == NatString(n)[0];
      DigitPrefixOfDigits(NatString(n), []);
      assert NatString(n) + [] == NatString(n);
    }
  }

  /** What the scan accepts, `atoi` reads the same way. */
  lemma {:induction false} ScanDecimalAgreesWithAtoi(token: string)
    ensures ScanDecimal(token).Some? ==> ScanDecimal(token).value == Atoi(token)
  {
  }

  lemma {:induction false} DecimalPlain(n: int)
    ensures Plain(DecimalString(n))
  {
    var s := DecimalString(n);
    if n < 0 {
      assert s[1..] == NatString(-n);
      forall i | 1 <= i < |s| ensures IsDigit(s[i]) { assert s[i] == NatString(-n)[i - 1]; }
    }
  }

  // ------------------------------------------------------------------ items

  /** The `%d` and `%p` conversions of vp_iobuf_get_fmt and vp_iobuf_put_fmt. */
  datatype Conv = DecimalConv | PointerConv

  /**
   * What the C library does for `%p`, which is implementation-defined: the
   * text `vsprintf` writes for a pointer value, and what `sscanf("%p%n")`
   * reads from a whole token.
   */
  datatype Libc = Libc(printPointer: int -> string, scanPointer: string -> Option<int>)

  function Print(lib: Libc, c: Conv, x: int): string
  {
    match c
    case DecimalConv => DecimalString(x)
    case PointerConv => lib.printPointer(x)
  }

  function Scan(lib: Libc, c: Conv, token: string): Option<int>
  {
    match c
    case DecimalConv => ScanDecimal(token)
    case PointerConv => lib.scanPointer(token)
  }

  /** One argument of get_vars/put_vars, by its format letter s, b, d or p. */
  datatype Value = Str(s: string) | Bin(bytes: seq<Byte>) | Num(n: int) | Ptr(p: int)

  function Letter(v: Value): char
  {
    match v
    case Str(_) => 's'
    case Bin(_) => 'b'
    case Num(_) => 'd'
    case Ptr(_) => 'p'
  }

  function Letters(vals: seq<Value>): (fmt: string)
    ensures |fmt| == |vals| && forall i :: 0 <= i < |vals| ==> fmt[i] == Letter(vals[i])
  {
    if vals == [] then [] else [Letter(vals[0])] + Letters(vals[1..])
  }

  predicate IsLetter(c: char) { c == 's' || c == 'b' || c == 'd' || c == 'p' }

  /** How many leading letters of a format the loops handle before an unknown one. */
  function KnownPrefix(fmt: string): (k: nat)
    ensures k <= |fmt|
    ensures forall i :: 0 <= i < k ==> IsLetter(fmt[i])
    ensures k < |fmt| ==> !IsLetter(fmt[k])
  {
    if fmt == [] || !IsLetter(fmt[0]) then 0 else 1 + KnownPrefix(fmt[1..])
  }

  /** The arguments a format reads, of the types its letters name. */
  predicate ArgsFit(fmt: string, args: seq<Value>)
  {
    KnownPrefix(fmt) <= |args| &&
    forall i :: 0 <= i < KnownPrefix(fmt) ==> Letter(args[i]) == fmt[i]
  }

  /** The text of one item without its terminator. */
  function ItemText(lib: Libc, v: Value): string
  {
    match v
    case Str(s) => s
    case Bin(b) => HexText(b)
    case Num(n) => Print(lib, DecimalConv, n)
    case Ptr(p) => Print(lib, PointerConv, p)
  }

  /** A value vp_iobuf_put_str can write: its text is a C string. */
  predicate Writable(lib: Libc, v: Value)
  {
    match v
    case Str(s) => NoNul(s)
    case Ptr(p) => NoNul(lib.printPointer(p))
    case _ => true
  }

  /** A value whose item reads back as itself. */
  predicate Faithful(lib: Libc, v: Value)
  {
    match v
    case Str(s) => Plain(s)
    case Ptr(p) => Plain(lib.printPointer(p)) && lib.scanPointer(lib.printPointer(p)) == Some(p)
    case _ => true
  }

  /** The text put_vars writes for a list of values. */
  function Items(lib: Libc, vals: seq<Value>): string
  {
    if vals == [] then [] else Items(lib, vals[..|vals| - 1]) + ItemText(lib, vals[|vals| - 1]) + [Eov]
  }

  /** Writing one more value appends its item. */
  lemma {:induction false} ItemsSnoc(lib: Libc, vals: seq<Value>, i: nat)
    requires i < |vals|
    ensures Items(lib, vals[..i + 1]) == Items(lib, vals[..i]) + ItemText(lib, vals[i]) + [Eov]
  {
    assert vals[..i + 1][..i] == vals[..i];
  }

  /** Text that grew by one item after the items of `vals[..i]` now ends with those of `vals[..i + 1]`. */
  lemma {:induction false} ItemsGrow(lib: Libc, vals: seq<Value>, i: nat, start: string, before: string, after: string)
    requires i < |vals|
    requires before == start + Items(lib, vals[..i])
    requires after == before + ItemText(lib, vals[i]) + [Eov]
    ensures after == start + Items(lib, vals[..i + 1])
  {
    ItemsSnoc(lib, vals, i);
  }

  /** The items read one by one from the front. */
  lemma {:induction false} ItemsFront(lib: Libc, vals: seq<Value>)
    requires vals != []
    ensures Items(lib, vals) == ItemText(lib, vals[0]) + [Eov] + Items(lib, vals[1..])
    decreases |vals|
  {
    var n := |vals| - 1;
    if n > 0 {
      ItemsFront(lib, vals[..n]);
      assert vals[..n][1..] == vals[1..][..n - 1];
      assert vals[..n][0] == vals[0];
    } else {
      assert vals[1..] == [];
      assert vals[..n] == [];
    }
  }

  lemma {:induction false} ItemsNoNul(lib: Libc, vals: seq<Value>)
    requires forall i :: 0 <= i < |vals| ==> Writable(lib, vals[i])
    ensures NoNul(Items(lib, vals))
    decreases |vals|
  {
    if vals != [] {
      var n := |vals| - 1;
      ItemsNoNul(lib, vals[..n]);
      match vals[n]
      case Str(_) =>
      case Ptr(_) =>
      case Bin(b) => HexTextPlain(b);
      case Num(x) => DecimalPlain(x);
    }
  }

  // ------------------------------------------------------------------ get side

  const NoDataError := "vp_iobuf_get_str: no data"
  const EovError := "vp_iobuf_get_str: EOV error"
  const BinFormatError := "vp_iobuf_get_bin: format error"
  const ScanError := "vp_iobuf_get_fmt: sscanf error"
  const GetUnknownError := "vp_iobuf_get_vars: unknown format"
  const PutUnknownError := "vp_iobuf_put_vars: unknown format"
  const ReserveError := "vp_iobuf_reserve: realloc error"
  const TooManyError := "vp_iobuf_get_args: too many arguments"

  /** The values read so far, the text left and the error, if any. */
  datatype Parsed = Parsed(vals: seq<Value>, rest: string, err: Option<string>)

  /** How the token of a known letter becomes a value. */
  function Decode(lib: Libc, c: char, token: string): Option<Value>
    requires IsLetter(c)
  {
    if c == 's' then Some(Str(token))
    else if c == 'b' then
      match HexDecode(token)
      case Some(b) => Some(Bin(b))
      case None => None
    else
      var conv := if c == 'd' then DecimalConv else PointerConv;
      match Scan(lib, conv, token)
      case Some(x) => Some(if c == 'd' then Num(x) else Ptr(x))
      case None => None
  }

  /** One turn of vp_iobuf_get_vars_v. */
  function GetOne(lib: Libc, c: char, pending: string): (r: Parsed)
    ensures |r.vals| <= 1 && (r.err == None <==> |r.vals| == 1)
  {
    if !IsLetter(c) then Parsed([], pending, Some(GetUnknownError))
    else match NextToken(pending)
      case NoData => Parsed([], pending, Some(NoDataError))
      case Unterminated => Parsed([], pending, Some(EovError))
      case Took(t, rest) =>
        match Decode(lib, c, t)
        case Some(v) => Parsed([v], rest, None)
        case None => Parsed([], rest, Some(if c == 'b' then BinFormatError else ScanError))
  }

  /** vp_iobuf_get_vars_v: one item per letter until the first error. */
  function GetVarsSpec(lib: Libc, fmt: string, pending: string): (r: Parsed)
    ensures r.err == None ==> |r.vals| == |fmt|
    ensures |r.vals| <= |fmt|
    decreases |fmt|, 1
  {
    if fmt == [] then Parsed([], pending, None) else GetVarsCons(lib, fmt, pending)
  }

  /** A non-empty format: the first letter's item, then the rest if it was read. */
  function GetVarsCons(lib: Libc, fmt: string, pending: string): (r: Parsed)
    requires fmt != []
    ensures r.err == None ==> |r.vals| == |fmt|
    ensures |r.vals| <= |fmt|
    decreases |fmt|, 0
  {
    var one := GetOne(lib, fmt[0], pending);
    if one.err.Some? then one
    else
      var more := GetVarsSpec(lib, fmt[1..], one.rest);
      Parsed(one.vals + more.vals, more.rest, more.err)
  }

  /** A one-letter format reads one item. */
  lemma {:induction false} GetVarsOne(lib: Libc, c: char, pending: string)
    ensures GetVarsSpec(lib, [c], pending) == GetOne(lib, c, pending)
  {
    var one := GetOne(lib, c, pending);
    assert GetVarsSpec(lib, [c], pending) == GetVarsCons(lib, [c], pending);
    assert [c][1..] == [];
    if one.err == None {
      assert GetVarsSpec(lib, [], one.rest) == Parsed([], one.rest, None);
      assert one.vals + [] == one.vals;
    }
  }

  /**
   * The FIFO promise: what put_vars writes for a list of values, get_vars
   * with the same letters reads back, value for value, and leaves whatever
   * followed untouched.
   */
  lemma {:induction false} GetVarsOfItems(lib: Libc, vals: seq<Value>, rest: string)
    requires forall i :: 0 <= i < |vals| ==> Faithful(lib, vals[i])
    ensures GetVarsSpec(lib, Letters(vals), Items(lib, vals) + rest) == Parsed(vals, rest, None)
    decreases |vals|
  {
    if vals != [] {
      var tail := Items(lib, vals[1..]) + rest;
      ItemsFront(lib, vals);
      assert Items(lib, vals) + rest == ItemText(lib, vals[0]) + [Eov] + tail;
      GetOneOfItem(lib, vals[0], tail);
      assert Letters(vals)[1..] == Letters(vals[1..]);
      GetVarsOfItems(lib, vals[1..], rest);
      assert [vals[0]] + vals[1..] == vals;
    } else {
      assert Items(lib, vals) + rest == rest;
    }
  }

  /** One item read back: the token is the item's text, and its text decodes to the value. */
  lemma {:induction false} GetOneOfItem(lib: Libc, v: Value, rest: string)
    requires Faithful(lib, v)
    ensures GetOne(lib, Letter(v), ItemText(lib, v) + [Eov] + rest) == Parsed([v], rest, None)
  {
    assert Plain(ItemText(lib, v)) && Decode(lib, Letter(v), ItemText(lib, v)) == Some(v) by {
      match v
      case Str(_) =>
      case Ptr(_) =>
      case Bin(b) => HexTextPlain(b); HexRoundTrip(b);
      case Num(x) => DecimalPlain(x); ScanDecimalRoundTrip(x);
    }
    NextTokenOfItem(ItemText(lib, v), rest);
  }

  /** The turn for letter `i` of a format: an error ends the reading, otherwise the rest follows. */
  lemma {:induction false} GetVarsAt(lib: Libc, fmt: string, i: nat, pending: string)
    requires i < |fmt|
    ensures GetVarsSpec(lib, fmt[i..], pending) == Chain(lib, GetVarsSpec(lib, [fmt[i]], pending), fmt[i + 1..])
  {
    assert fmt[i..][0] == fmt[i];
    assert fmt[i..][1..] == fmt[i + 1..];
    GetVarsOne(lib, fmt[i], pending);
  }

  /** The loop of get_vars after turn `i`: the values so far and what the rest of the format reads. */
  lemma {:induction false} GetVarsLoopStep(lib: Libc, fmt: string, i: nat, whole: Parsed, vals: seq<Value>, before: string, one: Parsed)
    requires i < |fmt|
    requires whole == Prepend(vals, GetVarsSpec(lib, fmt[i..], before))
    requires one == GetVarsSpec(lib, [fmt[i]], before)
    ensures one.err == None ==> whole == Prepend(vals + one.vals, GetVarsSpec(lib, fmt[i + 1..], one.rest))
    ensures one.err.Some? ==> whole == Parsed(vals + one.vals, one.rest, one.err)
  {
    GetVarsAt(lib, fmt, i, before);
    GetVarsOne(lib, fmt[i], before);
    if one.err == None {
      var more := GetVarsSpec(lib, fmt[i + 1..], one.rest);
      assert vals + (one.vals + more.vals) == vals + one.vals + more.vals;
    } else {
      assert vals + one.vals == vals;
    }
  }

  /** Once the whole format is read, the values read so far are all of them. */
  lemma {:induction false} GetVarsDone(lib: Libc, fmt: string, i: nat, whole: Parsed, vals: seq<Value>, rest: string)
    requires i == |fmt|
    requires whole == Prepend(vals, GetVarsSpec(lib, fmt[i..], rest))
    ensures whole == Parsed(vals, rest, None)
  {
    assert fmt[i..] == [];
    assert vals + [] == vals;
  }

  /** What a format reads after a first turn `one`, when that turn succeeded. */
  function Chain(lib: Libc, one: Parsed, fmt: string): Parsed
  {
    if one.err.Some? then one else Prepend(one.vals, GetVarsSpec(lib, fmt, one.rest))
  }

  /** The values read before the rest of a format, then what the rest reads. */
  function Prepend(vals: seq<Value>, p: Parsed): Parsed
  {
    Parsed(vals + p.vals, p.rest, p.err)
  }

  /** vp_iobuf_get_args after a successful reset: every letter read, nothing left over. */
  function GetArgsSpec(lib: Libc, args: string, fmt: string): (r: Parsed)
    ensures r.err == None ==> r.rest == [] && |r.vals| == |fmt|
  {
    var p := GetVarsSpec(lib, fmt, args);
    if p.err == None && p.rest != [] then Parsed(p.vals, p.rest, Some(TooManyError)) else p
  }

  /** A call's arguments, written by put_vars, are exactly what get_args accepts. */
  lemma {:induction false} GetArgsOfItems(lib: Libc, vals: seq<Value>)
    requires forall i :: 0 <= i < |vals| ==> Faithful(lib, vals[i])
    ensures GetArgsSpec(lib, Items(lib, vals), Letters(vals)) == Parsed(vals, [], None)
  {
    GetVarsOfItems(lib, vals, []);
    assert Items(lib, vals) + [] == Items(lib, vals);
  }

  /** A trailing item the format does not ask for is refused. */
  lemma {:induction false} GetArgsRefusesExtra(lib: Libc, vals: seq<Value>, extra: Value)
    requires forall i :: 0 <= i < |vals| ==> Faithful(lib, vals[i])
    ensures GetArgsSpec(lib, Items(lib, vals + [extra]), Letters(vals)).err == Some(TooManyError)
  {
    var more := ItemText(lib, extra) + [Eov];
    assert (vals + [extra])[..|vals|] == vals;
    assert Items(lib, vals + [extra]) == Items(lib, vals) + more;
    GetVarsOfItems(lib, vals, more);
  }
}
