// C-library vocabulary shared by every module: byte and UTF-16 unit types,
// errno values, and the few libc routines the modelled code relies on
// (atoi, an ASCII lstrcmpi, decimal and hexadecimal digit handling).
module CLib {

  /** An unsigned 8-bit value, as `unsigned char` holds it. */
  type Byte = x: int | 0 <= x < 0x100

  /** A UTF-16 code unit, as Windows `wchar_t` holds it. */
  type Unit16 = x: int | 0 <= x < 0x1_0000

  datatype Option<T> = None | Some(value: T)

  /** The errno values the iconv implementations report. */
  datatype Errno = EINVAL | EILSEQ | E2BIG

  /** The result of a C routine that returns a count or -1 with errno set. */
  datatype Status = Ok(n: int) | Err(e: Errno)

  /**
   * `s` with `w` written over it starting at `pos` (memcpy into a buffer),
   * one element at a time.
   */
  function Overwrite<T>(s: seq<T>, pos: nat, w: seq<T>): (r: seq<T>)
    requires pos + |w| <= |s|
    ensures |r| == |s|
    decreases |w|
  {
    if w == [] then s
    else Overwrite(s[pos := w[0]], pos + 1, w[1..])
  }

  /** What `Overwrite` leaves at each index: `w` over `[pos, pos + |w|)`, `s` elsewhere. */
  lemma {:induction false} OverwriteIndex<T>(s: seq<T>, pos: nat, w: seq<T>)
    requires pos + |w| <= |s|
    ensures forall i :: 0 <= i < pos ==> Overwrite(s, pos, w)[i] == s[i]
    ensures forall i :: 0 <= i < |w| ==> Overwrite(s, pos, w)[pos + i] == w[i]
    ensures forall i :: pos + |w| <= i < |s| ==> Overwrite(s, pos, w)[i] == s[i]
    decreases |w|
  {
    if w != [] {
      var s' := s[pos := w[0]];
      OverwriteIndex(s', pos + 1, w[1..]);
      forall i | 0 <= i < |w| ensures Overwrite(s, pos, w)[pos + i] == w[i] {
        if i > 0 {
          assert Overwrite(s', pos + 1, w[1..])[pos + 1 + (i - 1)] == w[1..][i - 1];
        }
      }
    }
  }

  /** Copying to the start: the first `|w|` elements are `w`. */
  lemma {:induction false} OverwriteHead<T>(s: seq<T>, w: seq<T>)
    requires |w| <= |s|
    ensures Overwrite(s, 0, w)[..|w|] == w
  {
    OverwriteIndex(s, 0, w);
  }

  /** A sequence that agrees with `w` over `[pos, pos + |w|)` and with `s` elsewhere is the copy. */
  lemma {:induction false} OverwriteFrom<T>(s: seq<T>, pos: nat, w: seq<T>, t: seq<T>)
    requires pos + |w| <= |s| == |t|
    requires forall i :: 0 <= i < |s| && !(pos <= i < pos + |w|) ==> t[i] == s[i]
    requires forall i :: 0 <= i < |w| ==> t[pos + i] == w[i]
    ensures t == Overwrite(s, pos, w)
  {
    OverwriteIndex(s, pos, w);
    var r := Overwrite(s, pos, w);
    forall i | 0 <= i < |s| ensures t[i] == r[i] {
      if pos <= i < pos + |w| {
        assert t[pos + (i - pos)] == w[i - pos];
      }
    }
  }

  lemma {:induction false} OverwriteAppend<T>(s: seq<T>, pos: nat, a: seq<T>, b: seq<T>)
    requires pos + |a| + |b| <= |s|
    ensures Overwrite(Overwrite(s, pos, a), pos + |a|, b) == Overwrite(s, pos, a + b)
  {
    var l := Overwrite(Overwrite(s, pos, a), pos + |a|, b);
    var r := Overwrite(s, pos, a + b);
    OverwriteIndex(s, pos, a);
    OverwriteIndex(Overwrite(s, pos, a), pos + |a|, b);
    OverwriteIndex(s, pos, a + b);
    assert |l| == |r|;
    forall i | 0 <= i < |l| ensures l[i] == r[i] {
      if i < pos {
      } else if i < pos + |a| {
        assert r[pos + (i - pos)] == (a + b)[i - pos];
      } else if i < pos + |a| + |b| {
        assert r[pos + (i - pos)] == (a + b)[i - pos];
      }
    }
  }

  /** Two consecutive copies into a buffer are one copy of their concatenation. */
  lemma {:induction false} OverwriteStep<T>(s0: seq<T>, s1: seq<T>, s2: seq<T>, pos: nat, a: seq<T>, b: seq<T>)
    requires pos + |a| + |b| <= |s0|
    requires s1 == Overwrite(s0, pos, a) && s2 == Overwrite(s1, pos + |a|, b)
    ensures s2 == Overwrite(s0, pos, a + b)
  {
    OverwriteAppend(s0, pos, a, b);
  }

  /** A prefix of `n + m` elements is the first `n` followed by the next `m`. */
  lemma {:induction false} TakeSplit<T>(s: seq<T>, n: nat, m: nat)
    requires n + m <= |s|
    ensures s[..n + m] == s[..n] + s[n..][..m]
  {
  }

  /** memcpy(dst + pos, src, |src|) */
  method CopyInto<T>(dst: array<T>, pos: nat, src: seq<T>)
    requires pos + |src| <= dst.Length
    modifies dst
    ensures dst[..] == Overwrite(old(dst[..]), pos, src)
  {
    var i := 0;
    while i < |src|
      invariant 0 <= i <= |src|
      invariant dst[..] == Overwrite(old(dst[..]), pos, src[..i])
    {
      OverwriteAppend(old(dst[..]), pos, src[..i], [src[i]]);
      assert src[..i] + [src[i]] == src[..i + 1];
      dst[pos + i] := src[i];
      i := i + 1;
    }
    assert src[..i] == src;
  }

  // ---------------------------------------------------------------- characters

  /** ASCII upper-casing, the folding the model uses for `lstrcmpi`. */
  function UpperAscii(c: char): char
  {
    if 'a' <= c <= 'z' then (c as int - 32) as char else c
  }

  /** `lstrcmpi(a, b) == 0` restricted to ASCII case folding. */
  predicate EqualsIgnoreCase(a: string, b: string)
  {
    |a| == |b| && SameFolded(a, b)
  }

  predicate SameFolded(a: string, b: string)
    requires |a| == |b|
  {
    a == [] || (UpperAscii(a[0]) == UpperAscii(b[0]) && SameFolded(a[1..], b[1..]))
  }

  lemma {:induction false} SameFoldedMeans(a: string, b: string)
    requires |a| == |b|
    ensures SameFolded(a, b) <==> forall i :: 0 <= i < |a| ==> UpperAscii(a[i]) == UpperAscii(b[i])
    decreases |a|
  {
    if a != [] {
      SameFoldedMeans(a[1..], b[1..]);
      if SameFolded(a, b) {
        forall i | 0 <= i < |a| ensures UpperAscii(a[i]) == UpperAscii(b[i]) {
          if i > 0 {
            assert a[1..][i - 1] == a[i] && b[1..][i - 1] == b[i];
          }
        }
      } else if UpperAscii(a[0]) == UpperAscii(b[0]) {
        var j :| 0 <= j < |a| - 1 && UpperAscii(a[1..][j]) != UpperAscii(b[1..][j]);
        assert UpperAscii(a[j + 1]) != UpperAscii(b[j + 1]);
      }
    }
  }

  /** The C string accessor: reading past the end of `s` reads its NUL terminator. */
  function CharAt(s: string, i: nat): (c: char)
    ensures i < |s| ==> c == s[i]
    ensures i >= |s| ==> c == '\0'
  {
    if i < |s| then s[i] else '\0'
  }

  predicate IsDigit(c: char) { '0' <= c <= '9' }

  /** `isspace` in the C locale. */
  predicate IsSpace(c: char)
  {
    c == ' ' || c == '\t' || c == '\n' || c == '\U{0B}' || c == '\U{0C}' || c == '\r'
  }

  // ---------------------------------------------------------------- atoi

  function SkipSpaces(s: string): (r: string)
    ensures |r| <= |s| && r == s[|s| - |r|..]
    ensures r == [] || !IsSpace(r[0])
    ensures forall i :: 0 <= i < |s| - |r| ==> IsSpace(s[i])
  {
    if s != [] && IsSpace(s[0]) then SkipSpaces(s[1..]) else s
  }

  /** The longest prefix of `s` made of decimal digits. */
  function DigitPrefix(s: string): (r: string)
    ensures |r| <= |s| && r == s[..|r|]
    ensures forall i :: 0 <= i < |r| ==> IsDigit(r[i])
    ensures |r| == |s| || !IsDigit(s[|r|])
  {
    if s != [] && IsDigit(s[0]) then [s[0]] + DigitPrefix(s[1..]) else []
  }

  /** The value of a string of decimal digits, most significant first. */
  function DigitsValue(d: string): nat
    requires forall i :: 0 <= i < |d| ==> IsDigit(d[i])
  {
    if d == [] then 0
    else
      assert IsDigit(d[|d| - 1]);
      DigitsValue(d[..|d| - 1]) * 10 + (d[|d| - 1] as int - '0' as int)
  }

  /**
   * `atoi`: skips leading white space, takes an optional sign and the digits
   * that follow, and ignores the rest.  The model's integers do not overflow.
   */
  function Atoi(s: string): int
  {
    var t := SkipSpaces(s);
    if t != [] && t[0] == '-' then -(DigitsValue(DigitPrefix(t[1..])) as int)
    else if t != [] && t[0] == '+' then DigitsValue(DigitPrefix(t[1..]))
    else DigitsValue(DigitPrefix(t))
  }

  /** The decimal rendering `printf("%d")` produces. */
  function DecimalString(n: int): (r: string)
    ensures r != []
    ensures r[0] == '-' <==> n < 0
    ensures n >= 0 ==> forall i :: 0 <= i < |r| ==> IsDigit(r[i])
  {
    if n < 0 then "-" + NatString(-n) else NatString(n)
  }

  function NatString(n: nat): (r: string)
    ensures r != []
    ensures forall i :: 0 <= i < |r| ==> IsDigit(r[i])
    ensures DigitsValue(r) == n
    decreases n
  {
    var d := [('0' as int + n % 10) as char];
    if n < 10 then d
    else
      var r := NatString(n / 10) + d;
      assert r[..|r| - 1] == NatString(n / 10);
      r
  }

  lemma {:induction false} DigitPrefixOfDigits(d: string, rest: string)
    requires forall i :: 0 <= i < |d| ==> IsDigit(d[i])
    requires rest == [] || !IsDigit(rest[0])
    ensures DigitPrefix(d + rest) == d
    decreases |d|
  {
    if d == [] {
      assert d + rest == rest;
    } else {
      var s := d + rest;
      assert s[0] == d[0] && IsDigit(d[0]);
      assert s[1..] == d[1..] + rest;
      DigitPrefixOfDigits(d[1..], rest);
      assert DigitPrefix(s) == [d[0]] + DigitPrefix(s[1..]);
      assert [d[0]] + d[1..] == d;
    }
  }

  /** `atoi` reads back what `%d` printed, whatever follows a non-digit. */
  lemma {:induction false} AtoiDecimal(n: int, rest: string)
    requires rest == [] || !IsDigit(rest[0])
    ensures Atoi(DecimalString(n) + rest) == n
  {
    if n < 0 {
      AtoiNegative(n, rest);
    } else {
      AtoiDigits(NatString(n), rest);
    }
  }

  lemma {:induction false} AtoiNegative(n: int, rest: string)
    requires n < 0 && (rest == [] || !IsDigit(rest[0]))
    ensures Atoi(DecimalString(n) + rest) == n
  {
    var d := NatString(-n);
    ConsAppend('-', d, rest);
    AtoiSigned(d, rest);
  }

  lemma {:induction false} ConsAppend<T>(c: T, a: seq<T>, b: seq<T>)
    ensures [c] + a + b == [c] + (a + b)
  {
  }

  lemma {:induction false} AtoiDigits(d: string, rest: string)
    requires d != [] && forall i :: 0 <= i < |d| ==> IsDigit(d[i])
    requires rest == [] || !IsDigit(rest[0])
    ensures Atoi(d + rest) == DigitsValue(d)
  {
    var s := d + rest;
    assert s[0] == d[0] && IsDigit(d[0]);
    NoSpaceToSkip(s);
    DigitPrefixOfDigits(d, rest);
    assert Atoi(s) == DigitsValue(DigitPrefix(s));
  }

  lemma {:induction false} NoSpaceToSkip(s: string)
    requires s != [] && !IsSpace(s[0])
    ensures SkipSpaces(s) == s
  {
  }

  lemma {:induction false} AtoiSigned(d: string, rest: string)
    requires forall i :: 0 <= i < |d| ==> IsDigit(d[i])
    requires rest == [] || !IsDigit(rest[0])
    ensures Atoi(['-'] + (d + rest)) == -(DigitsValue(d) as int)
  {
    var s := ['-'] + (d + rest);
    NoSpaceToSkip(s);
    assert s[1..] == d + rest;
    DigitPrefixOfDigits(d, rest);
    assert Atoi(s) == -(DigitsValue(DigitPrefix(s[1..])) as int);
  }

  // ---------------------------------------------------------------- hex digits

  /** `isxdigit` */
  predicate IsHexDigit(c: char)
  {
    ('0' <= c <= '9') || ('a' <= c <= 'f') || ('A' <= c <= 'F')
  }

  /** The value of a hexadecimal digit of either case. */
  function HexValue(c: char): (v: nat)
    requires IsHexDigit(c)
    ensures v < 16
  {
    if '0' <= c <= '9' then c as int - '0' as int
    else if 'a' <= c <= 'f' then c as int - 'a' as int + 10
    else c as int - 'A' as int + 10
  }

  /** The digit `"0123456789ABCDEF"[v]`: upper case, as base 16 is written. */
  function UpperHexDigit(v: nat): (c: char)
    requires v < 16
    ensures IsHexDigit(c) && HexValue(c) == v
    ensures !('a' <= c <= 'z')
  {
    if v < 10 then ('0' as int + v) as char else ('A' as int + v - 10) as char
  }

  /** The digit `"0123456789abcdef"[v]`: lower case, as `%p` writes it. */
  function LowerHexDigit(v: nat): (c: char)
    requires v < 16
    ensures IsHexDigit(c) && HexValue(c) == v
  {
    if v < 10 then ('0' as int + v) as char else ('a' as int + v - 10) as char
  }

  // ---------------------------------------------------------------- C arithmetic

  /** C's `/` on int: truncation toward zero. */
  function CDiv(a: int, b: int): (q: int)
    requires b != 0
    ensures a >= 0 && b > 0 ==> q == a / b
  {
    if (a >= 0) == (b > 0) then Abs(a) / Abs(b) else -(Abs(a) / Abs(b))
  }

  /** C's `%` on int: the remainder takes the sign of the dividend. */
  function CMod(a: int, b: int): (m: int)
    requires b != 0
    ensures a == CDiv(a, b) * b + m
    ensures a >= 0 && b > 0 ==> m == a % b
  {
    a - CDiv(a, b) * b
  }

  function Abs(x: int): nat { if x < 0 then -x else x }
}
