// vp_iobuf_t (scim-vim/autoload/vp_iobuf.c): the FIFO through which the
// libcall DLL and Vim exchange arguments and results.  Items are appended at
// `tail` and consumed at `head`; the buffer starts at 512 bytes and doubles
// when an append needs more room.  The first error sticks until the next
// reset, and every operation does nothing while it is set.
module VpIobuf {
  import opened CLib
  import opened VpWire

  function Pow2(k: nat): (r: nat)
    ensures r >= 1
  {
    if k == 0 then 1 else 2 * Pow2(k - 1)
  }

  /** The doubling loop of vp_iobuf_reserve. */
  function GrownSize(size: nat, need: nat): nat
    requires size > 0
    decreases need - size
  {
    if size < need then GrownSize(size * 2, need) else size
  }

  /** The loop stops at the first doubling that holds `need`. */
  lemma {:induction false} GrownSizeMeans(size: nat, need: nat)
    requires size > 0
    ensures GrownSize(size, need) >= need && GrownSize(size, need) >= size
    ensures GrownSize(size, need) == size || GrownSize(size, need) < 2 * need
    decreases need - size
  {
    if size < need {
      GrownSizeMeans(size * 2, need);
    }
  }

  /**
   * The size vp_iobuf_reserve(needsize) asks realloc for: 512 for a buffer
   * not yet allocated, doubled until it holds `needsize` and a terminator.
   */
  function ReservedSize(unallocated: bool, size: nat, needsize: nat): nat
    requires unallocated || size > 0
  {
    GrownSize(if unallocated then 512 else size, needsize + 1)
  }

  /** Whether `realloc` to a given size succeeds in the environment. */
  datatype Allocator = Allocator(reallocOk: nat -> bool)

  ghost predicate NeverFails(mem: Allocator) { forall n :: mem.reallocOk(n) }

  /** The C string that starts at `a[i]`. */
  function CString(a: array<char>, i: nat): string
    reads a
    decreases a.Length - i
  {
    if i >= a.Length || a[i] == '\0' then [] else [a[i]] + CString(a, i + 1)
  }

  lemma {:induction false} CStringAt(a: array<char>, i: nat, j: nat)
    requires i <= j < a.Length && a[j] == '\0'
    requires forall k :: i <= k < j ==> a[k] != '\0'
    ensures CString(a, i) == a[i..j]
    decreases j - i
  {
    if i < j {
      CStringAt(a, i + 1, j);
      assert a[i..j] == [a[i]] + a[i + 1..j];
    }
  }

  /** Bytes stored in a `char` buffer. */
  function Chars(bytes: seq<Byte>): (r: string)
    ensures |r| == |bytes| && forall i :: 0 <= i < |bytes| ==> r[i] as int == bytes[i]
  {
    seq(|bytes|, i requires 0 <= i < |bytes| => bytes[i] as char)
  }

  /**
   * The loop of vp_iobuf_get_bin: the NUL-terminated token `t` at `start`
   * read two digits at a time, each pair's byte stored over the text
   * already read, and a NUL after the last byte.  It stops at the first
   * pair that is not two hexadecimal digits.
   */
  method DecodeHexInPlace(a: array<char>, start: nat, ghost t: string) returns (ok: bool, bytes: seq<Byte>)
    requires start + |t| < a.Length && a[start + |t|] == '\0' && NoNul(t)
    requires forall j :: 0 <= j < |t| ==> a[start + j] == t[j]
    modifies a
    ensures ok <==> HexDecode(t).Some?
    ensures ok ==> bytes == HexDecode(t).value && a[start..start + |bytes| + 1] == Chars(bytes) + ['\0']
    ensures forall i :: 0 <= i < start ==> a[i] == old(a[i])
    ensures forall i :: start + |t| <= i < a.Length ==> a[i] == old(a[i])
  {
    var k: nat := 0;
    bytes := [];
    while a[start + 2 * k] != '\0'
      invariant 2 * k <= |t| && |bytes| == k
      invariant a[start + |t|] == '\0'
      invariant forall j :: 0 <= j < 2 * k ==> IsHexDigit(t[j])
      invariant forall j :: 0 <= j < k ==> bytes[j] == PairValue(t, j)
      invariant forall j :: 0 <= j < k ==> a[start + j] == bytes[j] as char
      invariant forall j :: 2 * k <= j < |t| ==> a[start + j] == t[j]
      invariant a[start + 2 * k] == if 2 * k < |t| then t[2 * k] else '\0'
      invariant forall i :: 0 <= i < start ==> a[i] == old(a[i])
      invariant forall i :: start + |t| <= i < a.Length ==> a[i] == old(a[i])
      decreases |t| - 2 * k
    {
      if !IsHexDigit(a[start + 2 * k]) || !IsHexDigit(a[start + 2 * k + 1]) {
        assert a[start + 2 * k] == t[2 * k];
        if IsHexDigit(a[start + 2 * k]) && 2 * k + 1 < |t| {
          assert a[start + 2 * k + 1] == t[2 * k + 1];
        }
        return false, [];
      }
      assert 2 * k + 1 < |t|;
      assert a[start + 2 * k] == t[2 * k];
      assert a[start + 2 * k + 1] == t[2 * k + 1];
      var v := HexByte(a[start + 2 * k], a[start + 2 * k + 1]);
      a[start + k] := v as char;
      bytes := bytes + [v];
      k := k + 1;
    }
    a[start + k] := '\0';
    ok := true;
    DecodedAll(t, bytes);
    CharsSlice(a[..], start, bytes);
  }

  /** Pairs all read, none refused: the decoding succeeds with the bytes read. */
  lemma {:induction false} DecodedAll(t: string, bytes: seq<Byte>)
    requires |t| == 2 * |bytes|
    requires forall j :: 0 <= j < |t| ==> IsHexDigit(t[j])
    requires forall j :: 0 <= j < |bytes| ==> bytes[j] == PairValue(t, j)
    ensures HexDecode(t) == Some(bytes)
  {
    assert IsHexText(t);
    assert HexDecode(t).value == bytes;
  }

  /** Bytes stored one per `char`, then a NUL. */
  lemma {:induction false} CharsSlice(d: string, start: nat, bytes: seq<Byte>)
    requires start + |bytes| < |d| && d[start + |bytes|] == '\0'
    requires forall j :: 0 <= j < |bytes| ==> d[start + j] == bytes[j] as char
    ensures d[start..start + |bytes| + 1] == Chars(bytes) + ['\0']
  {
  }

  /** The two sides of a split of `d[lo..hi]` at offset `k`, dropping the element at `k`. */
  lemma {:induction false} Subslices<T>(d: seq<T>, lo: nat, k: nat, hi: nat)
    requires lo + k < hi <= |d|
    ensures d[lo..hi][..k] == d[lo..lo + k]
    ensures d[lo..hi][k + 1..] == d[lo + k + 1..hi]
  {
  }

  /** The `strcpy` of vp_iobuf_reset: `s` and its NUL at the start of the buffer. */
  method StoreText(a: array<char>, s: string)
    requires |s| < a.Length
    modifies a
    ensures a[..|s|] == s && a[|s|] == '\0'
    ensures forall i :: 0 <= i < |s| ==> a[i] == s[i]
  {
    ghost var d0 := a[..];
    CopyInto(a, 0, s + ['\0']);
    OverwriteHead(d0, s + ['\0']);
    assert a[..|s| + 1] == s + ['\0'];
    assert a[..|s|] == s;
    assert a[|s|] == (s + ['\0'])[|s|];
  }

  /**
   * The search of vp_iobuf_get_str in the NUL-terminated text `a[lo..hi]`:
   * the text up to the first terminator, that terminator overwritten
   * with a NUL.
   */
  method CutToken(a: array<char>, lo: nat, hi: nat) returns (found: bool, s: string)
    requires lo < hi < a.Length && a[hi] == '\0'
    requires forall i :: lo <= i < hi ==> a[i] != '\0'
    modifies a
    ensures found ==>
      lo + |s| < hi && NextToken(old(a[lo..hi])) == Took(s, a[lo + |s| + 1..hi]) &&
      a[..] == old(a[..])[lo + |s| := '\0'] && (forall j :: 0 <= j < |s| ==> a[lo + j] == s[j]) && NoNul(s)
    ensures !found ==> NextToken(old(a[lo..hi])) == Unterminated && a[..] == old(a[..]) && s == ""
  {
    CStringAt(a, lo, hi);
    var k := EovIndex(CString(a, lo));
    if k == hi - lo {
      return false, "";
    }
    ghost var d0 := a[..];
    s := a[lo..lo + k];
    ghost var rest := a[lo + k + 1..hi];
    Subslices(d0, lo, k, hi);
    NextTokenAt(a[lo..hi], k);
    a[lo + k] := '\0';
    SliceKept(d0, a[..], lo, lo + k);
    SliceKept(d0, a[..], lo + k + 1, hi);
    found := true;
  }

  /** A buffer that holds `front` and then `w` from offset `|front|` begins with their concatenation. */
  lemma {:induction false} JoinAt(d: string, front: string, w: string, pos: nat)
    requires |front| == pos && pos + |w| <= |d|
    requires forall j :: 0 <= j < pos ==> d[j] == front[j]
    requires forall j :: 0 <= j < |w| ==> d[pos + j] == w[j]
    ensures d[..pos + |w|] == front + w
  {
    forall j | 0 <= j < pos + |w| ensures d[j] == (front + w)[j] {
      if j >= pos {
        assert d[pos + (j - pos)] == w[j - pos];
      }
    }
  }

  /**
   * `realloc` of vp_iobuf_reserve: a new block of `n` characters that
   * begins with the old block's contents.
   */
  method Realloc(a: array?<char>, n: nat) returns (b: array<char>)
    requires a != null ==> a.Length <= n
    ensures fresh(b) && b.Length == n
    ensures a != null ==> forall i :: 0 <= i < a.Length ==> b[i] == a[i]
  {
    b := new char[n];
    if a != null {
      forall i | 0 <= i < a.Length {
        b[i] := a[i];
      }
    }
  }

  /** A buffer that agrees with `front` on its first `|front|` places begins with it. */
  lemma {:induction false} PrefixKept(front: seq<char>, d: seq<char>, n: nat)
    requires n == |front| <= |d|
    requires forall i :: 0 <= i < n ==> d[i] == front[i]
    ensures d[..n] == front
  {
  }

  /** A stretch of a buffer no write touched reads as before. */
  lemma {:induction false} SliceKept(d0: seq<char>, d1: seq<char>, lo: nat, hi: nat)
    requires |d0| == |d1| && lo <= hi <= |d0|
    requires forall i :: lo <= i < hi ==> d1[i] == d0[i]
    ensures d1[lo..hi] == d0[lo..hi]
  {
  }

  /**
   * The append of vp_iobuf_put_str at offset `pos`: `strcat` of the text,
   * then the terminator over its NUL, then a new NUL.
   */
  method CatItem(a: array<char>, pos: nat, text: string)
    requires pos + |text| + 2 <= a.Length
    modifies a
    ensures a[..pos + |text| + 2] == old(a[..pos]) + text + [Eov, '\0']
  {
    ghost var d0 := a[..];
    CopyInto(a, pos, text + ['\0']);
    OverwriteIndex(d0, pos, text + ['\0']);
    a[pos + |text|] := Eov;
    a[pos + |text| + 1] := '\0';
    ghost var want := old(a[..pos]) + text + [Eov, '\0'];
    forall i | 0 <= i < pos + |text| + 2 ensures a[i] == want[i] {
      if pos <= i < pos + |text| {
        assert a[pos + (i - pos)] == (text + ['\0'])[i - pos];
      }
    }
    assert a[..pos + |text| + 2] == want;
  }

  /** The loop of vp_iobuf_put_bin at offset `pos`: the hexadecimal pairs, then a terminator and a NUL. */
  method HexItem(a: array<char>, pos: nat, bytes: seq<Byte>)
    requires pos + 2 * |bytes| + 2 <= a.Length
    modifies a
    ensures a[..pos + 2 * |bytes| + 2] == old(a[..pos]) + HexText(bytes) + [Eov, '\0']
  {
    var p := pos;
    var i := 0;
    while i < |bytes|
      invariant 0 <= i <= |bytes| && p == pos + 2 * i
      invariant forall j :: 0 <= j < pos ==> a[j] == old(a[j])
      invariant forall j :: 0 <= j < 2 * i ==> a[pos + j] == HexText(bytes)[j]
    {
      HexTextAt(bytes, i);
      a[p] := UpperHexDigit(bytes[i] / 16);
      a[p + 1] := UpperHexDigit(bytes[i] % 16);
      p := p + 2;
      i := i + 1;
    }
    a[p] := Eov;
    a[p + 1] := '\0';
    ghost var w := HexText(bytes) + [Eov, '\0'];
    assert forall j :: 0 <= j < |w| ==> a[pos + j] == w[j];
    JoinAt(a[..], old(a[..pos]), w, pos);
  }


  class IoBuf {
    var data: array?<char>
    var head: nat
    var tail: nat
    var size: nat
    var err: Option<string>
    /** How many times the buffer has doubled since it was allocated. */
    ghost var doublings: nat

    /** The offsets lie in the buffer, the buffer is a doubling of 512, and no NUL is pending. */
    ghost predicate Valid()
      reads this, data
    {
      (data == null ==> head == 0 && tail == 0 && size == 0) &&
      (data != null ==>
        data.Length == size && size == 512 * Pow2(doublings) &&
        head <= tail < size && forall i :: head <= i < tail ==> data[i] != '\0')
    }

    /** The pending text is a C string: a NUL follows it. */
    ghost predicate Ready()
      reads this, data
    {
      Valid() && (data != null ==> data[tail] == '\0')
    }

    /** Appends need the buffer of a reset: the ones after vp_iobuf_new would read unset memory. */
    ghost predicate Appendable()
      reads this, data
    {
      Ready() && (err == None ==> data != null)
    }

    /** The text between head and tail: what the get calls will read. */
    ghost function Pending(): string
      reads this, data
      requires Valid()
    {
      if data == null then [] else data[head..tail]
    }

    /** vp_iobuf_new: nothing allocated, no error. */
    constructor ()
      ensures data == null && head == 0 && tail == 0 && size == 0 && err == None
      ensures Ready()
    {
      data := null;
      head := 0;
      tail := 0;
      size := 0;
      err := None;
      doublings := 0;
    }

    /** vp_iobuf_clear: the buffer is released and the error forgotten. */
    method Clear()
      modifies this
      ensures data == null && head == 0 && tail == 0 && size == 0 && err == None
      ensures Ready()
    {
      data := null;
      head := 0;
      tail := 0;
      size := 0;
      err := None;
    }

    /**
     * vp_iobuf_reserve: grows the buffer so that `needsize` bytes and a
     * terminator fit, keeping its contents and offsets; a failed realloc
     * clears the buffer and records the error.
     */
    method Reserve(needsize: nat, mem: Allocator)
      requires Valid()
      modifies this
      ensures Valid()
      ensures old(err).Some? ==>
        err == old(err) && data == old(data) && head == old(head) && tail == old(tail) && size == old(size)
      ensures old(err) == None && mem.reallocOk(ReservedSize(old(data) == null, old(size), needsize)) ==>
        err == None && data != null && fresh(data) &&
        size == ReservedSize(old(data) == null, old(size), needsize) &&
        head == old(head) && tail == old(tail) &&
        (old(data) != null ==> old(size) <= size && data[..old(size)] == old(data[..])) &&
        (old(data) != null ==> data[..tail] == old(data[..tail]))
      ensures old(err) == None && !mem.reallocOk(ReservedSize(old(data) == null, old(size), needsize)) ==>
        err == Some(ReserveError) && data == null && head == 0 && tail == 0 && size == 0
    {
      if err.Some? {
        return;
      }
      ghost var base := if data == null then 512 else size;
      if data == null {
        size := 512;
        doublings := 0;
      }
      while size < needsize + 1
        invariant size >= base && size == 512 * Pow2(doublings)
        invariant data == old(data) && head == old(head) && tail == old(tail) && err == None
        invariant GrownSize(size, needsize + 1) == GrownSize(base, needsize + 1)
        decreases needsize + 1 - size
      {
        size := size * 2;
        doublings := doublings + 1;
      }
      if !mem.reallocOk(size) {
        Clear();
        err := Some(ReserveError);
        return;
      }
      var newbuf := Realloc(data, size);
      if data != null {
        PrefixKept(data[..], newbuf[..], data.Length);
        PrefixKept(data[..tail], newbuf[..], tail);
      }
      data := newbuf;
    }

    /** vp_iobuf_reset: the pending text becomes `args` (NULL reads as ""), the error is dropped. */
    method Reset(args: Option<string>, mem: Allocator)
      requires Valid()
      requires args.Some? ==> NoNul(args.value)
      modifies this
      ensures Ready()
      ensures var s := if args.Some? then args.value else "";
        mem.reallocOk(ReservedSize(old(data) == null, old(size), |s|)) ==>
          err == None && data != null && fresh(data) && head == 0 && Pending() == s
      ensures var s := if args.Some? then args.value else "";
        !mem.reallocOk(ReservedSize(old(data) == null, old(size), |s|)) ==>
          err == Some(ReserveError) && data == null && head == 0 && tail == 0 && size == 0
    {
      err := None;
      var s := if args.Some? then args.value else "";
      Reserve(|s|, mem);
      if err.Some? {
        return;
      }
      GrownSizeMeans(if old(data) == null then 512 else old(size), |s| + 1);
      StoreText(data, s);
      head := 0;
      tail := |s|;
    }

    /**
     * vp_iobuf_get_str: the item at the head, its terminator overwritten by
     * NUL so that it reads as a C string in place.
     */
    method GetStr() returns (s: string)
      requires Ready()
      modifies this, data
      ensures Ready() && data == old(data) && tail == old(tail) && size == old(size)
      ensures old(err).Some? ==>
        err == old(err) && head == old(head) && (data != null ==> data[..] == old(data[..]))
      ensures old(err) == None && NextToken(old(Pending())).Took? ==>
        err == None && s == NextToken(old(Pending())).token &&
        Pending() == NextToken(old(Pending())).rest &&
        head == old(head) + |s| + 1 && data[..] == old(data[..])[old(head) + |s| := '\0'] &&
        (forall j :: 0 <= j < |s| ==> data[old(head) + j] == s[j]) && data[old(head) + |s|] == '\0' && NoNul(s)
      ensures old(err) == None && !NextToken(old(Pending())).Took? ==>
        err == Some(if NextToken(old(Pending())) == NoData then NoDataError else EovError) &&
        head == old(head) && (data != null ==> data[..] == old(data[..]))
    {
      s := "";
      if err.Some? {
        return;
      }
      if head == tail {
        err := Some(NoDataError);
        return;
      }
      var found;
      found, s := CutToken(data, head, tail);
      if !found {
        err := Some(EovError);
        return;
      }
      head := head + |s| + 1;
    }

    /**
     * vp_iobuf_get_bin: the item at the head read as hexadecimal pairs and
     * decoded in place over its own text, followed by a NUL.
     */
    method GetBin() returns (bytes: seq<Byte>)
      requires Ready()
      modifies this, data
      ensures Ready() && data == old(data) && tail == old(tail) && size == old(size)
      ensures old(err).Some? ==>
        err == old(err) && head == old(head) && (data != null ==> data[..] == old(data[..]))
      ensures old(err) == None && !NextToken(old(Pending())).Took? ==>
        err == Some(if NextToken(old(Pending())) == NoData then NoDataError else EovError) &&
        head == old(head) && (data != null ==> data[..] == old(data[..]))
      ensures old(err) == None && NextToken(old(Pending())).Took? ==>
        var t := NextToken(old(Pending()));
        Pending() == t.rest && head == old(head) + |t.token| + 1 &&
        (err == None <==> HexDecode(t.token).Some?) &&
        (err != None ==> err == Some(BinFormatError)) &&
        (err == None ==> bytes == HexDecode(t.token).value) &&
        (err == None ==>
          data[old(head)..old(head) + |bytes| + 1] == Chars(bytes) + ['\0'])
    {
      bytes := [];
      if err.Some? {
        return;
      }
      ghost var pending := Pending();
      var start := head;
      var t := GetStr();
      if err.Some? {
        return;
      }
      ghost var d0 := data[..];
      var ok;
      ok, bytes := DecodeHexInPlace(data, start, t);
      SliceKept(d0, data[..], head, tail);
      if !ok {
        err := Some(BinFormatError);
      }
    }

    /**
     * vp_iobuf_get_fmt with `%d` (vp_iobuf_get_num) or `%p`
     * (vp_iobuf_get_ptr): the item must scan as one value, wholly.
     */
    method GetFmt(conv: Conv, lib: Libc) returns (x: int)
      requires Ready()
      modifies this, data
      ensures Ready() && data == old(data) && tail == old(tail) && size == old(size)
      ensures old(err).Some? ==> err == old(err) && head == old(head) && (data != null ==> data[..] == old(data[..]))
      ensures old(err) == None && !NextToken(old(Pending())).Took? ==>
        err == Some(if NextToken(old(Pending())) == NoData then NoDataError else EovError) &&
        head == old(head) && (data != null ==> data[..] == old(data[..]))
      ensures old(err) == None && NextToken(old(Pending())).Took? ==>
        var t := NextToken(old(Pending()));
        Pending() == t.rest &&
        (err == None <==> Scan(lib, conv, t.token).Some?) &&
        (err != None ==> err == Some(ScanError)) &&
        (err == None ==> x == Scan(lib, conv, t.token).value)
    {
      x := 0;
      if err.Some? {
        return;
      }
      var s := GetStr();
      if err.Some? {
        return;
      }
      match Scan(lib, conv, s)
      case Some(v) => x := v;
      case None => err := Some(ScanError);
    }

    /** One turn of vp_iobuf_get_vars_v: the item a format letter asks for. */
    method GetItem(c: char, lib: Libc) returns (vals: seq<Value>)
      requires Ready()
      modifies this, data
      ensures Ready() && data == old(data) && tail == old(tail) && size == old(size)
      ensures old(err).Some? ==> err == old(err) && head == old(head) && vals == []
      ensures old(err) == None ==>
        Parsed(vals, Pending(), err) == GetVarsSpec(lib, [c], old(Pending()))
    {
      vals := [];
      if err.Some? {
        return;
      }
      ghost var pending := Pending();
      GetVarsOne(lib, c, pending);
      if c == 's' {
        var s := GetStr();
        if err == None {
          vals := [Str(s)];
        }
      } else if c == 'b' {
        var b := GetBin();
        if err == None {
          vals := [Bin(b)];
        }
      } else if c == 'd' {
        var n := GetFmt(DecimalConv, lib);
        if err == None {
          vals := [Num(n)];
        }
      } else if c == 'p' {
        var p := GetFmt(PointerConv, lib);
        if err == None {
          vals := [Ptr(p)];
        }
      } else {
        err := Some(GetUnknownError);
      }
    }

    /** vp_iobuf_get_vars_v (and vp_iobuf_get_vars): one item per letter until an error. */
    method GetVars(fmt: string, lib: Libc) returns (vals: seq<Value>)
      requires Ready()
      modifies this, data
      ensures Ready() && data == old(data) && tail == old(tail) && size == old(size)
      ensures old(err).Some? ==> err == old(err) && head == old(head) && vals == []
      ensures old(err) == None ==>
        Parsed(vals, Pending(), err) == GetVarsSpec(lib, fmt, old(Pending()))
    {
      vals := [];
      if err.Some? {
        return;
      }
      ghost var pending := Pending();
      var i := 0;
      while i < |fmt| && err == None
        invariant 0 <= i <= |fmt|
        invariant Ready() && data == old(data) && tail == old(tail) && size == old(size)
        invariant err == None ==>
          GetVarsSpec(lib, fmt, pending) == Prepend(vals, GetVarsSpec(lib, fmt[i..], Pending()))
        invariant err.Some? ==> GetVarsSpec(lib, fmt, pending) == Parsed(vals, Pending(), err)
        decreases |fmt| - i
      {
        ghost var before := Pending();
        var v := GetItem(fmt[i], lib);
        GetVarsLoopStep(lib, fmt, i, GetVarsSpec(lib, fmt, pending), vals, before, Parsed(v, Pending(), err));
        vals := vals + v;
        i := i + 1;
      }
      if err == None {
        GetVarsDone(lib, fmt, i, GetVarsSpec(lib, fmt, pending), vals, Pending());
      }
    }

    /**
     * vp_iobuf_put_str: `str` and a terminator appended at the tail, the
     * buffer grown first; the text stays NUL-terminated.
     */
    method PutStr(str: string, mem: Allocator)
      requires Appendable() && NoNul(str)
      modifies this
      ensures Appendable()
      ensures old(err).Some? ==>
        err == old(err) && data == old(data) && head == old(head) && tail == old(tail) && size == old(size)
      ensures old(err) == None && mem.reallocOk(ReservedSize(false, old(size), old(tail) + |str| + 1)) ==>
        err == None && head == old(head) && tail == old(tail) + |str| + 1 &&
        data[..tail + 1] == old(data[..tail]) + str + [Eov, '\0'] &&
        Pending() == old(Pending()) + str + [Eov]
      ensures old(err) == None && !mem.reallocOk(ReservedSize(false, old(size), old(tail) + |str| + 1)) ==>
        err == Some(ReserveError) && data == null && head == 0 && tail == 0 && size == 0
    {
      if err.Some? {
        return;
      }
      var len := |str|;
      Reserve(tail + len + 1, mem);
      if err.Some? {
        return;
      }
      GrownSizeMeans(old(size), old(tail) + len + 2);
      CatItem(data, tail, str);
      tail := tail + len + 1;
      Appended(old(data[..tail]), old(head), str);
    }

    /** vp_iobuf_put_bin: two upper-case hexadecimal digits per byte, then a terminator. */
    method PutBin(bytes: seq<Byte>, mem: Allocator)
      requires Appendable()
      modifies this
      ensures Appendable()
      ensures old(err).Some? ==>
        err == old(err) && data == old(data) && head == old(head) && tail == old(tail) && size == old(size)
      ensures old(err) == None && mem.reallocOk(ReservedSize(false, old(size), old(tail) + 2 * |bytes| + 1)) ==>
        err == None && head == old(head) && tail == old(tail) + 2 * |bytes| + 1 &&
        data[..tail + 1] == old(data[..tail]) + HexText(bytes) + [Eov, '\0'] &&
        Pending() == old(Pending()) + HexText(bytes) + [Eov]
      ensures old(err) == None && !mem.reallocOk(ReservedSize(false, old(size), old(tail) + 2 * |bytes| + 1)) ==>
        err == Some(ReserveError) && data == null && head == 0 && tail == 0 && size == 0
    {
      if err.Some? {
        return;
      }
      Reserve(tail + 2 * |bytes| + 1, mem);
      if err.Some? {
        return;
      }
      GrownSizeMeans(old(size), old(tail) + 2 * |bytes| + 2);
      HexItem(data, tail, bytes);
      tail := tail + 2 * |bytes| + 1;
      HexTextPlain(bytes);
      Appended(old(data[..tail]), old(head), HexText(bytes));
    }

    /** What an append leaves: the new item after the old text, a NUL after it, nothing pending with NUL. */
    lemma {:induction false} Appended(before: string, oldHead: nat, w: string)
      requires data != null && |before| + |w| + 1 == tail < data.Length && head == oldHead <= |before|
      requires data[..tail + 1] == before + w + [Eov, '\0']
      requires NoNul(before[oldHead..]) && NoNul(w)
      ensures data[tail] == '\0'
      ensures forall i :: head <= i < tail ==> data[i] != '\0'
      ensures data[head..tail] == before[oldHead..] + w + [Eov]
    {
      assert data[head..tail] == (data[..tail + 1])[head..tail];
      assert data[head..tail] == before[oldHead..] + w + [Eov];
      forall i | head <= i < tail ensures data[i] != '\0' {
        assert data[i] == data[head..tail][i - head];
      }
      assert data[tail] == data[..tail + 1][tail];
    }

    /**
     * vp_iobuf_put_fmt with `%d` (vp_iobuf_put_num) or `%p`
     * (vp_iobuf_put_ptr): the printed value as one item.
     */
    method PutFmt(conv: Conv, x: int, lib: Libc, mem: Allocator)
      requires Appendable() && NoNul(Print(lib, conv, x))
      modifies this
      ensures Appendable()
      ensures old(err).Some? ==>
        err == old(err) && data == old(data) && head == old(head) && tail == old(tail) && size == old(size)
      ensures old(err) == None && mem.reallocOk(ReservedSize(false, old(size), old(tail) + |Print(lib, conv, x)| + 1)) ==>
        err == None && head == old(head) && tail == old(tail) + |Print(lib, conv, x)| + 1 &&
        data[..tail + 1] == old(data[..tail]) + Print(lib, conv, x) + [Eov, '\0'] &&
        Pending() == old(Pending()) + Print(lib, conv, x) + [Eov]
      ensures old(err) == None && !mem.reallocOk(ReservedSize(false, old(size), old(tail) + |Print(lib, conv, x)| + 1)) ==>
        err == Some(ReserveError) && data == null && head == 0 && tail == 0 && size == 0
    {
      if err.Some? {
        return;
      }
      var text := Print(lib, conv, x);
      PutStr(text, mem);
    }

    /** One argument of vp_iobuf_put_vars, written by the put its letter selects. */
    method PutItem(v: Value, lib: Libc, mem: Allocator)
      requires Appendable() && Writable(lib, v)
      modifies this
      ensures Appendable()
      ensures old(err).Some? ==>
        err == old(err) && data == old(data) && head == old(head) && tail == old(tail) && size == old(size)
      ensures old(err) == None ==> err == None || err == Some(ReserveError)
      ensures old(err) == None && err == None ==>
        head == old(head) && Pending() == old(Pending()) + ItemText(lib, v) + [Eov]
      ensures old(err) == None && err == Some(ReserveError) ==> data == null
      ensures old(err) == None && NeverFails(mem) ==> err == None
    {
      match v
      case Str(str) => PutStr(str, mem);
      case Bin(bytes) => PutBin(bytes, mem);
      case Num(n) => PutFmt(DecimalConv, n, lib, mem);
      case Ptr(q) => PutFmt(PointerConv, q, lib, mem);
    }

    /**
     * vp_iobuf_put_vars: one item per letter of `fmt`, stopping at the
     * first error; a letter it does not know sets the error.
     */
    method PutVars(fmt: string, args: seq<Value>, lib: Libc, mem: Allocator)
      requires Appendable() && NoNul(fmt) && ArgsFit(fmt, args)
      requires forall i :: 0 <= i < KnownPrefix(fmt) ==> Writable(lib, args[i])
      modifies this
      ensures Appendable()
      ensures old(err).Some? ==>
        err == old(err) && data == old(data) && head == old(head) && tail == old(tail) && size == old(size)
      ensures old(err) == None && err != Some(ReserveError) ==>
        head == old(head) && Pending() == old(Pending()) + Items(lib, args[..KnownPrefix(fmt)])
      ensures old(err) == None ==>
        err == None || err == Some(ReserveError) || (err == Some(PutUnknownError) && KnownPrefix(fmt) < |fmt|)
      ensures old(err) == None && err == None ==> KnownPrefix(fmt) == |fmt|
      ensures old(err) == None && NeverFails(mem) ==> err != Some(ReserveError)
      ensures old(err) == None && NeverFails(mem) && KnownPrefix(fmt) == |fmt| ==> err == None
      ensures old(err) == None && err == Some(ReserveError) ==> data == null
    {
      if err.Some? {
        return;
      }
      var i: nat := 0;
      while i < |fmt| && err == None
        invariant Appendable() && i <= |fmt|
        invariant err == None || err == Some(ReserveError) || err == Some(PutUnknownError)
        invariant err == None ==>
          i <= KnownPrefix(fmt) && head == old(head) && Pending() == old(Pending()) + Items(lib, args[..i])
        invariant err == Some(PutUnknownError) ==>
          i == KnownPrefix(fmt) + 1 <= |fmt| && head == old(head) &&
          Pending() == old(Pending()) + Items(lib, args[..KnownPrefix(fmt)])
        invariant err == Some(ReserveError) ==> data == null
        invariant NeverFails(mem) ==> err != Some(ReserveError)
        decreases |fmt| - i
      {
        if !IsLetter(fmt[i]) {
          err := Some(PutUnknownError);
        } else {
          ghost var before := Pending();
          PutItem(args[i], lib, mem);
          if err == None {
            ItemsGrow(lib, args, i, old(Pending()), before, Pending());
          }
        }
        i := i + 1;
      }
    }

    /**
     * vp_iobuf_get_args: the buffer reset to `args`, read by `fmt`, and
     * refused when text is left over; the result says whether no error
     * was set.
     */
    method GetArgs(args: Option<string>, fmt: string, lib: Libc, mem: Allocator) returns (ok: bool, vals: seq<Value>)
      requires Valid() && (args.Some? ==> NoNul(args.value))
      modifies this, data
      ensures Ready()
      ensures ok <==> err == None
      ensures var s := if args.Some? then args.value else "";
        mem.reallocOk(ReservedSize(old(data) == null, old(size), |s|)) ==>
          Parsed(vals, Pending(), err) == GetArgsSpec(lib, s, fmt)
      ensures var s := if args.Some? then args.value else "";
        !mem.reallocOk(ReservedSize(old(data) == null, old(size), |s|)) ==>
          err == Some(ReserveError) && vals == [] && data == null
    {
      Reset(args, mem);
      vals := GetVars(fmt, lib);
      if err == None && head != tail {
        err := Some(TooManyError);
      }
      ok := err == None;
    }

    /** vp_iobuf_return: the error message if one is set, else the text still pending (NULL before any reset). */
    function Return(): (r: Option<string>)
      reads this, data
      requires Ready()
      ensures err.Some? ==> r == err
      ensures err == None && data == null ==> r == None
      ensures err == None && data != null ==> r == Some(Pending())
    {
      if err.Some? then err
      else if data == null then None
      else CStringAt(data, head, tail); Some(CString(data, head))
    }
  }
}
