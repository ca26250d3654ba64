// The code page alias tables of the two win_iconv revisions.  The trunk
// revision keeps its aliases in the array `codepage_alias` and scans it in
// order; the older revision tests the same kind of pairs one after another in
// an if-chain.  Both are modelled as an ordered table read by position (stored
// in parts of sixteen entries), and a name resolves to the code page of the
// FIRST entry that matches it without regard to ASCII case.
module Aliases {
  import opened CLib

  datatype Alias = Alias(codepage: int, name: string)

  /** Which revision's table. */
  datatype Revision = Trunk | Older

  /** Both tables have 157 entries (the trunk terminator `{0, NULL}` is not one). */
  const AliasCount: nat := 157

  function AliasAt(rev: Revision, i: nat): Alias
    requires i < AliasCount
  {
    match rev
    case Trunk => TrunkAliasAt(i)
    case Older => OlderAliasAt(i)
  }

  const TrunkPart0: seq<Alias> := [
    Alias(65001, "CP65001"),
    Alias(65001, "UTF8"),
    Alias(65001, "UTF-8"),
    Alias(1200, "CP1200"),
    Alias(1200, "UTF16LE"),
    Alias(1200, "UTF-16LE"),
    Alias(1201, "CP1201"),
    Alias(1201, "UTF16"),
    Alias(1201, "UTF16BE"),
    Alias(1201, "UTF-16BE"),
    Alias(20127, "ANSI_X3.4-1968"),
    Alias(20127, "ANSI_X3.4-1986"),
    Alias(20127, "ASCII"),
    Alias(20127, "CP367"),
    Alias(20127, "IBM367"),
    Alias(20127, "ISO-IR-6")]
  const TrunkPart1: seq<Alias> := [
    Alias(20127, "ISO646-US"),
    Alias(20127, "ISO_646.IRV:1991"),
    Alias(20127, "US"),
    Alias(20127, "US-ASCII"),
    Alias(20127, "CSASCII"),
    Alias(1252, "CP819"),
    Alias(1252, "IBM819"),
    Alias(1252, "ISO-8859-1"),
    Alias(1252, "ISO-IR-100"),
    Alias(1252, "ISO8859-1"),
    Alias(1252, "ISO_8859-1"),
    Alias(1252, "ISO_8859-1:1987"),
    Alias(1252, "L1"),
    Alias(1252, "LATIN1"),
    Alias(1252, "CSISOLATIN1"),
    Alias(1250, "CP1250")]
  const TrunkPart2: seq<Alias> := [
    Alias(1250, "MS-EE"),
    Alias(1250, "WINDOWS-1250"),
    Alias(1251, "CP1251"),
    Alias(1251, "MS-CYRL"),
    Alias(1251, "WINDOWS-1251"),
    Alias(1252, "CP1252"),
    Alias(1252, "MS-ANSI"),
    Alias(1252, "WINDOWS-1252"),
    Alias(1253, "CP1253"),
    Alias(1253, "MS-GREEK"),
    Alias(1253, "WINDOWS-1253"),
    Alias(1254, "CP1254"),
    Alias(1254, "MS-TURK"),
    Alias(1254, "WINDOWS-1254"),
    Alias(1255, "CP1255"),
    Alias(1255, "MS-HEBR")]
  const TrunkPart3: seq<Alias> := [
    Alias(1255, "WINDOWS-1255"),
    Alias(1256, "CP1256"),
    Alias(1256, "MS-ARAB"),
    Alias(1256, "WINDOWS-1256"),
    Alias(1257, "CP1257"),
    Alias(1257, "WINBALTRIM"),
    Alias(1257, "WINDOWS-1257"),
    Alias(1258, "CP1258"),
    Alias(1258, "WINDOWS-1258"),
    Alias(850, "850"),
    Alias(850, "CP850"),
    Alias(850, "IBM850"),
    Alias(850, "CSPC850MULTILINGUAL"),
    Alias(862, "862"),
    Alias(862, "CP862"),
    Alias(862, "IBM862")]
  const TrunkPart4: seq<Alias> := [
    Alias(862, "CSPC862LATINHEBREW"),
    Alias(866, "866"),
    Alias(866, "CP866"),
    Alias(866, "IBM866"),
    Alias(866, "CSIBM866"),
    Alias(154, "CP154"),
    Alias(154, "CYRILLIC-ASIAN"),
    Alias(154, "PT154"),
    Alias(154, "PTCP154"),
    Alias(154, "CSPTCP154"),
    Alias(1133, "CP1133"),
    Alias(1133, "IBM-CP1133"),
    Alias(874, "CP874"),
    Alias(874, "WINDOWS-874"),
    Alias(51932, "CP51932"),
    Alias(51932, "MS51932")]
  const TrunkPart5: seq<Alias> := [
    Alias(51932, "WINDOWS-51932"),
    Alias(51932, "EUC-JP"),
    Alias(932, "CP932"),
    Alias(932, "MS932"),
    Alias(932, "SHIFFT_JIS"),
    Alias(932, "SHIFFT_JIS-MS"),
    Alias(932, "SJIS"),
    Alias(932, "SJIS-MS"),
    Alias(932, "SJIS-OPEN"),
    Alias(932, "SJIS-WIN"),
    Alias(932, "WINDOWS-31J"),
    Alias(932, "WINDOWS-932"),
    Alias(932, "CSWINDOWS31J"),
    Alias(50221, "CP50221"),
    Alias(50221, "ISO-2022-JP"),
    Alias(50221, "ISO-2022-JP-MS")]
  const TrunkPart6: seq<Alias> := [
    Alias(50221, "MS50221"),
    Alias(50221, "WINDOWS-50221"),
    Alias(936, "CP936"),
    Alias(936, "GBK"),
    Alias(936, "MS936"),
    Alias(936, "WINDOWS-936"),
    Alias(950, "CP950"),
    Alias(950, "BIG5"),
    Alias(949, "CP949"),
    Alias(949, "UHC"),
    Alias(949, "EUC-KR"),
    Alias(1361, "CP1361"),
    Alias(1361, "JOHAB"),
    Alias(437, "437"),
    Alias(437, "CP437"),
    Alias(437, "IBM437")]
  const TrunkPart7: seq<Alias> := [
    Alias(437, "CSPC8CODEPAGE437"),
    Alias(737, "CP737"),
    Alias(775, "CP775"),
    Alias(775, "IBM775"),
    Alias(775, "CSPC775BALTIC"),
    Alias(852, "852"),
    Alias(852, "CP852"),
    Alias(852, "IBM852"),
    Alias(852, "CSPCP852"),
    Alias(853, "CP853"),
    Alias(855, "855"),
    Alias(855, "CP855"),
    Alias(855, "IBM855"),
    Alias(855, "CSIBM855"),
    Alias(857, "857"),
    Alias(857, "CP857")]
  const TrunkPart8: seq<Alias> := [
    Alias(857, "IBM857"),
    Alias(857, "CSIBM857"),
    Alias(858, "CP858"),
    Alias(860, "860"),
    Alias(860, "CP860"),
    Alias(860, "IBM860"),
    Alias(860, "CSIBM860"),
    Alias(861, "861"),
    Alias(861, "CP-IS"),
    Alias(861, "CP861"),
    Alias(861, "IBM861"),
    Alias(861, "CSIBM861"),
    Alias(863, "863"),
    Alias(863, "CP863"),
    Alias(863, "IBM863"),
    Alias(863, "CSIBM863")]
  const TrunkPart9: seq<Alias> := [
    Alias(864, "CP864"),
    Alias(864, "IBM864"),
    Alias(864, "CSIBM864"),
    Alias(865, "865"),
    Alias(865, "CP865"),
    Alias(865, "IBM865"),
    Alias(865, "CSIBM865"),
    Alias(869, "869"),
    Alias(869, "CP-GR"),
    Alias(869, "CP869"),
    Alias(869, "IBM869"),
    Alias(869, "CSIBM869"),
    Alias(1125, "CP1125")]

  /** `codepage_alias[i]` of the trunk revision, in source order. */
  function TrunkAliasAt(i: nat): Alias
    requires i < AliasCount
  {
    if i < 16 then TrunkPart0[i - 0] else
    if i < 32 then TrunkPart1[i - 16] else
    if i < 48 then TrunkPart2[i - 32] else
    if i < 64 then TrunkPart3[i - 48] else
    if i < 80 then TrunkPart4[i - 64] else
    if i < 96 then TrunkPart5[i - 80] else
    if i < 112 then TrunkPart6[i - 96] else
    if i < 128 then TrunkPart7[i - 112] else
    if i < 144 then TrunkPart8[i - 128] else
    TrunkPart9[i - 144]
  }

  const OlderPart0: seq<Alias> := [
    Alias(65001, "CP65001"),
    Alias(65001, "UTF8"),
    Alias(65001, "UTF-8"),
    Alias(1200, "CP1200"),
    Alias(1200, "UTF16LE"),
    Alias(1200, "UTF-16LE"),
    Alias(1201, "CP1201"),
    Alias(1201, "UTF16"),
    Alias(1201, "UTF16BE"),
    Alias(1201, "UTF-16BE"),
    Alias(20127, "ANSI_X3.4-1968"),
    Alias(20127, "ANSI_X3.4-1986"),
    Alias(20127, "ASCII"),
    Alias(20127, "CP367"),
    Alias(20127, "IBM367"),
    Alias(20127, "ISO-IR-6")]
  const OlderPart1: seq<Alias> := [
    Alias(20127, "ISO646-US"),
    Alias(20127, "ISO_646.IRV:1991"),
    Alias(20127, "US"),
    Alias(20127, "US-ASCII"),
    Alias(20127, "CSASCII"),
    Alias(1252, "CP819"),
    Alias(1252, "IBM819"),
    Alias(1252, "ISO-8859-1"),
    Alias(1252, "ISO-IR-100"),
    Alias(1252, "ISO8859-1"),
    Alias(1252, "ISO_8859-1"),
    Alias(1252, "ISO_8859-1:1987"),
    Alias(1252, "L1"),
    Alias(1252, "LATIN1"),
    Alias(1252, "CSISOLATIN1"),
    Alias(1250, "CP1250")]
  const OlderPart2: seq<Alias> := [
    Alias(1250, "MS-EE"),
    Alias(1250, "WINDOWS-1250"),
    Alias(1251, "CP1251"),
    Alias(1251, "MS-CYRL"),
    Alias(1251, "WINDOWS-1251"),
    Alias(1252, "CP1252"),
    Alias(1252, "MS-ANSI"),
    Alias(1252, "WINDOWS-1252"),
    Alias(1253, "CP1253"),
    Alias(1253, "MS-GREEK"),
    Alias(1253, "WINDOWS-1253"),
    Alias(1254, "CP1254"),
    Alias(1254, "MS-TURK"),
    Alias(1254, "WINDOWS-1254"),
    Alias(1255, "CP1255"),
    Alias(1255, "MS-HEBR")]
  const OlderPart3: seq<Alias> := [
    Alias(1255, "WINDOWS-1255"),
    Alias(1256, "CP1256"),
    Alias(1256, "MS-ARAB"),
    Alias(1256, "WINDOWS-1256"),
    Alias(1257, "CP1257"),
    Alias(1257, "WINBALTRIM"),
    Alias(1257, "WINDOWS-1257"),
    Alias(1258, "CP1258"),
    Alias(1258, "WINDOWS-1258"),
    Alias(850, "850"),
    Alias(850, "CP850"),
    Alias(850, "IBM850"),
    Alias(850, "CSPC850MULTILINGUAL"),
    Alias(862, "862"),
    Alias(862, "CP862"),
    Alias(862, "IBM862")]
  const OlderPart4: seq<Alias> := [
    Alias(862, "CSPC862LATINHEBREW"),
    Alias(866, "866"),
    Alias(866, "CP866"),
    Alias(866, "IBM866"),
    Alias(866, "CSIBM866"),
    Alias(154, "CP154"),
    Alias(154, "CYRILLIC-ASIAN"),
    Alias(154, "PT154"),
    Alias(154, "PTCP154"),
    Alias(154, "CSPTCP154"),
    Alias(1133, "CP1133"),
    Alias(1133, "IBM-CP1133"),
    Alias(874, "CP874"),
    Alias(874, "WINDOWS-874"),
    Alias(51932, "CP51932"),
    Alias(51932, "MS51932")]
  const OlderPart5: seq<Alias> := [
    Alias(51932, "WINDOWS-51932"),
    Alias(20932, "EUC-JP"),
    Alias(932, "CP932"),
    Alias(932, "MS932"),
    Alias(932, "SHIFFT_JIS"),
    Alias(932, "SHIFFT_JIS-MS"),
    Alias(932, "SJIS"),
    Alias(932, "SJIS-MS"),
    Alias(932, "SJIS-OPEN"),
    Alias(932, "SJIS-WIN"),
    Alias(932, "WINDOWS-31J"),
    Alias(932, "WINDOWS-932"),
    Alias(932, "CSWINDOWS31J"),
    Alias(50221, "CP50221"),
    Alias(50221, "ISO-2022-JP"),
    Alias(50221, "ISO-2022-JP-MS")]
  const OlderPart6: seq<Alias> := [
    Alias(50221, "MS50221"),
    Alias(50221, "WINDOWS-50221"),
    Alias(936, "CP936"),
    Alias(936, "GBK"),
    Alias(936, "MS936"),
    Alias(936, "WINDOWS-936"),
    Alias(950, "CP950"),
    Alias(950, "BIG5"),
    Alias(949, "CP949"),
    Alias(949, "UHC"),
    Alias(949, "EUC-KR"),
    Alias(1361, "CP1361"),
    Alias(1361, "JOHAB"),
    Alias(437, "437"),
    Alias(437, "CP437"),
    Alias(437, "IBM437")]
  const OlderPart7: seq<Alias> := [
    Alias(437, "CSPC8CODEPAGE437"),
    Alias(737, "CP737"),
    Alias(775, "CP775"),
    Alias(775, "IBM775"),
    Alias(775, "CSPC775BALTIC"),
    Alias(852, "852"),
    Alias(852, "CP852"),
    Alias(852, "IBM852"),
    Alias(852, "CSPCP852"),
    Alias(853, "CP853"),
    Alias(855, "855"),
    Alias(855, "CP855"),
    Alias(855, "IBM855"),
    Alias(855, "CSIBM855"),
    Alias(857, "857"),
    Alias(857, "CP857")]
  const OlderPart8: seq<Alias> := [
    Alias(857, "IBM857"),
    Alias(857, "CSIBM857"),
    Alias(858, "CP858"),
    Alias(860, "860"),
    Alias(860, "CP860"),
    Alias(860, "IBM860"),
    Alias(860, "CSIBM860"),
    Alias(861, "861"),
    Alias(861, "CP-IS"),
    Alias(861, "CP861"),
    Alias(861, "IBM861"),
    Alias(861, "CSIBM861"),
    Alias(863, "863"),
    Alias(863, "CP863"),
    Alias(863, "IBM863"),
    Alias(863, "CSIBM863")]
  const OlderPart9: seq<Alias> := [
    Alias(864, "CP864"),
    Alias(864, "IBM864"),
    Alias(864, "CSIBM864"),
    Alias(865, "865"),
    Alias(865, "CP865"),
    Alias(865, "IBM865"),
    Alias(865, "CSIBM865"),
    Alias(869, "869"),
    Alias(869, "CP-GR"),
    Alias(869, "CP869"),
    Alias(869, "IBM869"),
    Alias(869, "CSIBM869"),
    Alias(1125, "CP1125")]

  /** The i-th `lstrcmpi` test of the older revision's if-chain, in source order. */
  function OlderAliasAt(i: nat): Alias
    requires i < AliasCount
  {
    if i < 16 then OlderPart0[i - 0] else
    if i < 32 then OlderPart1[i - 16] else
    if i < 48 then OlderPart2[i - 32] else
    if i < 64 then OlderPart3[i - 48] else
    if i < 80 then OlderPart4[i - 64] else
    if i < 96 then OlderPart5[i - 80] else
    if i < 112 then OlderPart6[i - 96] else
    if i < 128 then OlderPart7[i - 112] else
    if i < 144 then OlderPart8[i - 128] else
    OlderPart9[i - 144]
  }

  /** Every entry of a part of a table carries a positive code page. */
  predicate PositiveCodepages(part: seq<Alias>)
  {
    forall j :: 0 <= j < |part| ==> part[j].codepage > 0
  }

  lemma TrunkPart0Positive() ensures PositiveCodepages(TrunkPart0) { }
  lemma TrunkPart1Positive() ensures PositiveCodepages(TrunkPart1) { }
  lemma TrunkPart2Positive() ensures PositiveCodepages(TrunkPart2) { }
  lemma TrunkPart3Positive() ensures PositiveCodepages(TrunkPart3) { }
  lemma TrunkPart4Positive() ensures PositiveCodepages(TrunkPart4) { }
  lemma TrunkPart5Positive() ensures PositiveCodepages(TrunkPart5) { }
  lemma TrunkPart6Positive() ensures PositiveCodepages(TrunkPart6) { }
  lemma TrunkPart7Positive() ensures PositiveCodepages(TrunkPart7) { }
  lemma TrunkPart8Positive() ensures PositiveCodepages(TrunkPart8) { }
  lemma TrunkPart9Positive() ensures PositiveCodepages(TrunkPart9) { }

  lemma OlderPart0Positive() ensures PositiveCodepages(OlderPart0) { }
  lemma OlderPart1Positive() ensures PositiveCodepages(OlderPart1) { }
  lemma OlderPart2Positive() ensures PositiveCodepages(OlderPart2) { }
  lemma OlderPart3Positive() ensures PositiveCodepages(OlderPart3) { }
  lemma OlderPart4Positive() ensures PositiveCodepages(OlderPart4) { }
  lemma OlderPart5Positive() ensures PositiveCodepages(OlderPart5) { }
  lemma OlderPart6Positive() ensures PositiveCodepages(OlderPart6) { }
  lemma OlderPart7Positive() ensures PositiveCodepages(OlderPart7) { }
  lemma OlderPart8Positive() ensures PositiveCodepages(OlderPart8) { }
  lemma OlderPart9Positive() ensures PositiveCodepages(OlderPart9) { }

  /** The entry at `k` matches `name` as `lstrcmpi` compares. */
  predicate Matches(rev: Revision, name: string, k: nat)
    requires k < AliasCount
  {
    EqualsIgnoreCase(name, AliasAt(rev, k).name)
  }

  /** The scan from entry `i` on: the code page of the first matching entry. */
  function LookupFrom(rev: Revision, name: string, i: nat): Option<int>
    decreases AliasCount - i
  {
    if i >= AliasCount then None
    else if Matches(rev, name, i) then Some(AliasAt(rev, i).codepage)
    else LookupFrom(rev, name, i + 1)
  }

  /** The whole-table scan. */
  function Lookup(rev: Revision, name: string): Option<int>
  {
    LookupFrom(rev, name, 0)
  }

  /** No entry in `[i, k)` matches. */
  predicate NoMatchBetween(rev: Revision, name: string, i: nat, k: nat)
    requires k <= AliasCount
  {
    forall j :: i <= j < k ==> !Matches(rev, name, j)
  }

  /** A scan that passes only non-matching entries lands where it would have started. */
  lemma {:induction false} LookupFromSkips(rev: Revision, name: string, i: nat, k: nat)
    requires i <= k <= AliasCount && NoMatchBetween(rev, name, i, k)
    ensures LookupFrom(rev, name, i) == LookupFrom(rev, name, k)
    decreases k - i
  {
    if i < k {
      assert !Matches(rev, name, i);
      LookupFromSkips(rev, name, i + 1, k);
    }
  }

  /** The scan yields `c` exactly when `c` is the code page of the first matching entry. */
  lemma {:induction false} LookupFirstMatch(rev: Revision, name: string, c: int)
    ensures Lookup(rev, name) == Some(c) <==>
      exists k :: 0 <= k < AliasCount && Matches(rev, name, k) && AliasAt(rev, k).codepage == c &&
        NoMatchBetween(rev, name, 0, k)
  {
    if Lookup(rev, name) == Some(c) {
      var k := FirstMatchIndex(rev, name, 0);
      LookupFromSkips(rev, name, 0, k);
    }
    if exists k :: 0 <= k < AliasCount && Matches(rev, name, k) && AliasAt(rev, k).codepage == c &&
        NoMatchBetween(rev, name, 0, k) {
      var k :| 0 <= k < AliasCount && Matches(rev, name, k) && AliasAt(rev, k).codepage == c &&
        NoMatchBetween(rev, name, 0, k);
      LookupFromSkips(rev, name, 0, k);
    }
  }

  /** The index of the entry a successful scan from `i` stops at. */
  lemma {:induction false} FirstMatchIndex(rev: Revision, name: string, i: nat) returns (k: nat)
    requires LookupFrom(rev, name, i).Some?
    ensures i <= k < AliasCount && Matches(rev, name, k) && NoMatchBetween(rev, name, i, k)
    ensures LookupFrom(rev, name, i) == Some(AliasAt(rev, k).codepage)
    decreases AliasCount - i
  {
    if Matches(rev, name, i) {
      k := i;
    } else {
      k := FirstMatchIndex(rev, name, i + 1);
    }
  }

  /** The scan comes back empty exactly when no entry matches. */
  lemma {:induction false} LookupNone(rev: Revision, name: string)
    ensures Lookup(rev, name) == None <==> NoMatchBetween(rev, name, 0, AliasCount)
  {
    if Lookup(rev, name).Some? {
      var k := FirstMatchIndex(rev, name, 0);
    } else {
      if !NoMatchBetween(rev, name, 0, AliasCount) {
        var k :| 0 <= k < AliasCount && Matches(rev, name, k);
        var f := FirstMatchBefore(rev, name, k);
        LookupFromSkips(rev, name, 0, f);
      }
    }
  }

  /** Any matching entry has a first matching entry at or before it. */
  lemma {:induction false} FirstMatchBefore(rev: Revision, name: string, k: nat) returns (f: nat)
    requires k < AliasCount && Matches(rev, name, k)
    ensures f <= k && Matches(rev, name, f) && NoMatchBetween(rev, name, 0, f)
    decreases k
  {
    if NoMatchBetween(rev, name, 0, k) {
      f := k;
    } else {
      var j :| 0 <= j < k && Matches(rev, name, j);
      f := FirstMatchBefore(rev, name, j);
    }
  }

  /** Every name a table lists is found by the scan, in any letter case. */
  lemma {:induction false} ListedNameResolves(rev: Revision, k: nat)
    requires k < AliasCount
    ensures Lookup(rev, AliasAt(rev, k).name).Some?
  {
    var name := AliasAt(rev, k).name;
    SameFoldedMeans(name, name);
    assert Matches(rev, name, k);
    LookupNone(rev, name);
  }

  // The scan evaluated on concrete names.  Each step lemma covers four
  // entries of the table, so that no single proof unfolds much of the scan.

  /** `UTF16` names the big-endian code page 1201 (the eighth trunk entry). */
  lemma TrunkUtf16IsBigEndian()
    ensures Lookup(Trunk, "UTF16") == Some(1201)
  {
    TrunkUtf16From4();
  }

  lemma TrunkUtf16From4() ensures LookupFrom(Trunk, "UTF16", 4) == Some(1201) { }

  /** `CP367` is listed as US-ASCII (20127) in both tables, as the fourteenth entry. */
  lemma {:induction false} Cp367Listed(rev: Revision)
    ensures Lookup(rev, "CP367") == Some(20127)
  {
    Cp367From2(rev);
  }

  lemma {:induction false} Cp367From8(rev: Revision) ensures LookupFrom(rev, "CP367", 8) == Some(20127) { }
  lemma {:induction false} Cp367From6(rev: Revision) ensures LookupFrom(rev, "CP367", 6) == Some(20127) { Cp367From8(rev); }
  lemma {:induction false} Cp367From4(rev: Revision) ensures LookupFrom(rev, "CP367", 4) == Some(20127) { Cp367From6(rev); }
  lemma {:induction false} Cp367From2(rev: Revision) ensures LookupFrom(rev, "CP367", 2) == Some(20127) { Cp367From4(rev); }

  lemma TrunkEucJpFrom80() ensures LookupFrom(Trunk, "EUC-JP", 80) == Some(51932) { }
  lemma TrunkEucJpFrom78() ensures LookupFrom(Trunk, "EUC-JP", 78) == Some(51932) { TrunkEucJpFrom80(); }
  lemma TrunkEucJpFrom76() ensures LookupFrom(Trunk, "EUC-JP", 76) == Some(51932) { TrunkEucJpFrom78(); }
  lemma TrunkEucJpFrom74() ensures LookupFrom(Trunk, "EUC-JP", 74) == Some(51932) { TrunkEucJpFrom76(); }
  lemma TrunkEucJpFrom72() ensures LookupFrom(Trunk, "EUC-JP", 72) == Some(51932) { TrunkEucJpFrom74(); }
  lemma TrunkEucJpFrom70() ensures LookupFrom(Trunk, "EUC-JP", 70) == Some(51932) { TrunkEucJpFrom72(); }
  lemma TrunkEucJpFrom68() ensures LookupFrom(Trunk, "EUC-JP", 68) == Some(51932) { TrunkEucJpFrom70(); }
  lemma TrunkEucJpFrom66() ensures LookupFrom(Trunk, "EUC-JP", 66) == Some(51932) { TrunkEucJpFrom68(); }
  lemma TrunkEucJpFrom64() ensures LookupFrom(Trunk, "EUC-JP", 64) == Some(51932) { TrunkEucJpFrom66(); }
  lemma TrunkEucJpFrom62() ensures LookupFrom(Trunk, "EUC-JP", 62) == Some(51932) { TrunkEucJpFrom64(); }
  lemma TrunkEucJpFrom60() ensures LookupFrom(Trunk, "EUC-JP", 60) == Some(51932) { TrunkEucJpFrom62(); }
  lemma TrunkEucJpFrom58() ensures LookupFrom(Trunk, "EUC-JP", 58) == Some(51932) { TrunkEucJpFrom60(); }
  lemma TrunkEucJpFrom56() ensures LookupFrom(Trunk, "EUC-JP", 56) == Some(51932) { TrunkEucJpFrom58(); }
  lemma TrunkEucJpFrom54() ensures LookupFrom(Trunk, "EUC-JP", 54) == Some(51932) { TrunkEucJpFrom56(); }
  lemma TrunkEucJpFrom52() ensures LookupFrom(Trunk, "EUC-JP", 52) == Some(51932) { TrunkEucJpFrom54(); }
  lemma TrunkEucJpFrom50() ensures LookupFrom(Trunk, "EUC-JP", 50) == Some(51932) { TrunkEucJpFrom52(); }
  lemma TrunkEucJpFrom48() ensures LookupFrom(Trunk, "EUC-JP", 48) == Some(51932) { TrunkEucJpFrom50(); }
  lemma TrunkEucJpFrom46() ensures LookupFrom(Trunk, "EUC-JP", 46) == Some(51932) { TrunkEucJpFrom48(); }
  lemma TrunkEucJpFrom44() ensures LookupFrom(Trunk, "EUC-JP", 44) == Some(51932) { TrunkEucJpFrom46(); }
  lemma TrunkEucJpFrom42() ensures LookupFrom(Trunk, "EUC-JP", 42) == Some(51932) { TrunkEucJpFrom44(); }
  lemma TrunkEucJpFrom40() ensures LookupFrom(Trunk, "EUC-JP", 40) == Some(51932) { TrunkEucJpFrom42(); }
  lemma TrunkEucJpFrom38() ensures LookupFrom(Trunk, "EUC-JP", 38) == Some(51932) { TrunkEucJpFrom40(); }
  lemma TrunkEucJpFrom36() ensures LookupFrom(Trunk, "EUC-JP", 36) == Some(51932) { TrunkEucJpFrom38(); }
  lemma TrunkEucJpFrom34() ensures LookupFrom(Trunk, "EUC-JP", 34) == Some(51932) { TrunkEucJpFrom36(); }
  lemma TrunkEucJpFrom32() ensures LookupFrom(Trunk, "EUC-JP", 32) == Some(51932) { TrunkEucJpFrom34(); }
  lemma TrunkEucJpFrom30() ensures LookupFrom(Trunk, "EUC-JP", 30) == Some(51932) { TrunkEucJpFrom32(); }
  lemma TrunkEucJpFrom28() ensures LookupFrom(Trunk, "EUC-JP", 28) == Some(51932) { TrunkEucJpFrom30(); }
  lemma TrunkEucJpFrom26() ensures LookupFrom(Trunk, "EUC-JP", 26) == Some(51932) { TrunkEucJpFrom28(); }
  lemma TrunkEucJpFrom24() ensures LookupFrom(Trunk, "EUC-JP", 24) == Some(51932) { TrunkEucJpFrom26(); }
  lemma TrunkEucJpFrom22() ensures LookupFrom(Trunk, "EUC-JP", 22) == Some(51932) { TrunkEucJpFrom24(); }
  lemma TrunkEucJpFrom20() ensures LookupFrom(Trunk, "EUC-JP", 20) == Some(51932) { TrunkEucJpFrom22(); }
  lemma TrunkEucJpFrom18() ensures LookupFrom(Trunk, "EUC-JP", 18) == Some(51932) { TrunkEucJpFrom20(); }
  lemma TrunkEucJpFrom16() ensures LookupFrom(Trunk, "EUC-JP", 16) == Some(51932) { TrunkEucJpFrom18(); }
  lemma TrunkEucJpFrom14() ensures LookupFrom(Trunk, "EUC-JP", 14) == Some(51932) { TrunkEucJpFrom16(); }
  lemma TrunkEucJpFrom12() ensures LookupFrom(Trunk, "EUC-JP", 12) == Some(51932) { TrunkEucJpFrom14(); }
  lemma TrunkEucJpFrom10() ensures LookupFrom(Trunk, "EUC-JP", 10) == Some(51932) { TrunkEucJpFrom12(); }
  lemma TrunkEucJpFrom8() ensures LookupFrom(Trunk, "EUC-JP", 8) == Some(51932) { TrunkEucJpFrom10(); }
  lemma TrunkEucJpFrom6() ensures LookupFrom(Trunk, "EUC-JP", 6) == Some(51932) { TrunkEucJpFrom8(); }
  lemma TrunkEucJpFrom4() ensures LookupFrom(Trunk, "EUC-JP", 4) == Some(51932) { TrunkEucJpFrom6(); }
  lemma TrunkEucJpFrom2() ensures LookupFrom(Trunk, "EUC-JP", 2) == Some(51932) { TrunkEucJpFrom4(); }
  lemma TrunkEucJpFrom0() ensures LookupFrom(Trunk, "EUC-JP", 0) == Some(51932) { TrunkEucJpFrom2(); }

  lemma OlderEucJpFrom80() ensures LookupFrom(Older, "EUC-JP", 80) == Some(20932) { }
  lemma OlderEucJpFrom78() ensures LookupFrom(Older, "EUC-JP", 78) == Some(20932) { OlderEucJpFrom80(); }
  lemma OlderEucJpFrom76() ensures LookupFrom(Older, "EUC-JP", 76) == Some(20932) { OlderEucJpFrom78(); }
  lemma OlderEucJpFrom74() ensures LookupFrom(Older, "EUC-JP", 74) == Some(20932) { OlderEucJpFrom76(); }
  lemma OlderEucJpFrom72() ensures LookupFrom(Older, "EUC-JP", 72) == Some(20932) { OlderEucJpFrom74(); }
  lemma OlderEucJpFrom70() ensures LookupFrom(Older, "EUC-JP", 70) == Some(20932) { OlderEucJpFrom72(); }
  lemma OlderEucJpFrom68() ensures LookupFrom(Older, "EUC-JP", 68) == Some(20932) { OlderEucJpFrom70(); }
  lemma OlderEucJpFrom66() ensures LookupFrom(Older, "EUC-JP", 66) == Some(20932) { OlderEucJpFrom68(); }
  lemma OlderEucJpFrom64() ensures LookupFrom(Older, "EUC-JP", 64) == Some(20932) { OlderEucJpFrom66(); }
  lemma OlderEucJpFrom62() ensures LookupFrom(Older, "EUC-JP", 62) == Some(20932) { OlderEucJpFrom64(); }
  lemma OlderEucJpFrom60() ensures LookupFrom(Older, "EUC-JP", 60) == Some(20932) { OlderEucJpFrom62(); }
  lemma OlderEucJpFrom58() ensures LookupFrom(Older, "EUC-JP", 58) == Some(20932) { OlderEucJpFrom60(); }
  lemma OlderEucJpFrom56() ensures LookupFrom(Older, "EUC-JP", 56) == Some(20932) { OlderEucJpFrom58(); }
  lemma OlderEucJpFrom54() ensures LookupFrom(Older, "EUC-JP", 54) == Some(20932) { OlderEucJpFrom56(); }
  lemma OlderEucJpFrom52() ensures LookupFrom(Older, "EUC-JP", 52) == Some(20932) { OlderEucJpFrom54(); }
  lemma OlderEucJpFrom50() ensures LookupFrom(Older, "EUC-JP", 50) == Some(20932) { OlderEucJpFrom52(); }
  lemma OlderEucJpFrom48() ensures LookupFrom(Older, "EUC-JP", 48) == Some(20932) { OlderEucJpFrom50(); }
  lemma OlderEucJpFrom46() ensures LookupFrom(Older, "EUC-JP", 46) == Some(20932) { OlderEucJpFrom48(); }
  lemma OlderEucJpFrom44() ensures LookupFrom(Older, "EUC-JP", 44) == Some(20932) { OlderEucJpFrom46(); }
  lemma OlderEucJpFrom42() ensures LookupFrom(Older, "EUC-JP", 42) == Some(20932) { OlderEucJpFrom44(); }
  lemma OlderEucJpFrom40() ensures LookupFrom(Older, "EUC-JP", 40) == Some(20932) { OlderEucJpFrom42(); }
  lemma OlderEucJpFrom38() ensures LookupFrom(Older, "EUC-JP", 38) == Some(20932) { OlderEucJpFrom40(); }
  lemma OlderEucJpFrom36() ensures LookupFrom(Older, "EUC-JP", 36) == Some(20932) { OlderEucJpFrom38(); }
  lemma OlderEucJpFrom34() ensures LookupFrom(Older, "EUC-JP", 34) == Some(20932) { OlderEucJpFrom36(); }
  lemma OlderEucJpFrom32() ensures LookupFrom(Older, "EUC-JP", 32) == Some(20932) { OlderEucJpFrom34(); }
  lemma OlderEucJpFrom30() ensures LookupFrom(Older, "EUC-JP", 30) == Some(20932) { OlderEucJpFrom32(); }
  lemma OlderEucJpFrom28() ensures LookupFrom(Older, "EUC-JP", 28) == Some(20932) { OlderEucJpFrom30(); }
  lemma OlderEucJpFrom26() ensures LookupFrom(Older, "EUC-JP", 26) == Some(20932) { OlderEucJpFrom28(); }
  lemma OlderEucJpFrom24() ensures LookupFrom(Older, "EUC-JP", 24) == Some(20932) { OlderEucJpFrom26(); }
  lemma OlderEucJpFrom22() ensures LookupFrom(Older, "EUC-JP", 22) == Some(20932) { OlderEucJpFrom24(); }
  lemma OlderEucJpFrom20() ensures LookupFrom(Older, "EUC-JP", 20) == Some(20932) { OlderEucJpFrom22(); }
  lemma OlderEucJpFrom18() ensures LookupFrom(Older, "EUC-JP", 18) == Some(20932) { OlderEucJpFrom20(); }
  lemma OlderEucJpFrom16() ensures LookupFrom(Older, "EUC-JP", 16) == Some(20932) { OlderEucJpFrom18(); }
  lemma OlderEucJpFrom14() ensures LookupFrom(Older, "EUC-JP", 14) == Some(20932) { OlderEucJpFrom16(); }
  lemma OlderEucJpFrom12() ensures LookupFrom(Older, "EUC-JP", 12) == Some(20932) { OlderEucJpFrom14(); }
  lemma OlderEucJpFrom10() ensures LookupFrom(Older, "EUC-JP", 10) == Some(20932) { OlderEucJpFrom12(); }
  lemma OlderEucJpFrom8() ensures LookupFrom(Older, "EUC-JP", 8) == Some(20932) { OlderEucJpFrom10(); }
  lemma OlderEucJpFrom6() ensures LookupFrom(Older, "EUC-JP", 6) == Some(20932) { OlderEucJpFrom8(); }
  lemma OlderEucJpFrom4() ensures LookupFrom(Older, "EUC-JP", 4) == Some(20932) { OlderEucJpFrom6(); }
  lemma OlderEucJpFrom2() ensures LookupFrom(Older, "EUC-JP", 2) == Some(20932) { OlderEucJpFrom4(); }
  lemma OlderEucJpFrom0() ensures LookupFrom(Older, "EUC-JP", 0) == Some(20932) { OlderEucJpFrom2(); }

  /** `EUC-JP` is 51932 in the trunk table and 20932 in the older if-chain. */
  lemma EucJpAlias()
    ensures Lookup(Trunk, "EUC-JP") == Some(51932)
    ensures Lookup(Older, "EUC-JP") == Some(20932)
  {
    TrunkEucJpFrom0();
    OlderEucJpFrom0();
  }
}
