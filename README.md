# vim-soko helpers in Dafny

This project is a Dafny model of the byte-level helpers that the vim-soko plugins carry with them.

- **win_iconv.** The Windows replacement for `iconv`, in two revisions.
  - The trunk revision (`trunk/win_iconv/win_iconv.c`) resolves an encoding name to a code page through the `codepage_alias` table. It wires a `csconv_t` per side with `mbtowc`/`wctomb`/`mblen` slots. It sizes characters with the `sbcs`/`dbcs`/`utf8`/`eucjp` probers and codes UTF-16LE/BE itself. `win_iconv` converts one character per turn, advancing the four caller cursors, until the input is used up or a turn fails with EINVAL, EILSEQ or E2BIG.
  - The older revision (`win_iconv/win_iconv.c`) resolves names with an if-chain, sizes characters with `cp_mblen`, and converts UTF-16 with `utf16_to_wchar`/`wchar_to_utf16`. It runs one of two loops, `kernel_iconv` or `mlang_iconv`, chosen by `iconv_open`.
- **vp_iobuf.** The FIFO that carries arguments and results between the editor and the SCIM bridge.
  - Items are separated by the terminator `\x01`.
  - Binary data travels as upper-case base16 (section 8 of RFC 4648).
  - The C version (`vp_iobuf_t`) is a growing `char` buffer with head and tail offsets.
  - The C++ twin (`vp::iobuf_t`) works over a `stringstream`.
- **IIIMF `utf16_to_utf8`.** The UTF-16 to UTF-8 conversion of the IIIMF bridge (section 3 of RFC 3629).
- **uim candidate paging.** The uim bridge's candidate index, count and page size, and the page shift.
- **if_v8.** The V8 bridge's `list_append` and `dict_find`.

## Modelling choices

- Bytes are `Byte` (0..255) and UTF-16 units are `Unit16` (0..0xFFFF).
- C's `/` and `%` on `int` truncate toward zero. `CLib.CDiv` and `CLib.CMod` model them.
- The Windows and MLang calls are fields of a `Win32.Platform` value passed as a parameter: `MultiByteToWideChar`, `WideCharToMultiByte`, `IsValidCodePage`, `GetCPInfoEx`, `IsDBCSLeadByteEx`, the `ConvertINet*` pair and whether `load_mlang` succeeds. Every contract therefore holds whatever the platform answers. The model keeps only the signals the code tests:
  - a 0 return;
  - `usedDefaultChar`;
  - `ERROR_INSUFFICIENT_BUFFER`;
  - the units or bytes consumed;
  - the MLang mode.
- Each loop is proved against a recursive specification of the whole call (`WinIconv.Run`, `WinIconvOld.Run`, `VpWire.GetVarsSpec`, `Iiimf.Utf8Of`). The properties are proved as lemmas about that specification.
- `realloc` success is an `Allocator` parameter. `sscanf`/`sprintf` for `%p` are a `Libc` parameter.
- Where the code has a defect (see "## Findings"), both readings are modelled. Name resolution (`WinIconv.MakeCsConv`) and the older kernel loop follow the code as written. The trunk loop uses the corrected `kernel_wctomb`, and `Iiimf.Utf16ToUtf8` stops at the terminator; "## Left out" lists what that changes.
- The alias tables are literal sequences in `aliases.dfy`. Their step-by-step lookup lemmas (`Aliases.Cp367From*`, `Aliases.TrunkEucJpFrom*`, `Aliases.OlderEucJpFrom*`) walk the table a few entries at a time. They exist only to keep each proof about a particular name within the verifier's resource limit, and they have no rows of their own.
- The `stringstream` of `vp::iobuf_t` is modelled as its text, a get position, a put position and the eof/fail bits.

## Model

| member | source | states |
|---|---|---|
| Aliases.LookupFirstMatch | trunk/win_iconv/win_iconv.c:537-540 | the table scan answers `c` exactly when `c` is the code page of the first entry that matches the name case-insensitively |
| Aliases.LookupNone | trunk/win_iconv/win_iconv.c:537-540 | the scan finds nothing exactly when no entry matches |
| Aliases.ListedNameResolves | trunk/win_iconv/win_iconv.c:103-320 | every name the table lists is found, in any ASCII letter case |
| Aliases.TrunkUtf16IsBigEndian | trunk/win_iconv/win_iconv.c:115 | `UTF16` names the big-endian page 1201 |
| Aliases.Cp367Listed | trunk/win_iconv/win_iconv.c:124 | `CP367` is listed as US-ASCII, 20127, in both revisions' tables |
| Aliases.EucJpAlias | trunk/win_iconv/win_iconv.c:219 | `EUC-JP` is 51932 in the trunk table and 20932 in the older chain |
| Mblen.SbcsMblen | trunk/win_iconv/win_iconv.c:543-547 | every character of a single-byte page is one byte |
| Mblen.DbcsMblen | trunk/win_iconv/win_iconv.c:549-556 | two bytes after a lead byte and one otherwise; EINVAL when the input ends after a lead byte |
| Mblen.Utf8Mblen | trunk/win_iconv/win_iconv.c:558-576 | the lead byte's length is 1 to 6 by value range; any other lead is EILSEQ; a length longer than the input is EINVAL |
| Mblen.MaskClassification | trunk/win_iconv/win_iconv.c:564-569 | the bit-mask tests pick out exactly the value ranges of the lengths |
| Mblen.Utf8MblenAgreesWithRfc3629 | trunk/win_iconv/win_iconv.c:558-576 | RFC 3629 lead bytes announce 1 to 4 bytes, and a continuation byte is never accepted as a lead |
| Mblen.LoneE3IsIncomplete | win_iconv/win_iconv_test.c:139 | a lone E3 is an incomplete character (EINVAL) |
| Mblen.EucJpMblen | trunk/win_iconv/win_iconv.c:578-611 | ASCII is 1 byte; 8E is 2 bytes with A1-DF after it; 8F is 3 bytes with two A1-FE; any other lead is 2 bytes with A1-FE; short input is EINVAL; a byte out of range is EILSEQ |
| Mblen.EucJpTestExpectations | win_iconv/win_iconv_test.c:146-148 | A4 A2 is one character; a trailing A4 is EINVAL; FF FF is EILSEQ |
| Mblen.ProbeLength | trunk/win_iconv/win_iconv.c:618 | a prober's length lies within the input, and it never reports E2BIG |
| Mblen.ProbeLengthPrefix | trunk/win_iconv/win_iconv.c:543-611 | bytes after a complete character do not change a prober's answer |
| Utf16.Utf16LeMbtowc | trunk/win_iconv/win_iconv.c:684-706 | fewer than 2 bytes is EINVAL; a leading low surrogate is EILSEQ; a high surrogate needs 4 bytes (else EINVAL) and a low surrogate after it (else EILSEQ); success is 4 bytes and 2 units or 2 bytes and 1 unit |
| Utf16.Utf16BeMbtowc | trunk/win_iconv/win_iconv.c:726-748 | the same rules, most significant byte first |
| Utf16.Utf16LeEncodeDecode | trunk/win_iconv/win_iconv.c:684-706 | the little-endian bytes of a scalar value (section 2.1 of RFC 2781) decode back to it |
| Utf16.Utf16BeEncodeDecode | trunk/win_iconv/win_iconv.c:726-748 | the big-endian bytes of a scalar value decode back to it |
| Utf16.BeDecodeIsSwappedLe | trunk/win_iconv/win_iconv.c:684-748 | decoding big-endian is decoding the pair-swapped bytes little-endian |
| Utf16.Utf16LeWctombSpec | trunk/win_iconv/win_iconv.c:708-724 | E2BIG under 2 bytes of room, or under 4 for a pair; otherwise the units' bytes, least significant first |
| Utf16.Utf16BeWctombSpec | trunk/win_iconv/win_iconv.c:750-766 | the same, most significant byte first |
| Utf16.Utf16LeWctomb | trunk/win_iconv/win_iconv.c:708-724 | stores exactly the specified bytes into the caller's buffer and touches nothing else |
| Utf16.Utf16BeWctomb | trunk/win_iconv/win_iconv.c:750-766 | stores exactly the specified bytes into the caller's buffer and touches nothing else |
| Utf16.Utf16LeRoundTrip | trunk/win_iconv/win_iconv.c:684-724 | decoding and re-encoding little-endian gives back the bytes read, whatever stale units follow in the buffer |
| Utf16.Utf16BeRoundTrip | trunk/win_iconv/win_iconv.c:726-766 | decoding and re-encoding big-endian gives back the bytes read |
| Utf16.BeToLeSwapsPairs | win_iconv/win_iconv_test.c:124-126 | decoding big-endian and encoding little-endian swaps each byte pair |
| Utf16.LeToBeSwapsPairs | win_iconv/win_iconv_test.c:125-127 | decoding little-endian and encoding big-endian swaps each byte pair |
| Utf16.HighSurrogateWithoutLow | win_iconv/win_iconv_test.c:137 | DB FF E0 00 is EILSEQ |
| WinIconv.NameToCodepage | trunk/win_iconv/win_iconv.c:527-541 | the loop over the table up to its terminator computes the name's code page as resolved by the rules |
| WinIconv.CodepageOfNameRules | trunk/win_iconv/win_iconv.c:532-540 | a `cp` prefix gives `atoi` of the rest; a leading digit gives `atoi` of the name; otherwise the first table match; -1 when none matches |
| WinIconv.CodepageOfName | trunk/win_iconv/win_iconv.c:527-541 | a name that is neither a `cp` number nor starts with a digit is -1 exactly when no table entry matches it |
| WinIconv.TrunkCodepagesPositive | trunk/win_iconv/win_iconv.c:103-320 | no table entry is -1, so -1 always means unknown |
| WinIconv.CpNumber | trunk/win_iconv/win_iconv.c:532-533 | `cp` followed by the digits of `n` resolves to `n` |
| WinIconv.DigitsNumber | trunk/win_iconv/win_iconv.c:534-535 | the digits of `n` resolve to `n` |
| WinIconv.Cp932Name | trunk/win_iconv/win_iconv.c:532-533 | `cp932` resolves to 932 |
| WinIconv.Cp65001Name | trunk/win_iconv/win_iconv.c:532-533 | `CP65001` resolves to 65001 |
| WinIconv.NumericName | trunk/win_iconv/win_iconv.c:534-535 | `20127` resolves to 20127 |
| WinIconv.TableNames | trunk/win_iconv/win_iconv.c:537-540 | `UTF16` resolves to 1201 and `EUC-JP` to 51932 |
| WinIconv.CpPrefixShadowsTable | trunk/win_iconv/win_iconv.c:532-533 | `CP367` resolves to 367 although the table lists it as 20127 |
| WinIconv.ResolveCodepage | trunk/win_iconv/win_iconv.c:527-541 | corrected resolution: a listed name gives its entry; other names follow the numeric rules |
| WinIconv.ListedAliasesReachable | trunk/win_iconv/win_iconv.c:103-320 | with the correction, every listed alias reaches its own entry and is never -1 |
| WinIconv.ResolveCp367 | trunk/win_iconv/win_iconv.c:124 | with the correction, `CP367` resolves to 20127 |
| WinIconv.CsConvFor | trunk/win_iconv/win_iconv.c:471-525 | mode 0 and no flush; 1200/1201 get the UTF-16 codecs; 65001 gets the UTF-8 prober; 51932 gets MLang when it loads; a valid SBCS/DBCS page gets the kernel codecs; any other page becomes -1 |
| WinIconv.UnsupportedIsMinusOne | trunk/win_iconv/win_iconv.c:507-523 | a page outside the supported kinds is -1 |
| WinIconv.MakeCsConv | trunk/win_iconv/win_iconv.c:471-525 | the side of the code page `name_to_codepage` gives as written: mode 0, no flush, wired whenever not -1; a supported `cp` number is taken even for a name the table lists; an unlisted name that is not numeric is -1 |
| WinIconv.ShadowedAliasRefused | trunk/win_iconv/win_iconv.c:532-533 | on a system without page 367, `CP367` opens no side, although its table entry 20127 would be supported |
| WinIconv.KernelMbtowc | trunk/win_iconv/win_iconv.c:613-626 | the prober sizes the character; MultiByteToWideChar converts exactly those bytes into at most 16 units; a 0 return is EILSEQ; prober errors pass through |
| WinIconv.MlangMbtowc | trunk/win_iconv/win_iconv.c:648-664 | success exactly when MLang consumes the probed length; the updated mode is kept even on failure |
| WinIconv.Mbtowc | trunk/win_iconv/win_iconv.c:454 | a decoded character lies within the input and fits the 16-unit buffer; only MLang changes the mode |
| WinIconv.KernelWctombEmptyBuffer | trunk/win_iconv/win_iconv.c:634-645 | with no room, converting "A" reports 1 byte produced while storing none |
| WinIconv.KernelWctombAsWritten | trunk/win_iconv/win_iconv.c:628-646 | as written: at most the room is stored; success stores the converted bytes without a default character; with no room it stores nothing and succeeds exactly when the conversion would give bytes, counting them as produced |
| WinIconv.KernelWctomb | trunk/win_iconv/win_iconv.c:628-646 | corrected: success stores exactly the converted bytes within the room and without a default character; E2BIG exactly when non-empty output does not fit, including an empty buffer |
| WinIconv.WctombSpecKernelRoom | trunk/win_iconv/win_iconv.c:628-646 | the loop's kernel encoder is `kernel_wctomb` as written whenever there is room; with none, where the source's size query succeeds and stores nothing, the model reports E2BIG |
| WinIconv.MlangWctomb | trunk/win_iconv/win_iconv.c:666-682 | success exactly when all units are consumed and the bytes fit; E2BIG exactly when they do not fit; otherwise EILSEQ |
| WinIconv.WctombSpec | trunk/win_iconv/win_iconv.c:458 | with the corrected kernel encoder (`WinIconv.KernelWctomb`), output stays within the room; the count returned is the bytes stored; never EINVAL |
| WinIconv.Wctomb | trunk/win_iconv/win_iconv.c:458 | with the corrected kernel encoder (`WinIconv.KernelWctomb`), stores the slot's bytes at the output cursor and nothing else |
| WinIconv.ConvStep | trunk/win_iconv/win_iconv.c:452-465 | with the corrected kernel encoder (`WinIconv.KernelWctomb`), a turn consumes 1 to all of the input, stays within the room and keeps both sides wired |
| WinIconv.Run | trunk/win_iconv/win_iconv.c:450-468 | with the corrected kernel encoder (`WinIconv.KernelWctomb`), consumed never exceeds the input; produced plus pending output fits the room; no error exactly when all input is consumed |
| WinIconv.RunConcat | trunk/win_iconv/win_iconv.c:450-468 | with the corrected kernel encoder (`WinIconv.KernelWctomb`), converting `a + b` in one call is converting `a` and then `b` from the state `a` leaves |
| WinIconv.Utf16RunBytes | trunk/win_iconv/win_iconv.c:450-468 | between the UTF-16 codecs a call copies the consumed bytes for the same byte order and swaps each pair otherwise |
| WinIconv.Utf16BeToLeExample | win_iconv/win_iconv_test.c:124 | UTF-16BE 01 02 gives UTF-16LE 02 01 |
| WinIconv.IncompleteUtf8Example | win_iconv/win_iconv_test.c:139 | UTF-8 E3 stops with EINVAL having consumed nothing |
| WinIconv.TruncatedEucJpExample | win_iconv/win_iconv_test.c:147 | EUC-JP A4 A2 A4 gives 30 42 and stops with EINVAL after the first character |
| WinIconv.ConvertChar | trunk/win_iconv/win_iconv.c:452-460 | with the corrected kernel encoder (`WinIconv.KernelWctomb`), the loop body stores what the specified turn stores and returns its counts and new state |
| WinIconv.Advance | trunk/win_iconv/win_iconv.c:450-466 | with the corrected kernel encoder (`WinIconv.KernelWctomb`), one turn extends the written output and leaves the rest of the call as specified |
| WinIconv.Iconv.ResetState | trunk/win_iconv/win_iconv.c:436-448 | a NULL input resets the output side's mode to 0, writes nothing and returns 0 |
| WinIconv.Iconv.Convert | trunk/win_iconv/win_iconv.c:427-469 | with the corrected kernel encoder (`WinIconv.KernelWctomb`), the cursors move by exactly what the completed turns consumed and produced, so consumed plus left is the input length; -1 with the error of the failing turn |
| WinIconv.IconvOpen | trunk/win_iconv/win_iconv.c:386-407 | names resolve as `name_to_codepage` is written (`WinIconv.MakeCsConv`); EINVAL and no descriptor exactly when either side is -1; otherwise a fresh descriptor holding both sides |
| WinIconvOld.OldCodepageOfNameRules | win_iconv/win_iconv.c:374-600 | a `cp` number is taken only when it is a valid code page; otherwise the first chain match; -1 when none matches |
| WinIconvOld.OlderCodepagesPositive | win_iconv/win_iconv.c:384-598 | no chain entry answers -1 |
| WinIconvOld.OldEucJpName | win_iconv/win_iconv.c:498 | `EUC-JP` is 20932 on every system |
| WinIconvOld.OldCp367Name | win_iconv/win_iconv.c:377-404 | `CP367` is 367 when valid and otherwise falls through to its chain entry, 20127 |
| WinIconvOld.CpMblen | win_iconv/win_iconv.c:608-656 | UTF-16 gives 4 after a high surrogate and 2 otherwise; UTF-8 leads give 1 to 6; SBCS gives 1; DBCS gives 2 after a lead byte; anything else is -1 |
| WinIconvOld.CpMblenEucJp | win_iconv/win_iconv.c:613-614 | 51932 is sized exactly as 20932 |
| WinIconvOld.CpMblenUnknown | win_iconv/win_iconv.c:642-655 | a page that is not UTF-16 or UTF-8 and has no CP info is -1 |
| WinIconvOld.OneUtf16ByteIsIncomplete | win_iconv/win_iconv.c:616-631 | one UTF-16 byte is always shorter than its length |
| WinIconvOld.Utf16ToWcharSpec | win_iconv/win_iconv.c:658-673 | the first unit, swapped for 1200, goes to `wbuf[0]`; after a high surrogate the second goes to `wbuf[1]` and must be a low surrogate |
| WinIconvOld.Utf16ToWchar | win_iconv/win_iconv.c:658-673 | writes the buffer as specified |
| WinIconvOld.Utf16ToWcharAgreesWithTrunk | win_iconv/win_iconv.c:658-673 | except at a leading low surrogate, accepts what the trunk decoder accepts and yields the same units |
| WinIconvOld.LoneLowSurrogateAccepted | win_iconv/win_iconv.c:658-673 | a lone low surrogate passes, where the trunk decoder gives EILSEQ |
| WinIconvOld.WcharToUtf16AsWrittenSpec | win_iconv/win_iconv.c:675-700 | as written, the fourth byte of a pair comes from `wbuf[2]` |
| WinIconvOld.WcharToUtf16AsWritten | win_iconv/win_iconv.c:675-700 | writes the as-written bytes |
| WinIconvOld.WcharToUtf16Defect | win_iconv/win_iconv.c:685 | the pair D800 DC00 with 0 in `wbuf[2]` comes out as 00 D8 00 00 |
| WinIconvOld.WcharToUtf16Spec | win_iconv/win_iconv.c:675-700 | corrected: the fourth byte comes from `wbuf[1]` |
| WinIconvOld.WcharToUtf16 | win_iconv/win_iconv.c:675-700 | writes the corrected bytes |
| WinIconvOld.WcharToUtf16Serialises | win_iconv/win_iconv.c:675-700 | the corrected helper serialises one or two units exactly as the trunk encoders do and leaves the rest of the buffer alone |
| WinIconvOld.WcharToUtf16AsWrittenAgrees | win_iconv/win_iconv.c:675-700 | the as-written helper stores what the corrected one stores, except the fourth byte of a pair, which is a byte of `wbuf[2]` |
| WinIconvOld.Utf16RoundTripOld | win_iconv/win_iconv.c:658-700 | widening a UTF-16 character and narrowing it back with the corrected helper reproduces its bytes |
| WinIconvOld.KernelWiden | win_iconv/win_iconv.c:225-245 | `len / 2` units for UTF-16, where `len` is twice the units written; MultiByteToWideChar otherwise |
| WinIconvOld.KernelNarrow | win_iconv/win_iconv.c:247-267 | `wchar_to_utf16` as written for UTF-16, `WideCharToMultiByte` otherwise; the output is at most the 32-byte buffer |
| WinIconvOld.Step | win_iconv/win_iconv.c:210-279 | a turn consumes within the input and stays within the room; the kernel loop changes no mode |
| WinIconvOld.StepCheckOrder | win_iconv/win_iconv.c:212-222 | a length of -1 is EILSEQ, then a short input is EINVAL, both before any conversion; a converted character consumes its `cp_mblen` length |
| WinIconvOld.StepRoom | win_iconv/win_iconv.c:269-273 | E2BIG only when a converted character needs more than the room left; with 32 bytes of room the same turn succeeds |
| WinIconvOld.Run | win_iconv/win_iconv.c:210-282 | consumed within the input; produced within the room; no error exactly when all input is consumed; a failing turn writes nothing |
| WinIconvOld.KernelUtf16StepBytes | win_iconv/win_iconv.c:212-279 | between UTF-16LE and UTF-16BE a turn on one unit copies or swaps its two bytes; on a surrogate pair the first three bytes likewise, and the fourth is a byte of the stale `wbuf[2]` |
| WinIconvOld.KernelPairStaleByte | win_iconv/win_iconv.c:685 | UTF-16BE D8 00 DC 00 converted to UTF-16LE with 0 in `wbuf[2]` gives 00 D8 00 00 |
| WinIconvOld.KernelUtf16RunBytes | win_iconv/win_iconv.c:210-282 | on text without surrogate pairs, between UTF-16LE and UTF-16BE a call copies or swaps each byte pair |
| WinIconvOld.KernelChar | win_iconv/win_iconv.c:212-279 | the kernel loop body, with `wchar_to_utf16` as written, stores the character only after every check passes |
| WinIconvOld.MlangChar | win_iconv/win_iconv.c:302-359 | the MLang loop body stores the character and returns both sides' new modes |
| WinIconvOld.Advance | win_iconv/win_iconv.c:210-280 | one turn of either loop extends the output as specified |
| WinIconvOld.OldIconv.Convert | win_iconv/win_iconv.c:196-283 | a NULL input returns 0 and touches nothing; otherwise the cursors move by exactly the completed turns, and a failing turn leaves them and the output untouched |
| WinIconvOld.OldIconvOpen | win_iconv/win_iconv.c:135-175 | EINVAL when either side is -1 or MLang is needed and cannot load; the kernel loop exactly when both pages are kernel pages |
| VpWire.EovIndexMeans | scim-vim/autoload/vp_iobuf.c:125 | the offset found is that of the first terminator |
| VpWire.NextTokenMeans | scim-vim/autoload/vp_iobuf.c:115-133 | empty text is "no data"; no terminator is "EOV error"; otherwise the token is the text before the first terminator and reading resumes after it |
| VpWire.NextTokenOfItem | scim-vim/autoload/vp_iobuf.c:180-194 | a terminated item is read back as that item |
| VpWire.HexTextAt | scim-vim/autoload/vp_iobuf.c:197-213 | byte `i` becomes the upper-case pair at offsets 2i and 2i+1, high nibble first |
| VpWire.HexDecode | scim-vim/autoload/vp_iobuf.c:136-159 | pairs of digits of either case give a byte each; an odd length or a non-digit is "format error" |
| VpWire.HexRoundTrip | scim-vim/autoload/vp_iobuf.c:136-213 | what `put_bin` writes, `get_bin` reads back |
| VpWire.ScanDecimalRoundTrip | scim-vim/autoload/vp_iobuf.c:162-229 | a number `put_fmt` prints with `%d`, `get_fmt` scans back |
| VpWire.ScanDecimalAgreesWithAtoi | scim-vim/autoload/vp_iobuf.c:162-177 | what the `%d%n` scan accepts, `atoi` reads the same way |
| VpWire.GetVarsSpec | scim-vim/autoload/vp_iobuf.c:232-266 | one item per format letter until the first error; an unknown letter is an error |
| VpWire.GetVarsOfItems | scim-vim/autoload/vp_iobuf.c:232-315 | what `put_vars` writes for a list of values, `get_vars` with the same letters reads back value for value, and what follows is left |
| VpWire.GetArgsSpec | scim-vim/autoload/vp_iobuf.c:318-329 | every letter read and nothing left over, else "too many arguments" |
| VpWire.GetArgsOfItems | scim-vim/autoload/vp_iobuf.c:279-329 | a call's arguments written by `put_vars` are exactly what `get_args` accepts |
| VpWire.GetArgsRefusesExtra | scim-vim/autoload/vp_iobuf.c:318-329 | a trailing item the format does not ask for is refused |
| VpIobuf.GrownSizeMeans | scim-vim/autoload/vp_iobuf.c:100-101 | the doubling stops at the first size that holds the need |
| VpIobuf.DecodeHexInPlace | scim-vim/autoload/vp_iobuf.c:147-156 | the token is decoded in place pair by pair, with a NUL after the bytes; it stops at the first bad pair |
| VpIobuf.CutToken | scim-vim/autoload/vp_iobuf.c:121-132 | returns the text up to the first terminator and overwrites that terminator with a NUL |
| VpIobuf.Realloc | scim-vim/autoload/vp_iobuf.c:102 | a new block that begins with the old contents |
| VpIobuf.CatItem | scim-vim/autoload/vp_iobuf.c:190-193 | `str`, then the terminator, then a NUL at the tail |
| VpIobuf.HexItem | scim-vim/autoload/vp_iobuf.c:207-212 | the upper-case pairs, then the terminator and a NUL |
| VpIobuf.IoBuf.constructor | scim-vim/autoload/vp_iobuf.c:47-55 | nothing allocated, no error |
| VpIobuf.IoBuf.Clear | scim-vim/autoload/vp_iobuf.c:67-76 | the buffer released and the error forgotten |
| VpIobuf.IoBuf.Reserve | scim-vim/autoload/vp_iobuf.c:93-112 | a set error changes nothing; on success the size is 512 doubled until it holds `needsize + 1`, with contents and offsets kept; a failed realloc clears the buffer and sets the error |
| VpIobuf.IoBuf.Reset | scim-vim/autoload/vp_iobuf.c:79-90 | the error is dropped and the pending text becomes `args`, with NULL read as "" |
| VpIobuf.IoBuf.GetStr | scim-vim/autoload/vp_iobuf.c:115-133 | a set error changes nothing; otherwise the next token with head past its terminator, or "no data" / "EOV error" |
| VpIobuf.IoBuf.GetBin | scim-vim/autoload/vp_iobuf.c:136-159 | a set error changes nothing; otherwise the token decoded in place, or "format error" |
| VpIobuf.IoBuf.GetFmt | scim-vim/autoload/vp_iobuf.c:162-177 | a set error changes nothing; otherwise the token must scan wholly as one value, else "format error" |
| VpIobuf.IoBuf.GetItem | scim-vim/autoload/vp_iobuf.c:243-264 | the item one format letter asks for, as the wire specification reads it |
| VpIobuf.IoBuf.GetVars | scim-vim/autoload/vp_iobuf.c:232-276 | the values and error are exactly those of the wire specification on the pending text |
| VpIobuf.IoBuf.PutStr | scim-vim/autoload/vp_iobuf.c:180-194 | a set error changes nothing; otherwise `str`, the terminator and a NUL are appended after the pending text |
| VpIobuf.IoBuf.PutBin | scim-vim/autoload/vp_iobuf.c:197-213 | a set error changes nothing; otherwise two upper-case digits per byte and a terminator are appended |
| VpIobuf.IoBuf.Appended | scim-vim/autoload/vp_iobuf.c:180-213 | after an append the pending text is the old text followed by the item, with a NUL after it |
| VpIobuf.IoBuf.PutFmt | scim-vim/autoload/vp_iobuf.c:216-229 | a set error changes nothing; otherwise the printed value is appended as one item |
| VpIobuf.IoBuf.PutItem | scim-vim/autoload/vp_iobuf.c:291-312 | the item for one argument, written by the put its letter selects |
| VpIobuf.IoBuf.PutVars | scim-vim/autoload/vp_iobuf.c:279-315 | the pending text gains the items of the known prefix of the format; an unknown letter sets the error; a realloc that never fails leaves no allocation error |
| VpIobuf.IoBuf.GetArgs | scim-vim/autoload/vp_iobuf.c:318-329 | reset to `args`, read by `fmt`, refused with text left over; true exactly when no error is set |
| VpIobuf.IoBuf.Return | scim-vim/autoload/vp_iobuf.c:332-337 | the error when set, else the pending text, NULL before any reset |
| ScimIobuf.Opened | trunk/scim-vim/autoload/scim-vim.cpp:52-58 | a fresh or re-set stream holds the text, is good, and both positions are at the start |
| ScimIobuf.Write | trunk/scim-vim/autoload/scim-vim.cpp:97-101 | a write lands at the put position while the stream is good, and not otherwise |
| ScimIobuf.WriteAppends | trunk/scim-vim/autoload/scim-vim.cpp:97-101 | with the put position at the end, a write appends and the reader sees it after the unread text |
| ScimIobuf.WriteAfterReset | trunk/scim-vim/autoload/scim-vim.cpp:55-58 | after `str(t)` the next write overwrites `t` from its start |
| ScimIobuf.GetLine | trunk/scim-vim/autoload/scim-vim.cpp:78-81 | on a stream that is not good the variable keeps its value; otherwise the text up to the terminator, which is dropped |
| ScimIobuf.GetLineMeans | trunk/scim-vim/autoload/scim-vim.cpp:78-81 | on a good stream the result is the token the C reader finds; where the C reader refuses, the stream sets its eof/fail bits |
| ScimIobuf.LineRoundTrip | trunk/scim-vim/autoload/scim-vim.cpp:78-101 | a terminated item at the get position is read back as itself |
| ScimIobuf.ScanIntAgrees | trunk/scim-vim/autoload/scim-vim.cpp:66-77 | the typed extractor accepts what `%d%n` accepts and reads the same value; it also takes an empty or blank token or a lone sign without error |
| ScimIobuf.IntRoundTrip | trunk/scim-vim/autoload/scim-vim.cpp:66-101 | an `int` written with `<<` is read back by `>>` without error |
| ScimIobuf.ReadPastEnd | trunk/scim-vim/autoload/scim-vim.cpp:66-77 | a typed read past the end raises no error, leaves the variable alone and fails the stream |
| ScimIobuf.DecodePairs | trunk/scim-vim/autoload/scim-vim.cpp:88-94 | one byte per digit pair of either case, in order; a non-digit, including the terminator of an odd tail, is "format error" |
| ScimIobuf.BufRoundTrip | trunk/scim-vim/autoload/scim-vim.cpp:82-109 | binary data written with `<<` is read back by `>>` into the same bytes |
| ScimIobuf.IoBuf.constructor | trunk/scim-vim/autoload/scim-vim.cpp:52-54 | the stream opened on the initial text |
| ScimIobuf.IoBuf.SetStr | trunk/scim-vim/autoload/scim-vim.cpp:55-58 | the contents are replaced and the state flags cleared |
| ScimIobuf.IoBuf.Str | trunk/scim-vim/autoload/scim-vim.cpp:59-62 | everything in the stream, read or not |
| ScimIobuf.IoBuf.GetString | trunk/scim-vim/autoload/scim-vim.cpp:78-81 | the text up to the next terminator, which is dropped |
| ScimIobuf.IoBuf.GetValue | trunk/scim-vim/autoload/scim-vim.cpp:66-77 | the next token is parsed; "format error" unless the parse reached the end of the token, after the variable was stored |
| ScimIobuf.IoBuf.GetBuf | trunk/scim-vim/autoload/scim-vim.cpp:82-96 | the target is cleared, then the next token is decoded |
| ScimIobuf.IoBuf.PutValue | trunk/scim-vim/autoload/scim-vim.cpp:97-101 | the printed value, then the terminator |
| ScimIobuf.IoBuf.PutBuf | trunk/scim-vim/autoload/scim-vim.cpp:102-109 | two upper-case digits per byte, high first, then the terminator |
| Iiimf.Utf8Bytes | iiimf-vim/autoload/iiimf-vim.c:380-394 | 1 byte up to 7F, 2 up to 7FF, 3 up to FFFF, 4 above; every byte after the first is a continuation byte |
| Iiimf.Utf8BytesRoundTrip | iiimf-vim/autoload/iiimf-vim.c:380-394 | the bytes decode back to the value, and the lead byte announces their count as the UTF-8 prober reads it |
| Iiimf.Combine | iiimf-vim/autoload/iiimf-vim.c:377 | a pair combines into a value in 10000-10FFFF, whatever the second unit is |
| Iiimf.StrLen | iiimf-vim/autoload/iiimf-vim.c:367 | the string ends at the first zero unit |
| Iiimf.Utf16ToUtf8 | iiimf-vim/autoload/iiimf-vim.c:360-397 | corrected: the result is the UTF-8 text of the units before the terminator, then a 0 |
| Iiimf.Utf8OfLength | iiimf-vim/autoload/iiimf-vim.c:380-396 | the text has at most three bytes per unit |
| Iiimf.Utf8OfScalars | iiimf-vim/autoload/iiimf-vim.c:367-395 | on well-formed big-endian UTF-16 without a BOM, the result is the RFC 3629 encoding of the scalar values |
| Iiimf.Utf8OfAsWritten | iiimf-vim/autoload/iiimf-vim.c:360-397 | as written: with no zero unit ahead in the memory the walk reads past its end; otherwise at most three bytes per unit walked |
| Iiimf.LittleEndianSwaps | iiimf-vim/autoload/iiimf-vim.c:371-376 | with `little_endian` set the result is that of the swapped units read as is |
| Iiimf.BomCheckedBeforeSwap | iiimf-vim/autoload/iiimf-vim.c:369-372 | FEFF is dropped in either mode, while a swapped BOM is written out as EF BB BF |
| Iiimf.UncheckedPartner | iiimf-vim/autoload/iiimf-vim.c:373-378 | a high surrogate takes the next unit as its partner even when that is not a low surrogate |
| Iiimf.AsWrittenAgrees | iiimf-vim/autoload/iiimf-vim.c:367-395 | unless the string ends in a lone high surrogate, the code as written gives the corrected result |
| Iiimf.ReadsPastTerminator | iiimf-vim/autoload/iiimf-vim.c:373-374 | as written, D800 before the terminator consumes it and converts what follows, or reads past the memory |
| Uim.ShiftedOnList | uim-vim/autoload/uim-vim.c:425-439 | for an index on the list, the C arithmetic is page arithmetic |
| Uim.ShiftStaysOnList | uim-vim/autoload/uim-vim.c:425-439 | with `0 <= index < nr` and `0 < limit <= nr`, a shift either way stays in `[0, nr)` |
| Uim.RightShiftNextPage | uim-vim/autoload/uim-vim.c:431-439 | off the last page, right moves to the next page at the same column or clamps to the last candidate |
| Uim.RightShiftWraps | uim-vim/autoload/uim-vim.c:431-433 | on the last page, right goes to `index % limit` on the first page |
| Uim.LeftShiftPreviousPage | uim-vim/autoload/uim-vim.c:425-429 | off the first page, left moves to the previous page at the same column |
| Uim.LeftShiftWraps | uim-vim/autoload/uim-vim.c:425-429 | on the first page, left adds `nr - limit`; that is the same column of the last page when the page size divides the count |
| Uim.LeftWrapUnevenPages | uim-vim/autoload/uim-vim.c:425-429 | with 5 candidates in pages of 2, left from 0 lands on 3, on the middle page |
| Uim.RightThenLeft | uim-vim/autoload/uim-vim.c:425-436 | a right shift that neither wraps nor clamps is undone by a left shift |
| Uim.LeftThenRight | uim-vim/autoload/uim-vim.c:425-436 | a left shift off the first page is undone by a right shift |
| Uim.Context.constructor | uim-vim/autoload/uim-vim.c:139-141 | index, count and page size start at 0 |
| Uim.Context.CandidateActivate | uim-vim/autoload/uim-vim.c:387-388 | stores the count and the page size |
| Uim.Context.CandidateSelect | uim-vim/autoload/uim-vim.c:411 | stores the index |
| Uim.Context.CandidateShiftPage | uim-vim/autoload/uim-vim.c:415-444 | the index becomes the shifted index, count and page size are kept, and a selection on the list stays on it |
| IfV8.List.constructor | if_v8/if_v8.cpp:139-176 | an empty, well-linked list |
| IfV8.List.Append | if_v8/if_v8.cpp:285-307 | the item ends the list and the links stay consistent; an empty list gets it as first and last with no prev; otherwise the old last links to it; the count grows by 1; `li_next` is NULL |
| IfV8.List.Walk | if_v8/if_v8.cpp:697 | following `li_next` from `lv_first` meets the items in order |
| IfV8.LookupKey | if_v8/if_v8.cpp:391-404 | the whole key for a negative length, otherwise its first `len` characters |
| IfV8.DictFind | if_v8/if_v8.cpp:378-411 | NULL when the heap copy of a long key fails; an item found is the one in the slot of the key looked up |
| IfV8.DictFindAnswers | if_v8/if_v8.cpp:378-411 | NULL exactly for a failed copy or an empty or removed slot; otherwise the item in the slot, carrying the key looked up when `hash_find` keeps its promise |
| IfV8.DictFindTruncates | if_v8/if_v8.cpp:391-404 | looking up with a length is looking up the truncated key |
| IfV8.DictFindInMap | if_v8/if_v8.cpp:378-411 | over a table holding the items of a map, the item of the key looked up exactly when the map has that key and the copy succeeded, and NULL otherwise |

## Left out

- The Windows and MLang primitives are parameters, not models: `MultiByteToWideChar`, `WideCharToMultiByte`, `IsValidCodePage`, `GetCPInfoEx`, `IsDBCSLeadByteEx`, `ConvertINetMultiByteToUnicode` and `ConvertINetUnicodeToMultiByte`. Code-page tables and the system's own conversions are therefore not modelled.
- CLib.EqualsIgnoreCase: `lstrcmpi`, which both name resolvers use to compare names, is ASCII case folding here. The Windows call compares in the user's locale, and that comparison is not modelled. Under a Turkish locale, for instance, `i` and `I` do not match, so `Aliases.LookupFirstMatch`, `Aliases.ListedNameResolves`, `WinIconv.CodepageOfName` and `WinIconvOld.OldCodepageOfNameRules` hold only for the ASCII folding.
- `load_mlang` (DLL loading cached in globals) is a boolean: whether MLang is available.
- The `MAKE_EXE` `main` of both win_iconv revisions (file and standard-stream I/O) is not part of this model.
- `iconv_close`, `vp_iobuf_delete`, `free` and the other releases of memory are not modelled: the model has no explicit deallocation.
- The test driver's expectations for code neither revision contains are not modelled: UTF-32, the `//nocompat` tables, CP932 wave-dash remapping, ISO-2022-JP output, the DLL delegation and the bare name `utf-16`. Its ASCII line that drops the top bit depends on the system's code page 20127.
- `mlang_mbtowc` and the older `mlang_iconv` keep the MLang mode after a failed call. The model keeps it too and specifies no rollback.
- WinIconvOld.KernelWiden: the C passes `sizeof(wbuf)` (32) as the unit capacity of the 16-unit buffer, and `mlang_iconv` does the same. The model passes 16, so a character that widens to more than 16 units is a failed call here rather than a write past the buffer.
- Integer widths: the code's `int` and `size_t` are unbounded here. `atoi` does not overflow, `cand_index + cand_limit` does not wrap, and `size *= 2` in `vp_iobuf_reserve` does not wrap. A `>>` into an `int` clamps as the C++ library does.
- VpIobuf.IoBuf.PutStr, PutBin, PutFmt, PutItem and PutVars require a buffer that a reset allocated (`Appendable`). Appending right after `vp_iobuf_new` makes the C `strcat` read uninitialised memory, which the model does not represent.
- `vp_iobuf_put_vars`/`vp_iobuf_get_vars` take C varargs. The model takes a list of `Value`s whose kinds match the format letters.
- The `%p` conversions of `sprintf`/`sscanf` are a `Libc` parameter.
- VpIobuf.IoBuf.PutFmt: `vsprintf` never fails in the model, so the "vsprintf error" branch is not modelled. The 64-byte `tmp` buffer is not modelled either.
- Iiimf.Utf16ToUtf8: the static 8196-byte buffer is a sequence, so the model has no overflow. The loop is modelled with the terminator respected; the code as written is modelled separately (`Iiimf.Utf8OfAsWritten`).
- Uim: the uim library calls, the `im_uim_*` messages and the iobuf traffic in the callbacks are not modelled. Neither is anything outside the three candidate fields.
- Uim.Context.CandidateShiftPage requires a non-zero page size for a right shift, since the C divides by it. A left shift is defined for any field values.
- IfV8: list items carry no values. `hash_find` is a parameter, and so is the success of `vim_strnsave`. The rest of `if_v8.cpp` (conversion between editor and V8 values, `dlsym`, file reading) and all of `if_spidermonkey.cpp` are not part of this model.
- WinIconv.WctombSpec: kernel pages are encoded with the corrected `WinIconv.KernelWctomb`, which agrees with `kernel_wctomb` as written whenever room is left (`WinIconv.WctombSpecKernelRoom`). With no room the source's size query reports the needed bytes as produced, so `*outbuf` moves past the buffer and `*outbytesleft` wraps; the next call then passes a negative size. The model reports E2BIG there instead.
- WinIconv.Wctomb: stores what `WinIconv.WctombSpec` specifies, so it shares its zero-room correction.
- WinIconv.ConvStep: a kernel turn with no room is E2BIG, not the source's counted size query.
- WinIconv.Run: the whole call shares the zero-room correction of `WinIconv.WctombSpec`; it agrees with the source on every turn that has room.
- WinIconv.RunConcat: stated over `WinIconv.Run`, with the same zero-room correction.
- WinIconv.ConvertChar: the loop body shares the zero-room correction of `WinIconv.WctombSpec`.
- WinIconv.Advance: shares the zero-room correction of `WinIconv.WctombSpec`.
- WinIconv.Iconv.Convert: the cursors never move past the buffer, because a kernel turn with no room is E2BIG; in the source it moves `*outbuf` past the end and wraps `*outbytesleft`.
- WinIconvOld.KernelUtf16RunBytes: stated only for text without surrogate pairs. On a pair the loop as written stores a byte of the stale `wbuf[2]` as the fourth byte; `WinIconvOld.KernelUtf16StepBytes` states what a turn then stores.
- IfV8.List.Append requires an item that is not already in the list. The C does not check this, and appending a listed item corrupts the links.
- The uim-ctl plugins, `misc/mysystem.c` and `trunk/misc/mydumpbin.c` (sockets, processes, PE images) are not part of this model.

## Findings

| source | as written | input that shows it | evidently intended | confidence | as-written member | corrected member |
|---|---|---|---|---|---|---|
| trunk/win_iconv/win_iconv.c:532-533 | a name starting with `cp`/`CP` is always read as a number, before the alias table | `CP367` resolves to 367 although the table lists it as 20127 (the same holds for the other listed `CP` names) | a listed name resolves to its table entry | medium, not executed | WinIconv.CpPrefixShadowsTable | WinIconv.ListedAliasesReachable |
| trunk/win_iconv/win_iconv.c:634-645 | `WideCharToMultiByte` is called with the remaining room, which can be 0, turning the call into a size query | converting "A" to 1252 with `*outbytesleft == 0` reports 1 byte produced and stores none, so the cursor moves past the buffer | an empty output buffer is E2BIG | medium, not executed | WinIconv.KernelWctombEmptyBuffer | WinIconv.KernelWctomb |
| win_iconv/win_iconv.c:685 | the fourth byte of a surrogate pair is taken from `wbuf[2]` (also line 695) | D800 DC00 with 0 in `wbuf[2]` is written as 00 D8 00 00 | the fourth byte comes from `wbuf[1]`, as in the trunk encoders | high, not executed | WinIconvOld.KernelPairStaleByte | WinIconvOld.Utf16RoundTripOld |
| iiimf-vim/autoload/iiimf-vim.c:373-374 | a high surrogate reads the next unit unconditionally, even the terminator | D800 0 41 0 gives F0 90 80 80 41, reading past the string's end | a lone high surrogate before the terminator does not consume it | high, not executed | Iiimf.ReadsPastTerminator | Iiimf.Utf16ToUtf8 |
