# Verified models of the MSIX package installer and its compression library

The MSIX SDK unpacks, installs and removes application packages. Two parts of it carry most of its
logic: the zlib copy in `lib/zlib`, which every package goes through, and the install engine of
`MsixCore`, which puts the contents of a package into a running system and takes them out again. The
modules here model both in Dafny and prove what they are for. `dafny verify dfyconfig.toml` checks all
of it.

**Compression.** `RollingHash`, `HashChains`, `MatchSearch`, `SlidingWindow`, `LongestMatch`,
`TokenOutput`, `Matchers` and `Deflater` follow `deflate.c` from the rolling hash up to whole runs of
`deflate()`: what is written expands, by section 3.2.3 of RFC 1951 (`Lz77`), to what was put in. The
skipped byte comparison, the window that slides under a held match and the ring of links are covered
for every window size, hash size and level from 1 to 9. `Decisions` says which match is found at each
string and which tokens that makes, as two small machines that the matchers are shown to follow, and
that what comes after a full flush stands on its own. `StoredFormat`, `StoredOutput`,
`StoredDeflate` and `StoredStream` do the same for level 0, down to the bits of the stored blocks and a
reader for them. `GzipHeader` and `DeflateStream` add the wrappers: a header that can be interrupted at
any byte, and a trailer that is written once. `WrappedStreams` puts the two checksums in and reads
complete gzip and zlib streams back, and `StoredWrapped` puts the stored blocks in: at level 0 the body
of such a stream is shown to inflate to the input that its checksum is of.

**Checksums.** `CrcField` is arithmetic modulo the CRC polynomial on reflected words; the modules
`CrcRegister` to `Crc32` follow `crc32.c` through its tables, words and braids, in both byte orders;
`CrcPowers` shows that x^(2^32) = x, so that the table of powers serves strings of any length;
`CrcPolynomial` ties the result to polynomial division. `Adler32` shows that reductions put off for up
to NMAX bytes lose nothing, and how checksums of parts combine.

**Files.** `GzLayout`, `GzRead` and `GzFile` show that the buffered reader refines a byte sequence with
a position, over gzip members, trailing bytes and uncompressed files. `GzWrite` does the same for
writing with gaps.

**Installing.** `SharedDlls`, `SharedDllsVersions` and `SharedDllsHistory` are about shared files, their
versions and their counts over histories of installs and removes; `RegistryTree`, `RegistryWalk` and
`RegistryDevirtualizer` about copying a package's registry into the real one and removing it; `Base32` about package identifiers; `HandlerTables`,
`Requests` and `RequestProcessing` about the handler chains with their rollback.

The functions that are contracts here, because their source is not modelled, are nondeterministic
methods: `_tr_flush_block` and `_tr_stored_block` (symbols or bytes go into a block and pending grows),
`inflate()`, `deflate()` under the gzip writer, `read()` and `write()`. What handlers return, how a
stream's check value moves over its input, and which registry paths are excluded, come in as function
parameters; `WrappedStreams` and `RegistryDevirtualizer.InstallerExcludes` fill the last two in.

Five things are worth knowing about the code.

* `RemoveVfsFiles` releases every name of the block map that contains `VFS` anywhere, while installing
  counts only files below the `VFS` directory. `SharedDllsHistory.RemoveUndoesAdd` gives the exact
  condition under which a remove undoes an add, and `SharedDllsHistory.LosesFile` a disk that loses a
  file when the condition does not hold.
* `MsixCoreLib_GetPathChild` erases characters up to the first backslash and does not come to an end
  without one (`SharedDlls.ReturnsIff`). So a removal does not come to an end if a name of the package
  contains `VFS` and has no backslash, or just one before the name of a mapping: `SharedDlls.EndsIff`
  is the exact condition and `SharedDlls.NeverReturns` gives such names.
* The one-byte path of `adler32_z` subtracts BASE once, which is not enough for every starting value
  that fits in 16 bits; `Adler32.Adler32Z` states exactly when it is, and `Adler32.UnreducedStart` gives
  a value for which it is not. A checksum that adler32 itself returned is always fine.
* A remove request can return success and leave an error on its response
  (`Requests.IgnoredButRecorded`).
* A rollback undoes nothing if the package's manifest cannot be read back
  (`Requests.RemoveVisitsAll`), for instance when extraction failed before writing it.

## Model

| member | source | states |
|---|---|---|
| RollingHash.TwoUpdatesForgetThePast | lib/zlib/deflate.c:447 | after three updates the running hash depends on the last three bytes only, for every hash size from 8 to 16 bits |
| RollingHash.RollOn | lib/zlib/deflate.c:135-141 | one UPDATE_HASH takes a hash that is ready for a string to one that is ready for the next string, and is the string's own slot |
| RollingHash.SkippedByteAgrees | lib/zlib/deflate.c:1441-1453 | two strings of the same slot that agree on bytes 0 and 1 agree on byte 2 |
| RollingHash.IndexInRange | lib/zlib/deflate.c:444-447 | the hash is always an index into head[] |
| Lz77.CopyExtends | lib/zlib/deflate.c:1557-1567 | a match that repeats what lies a distance back expands to the next bytes of the input, overlapping or not |
| Lz77.PackUnpack | lib/zlib/deflate.h:349-367 | the three bytes a symbol is stored as give the symbol back, for literals and for every length and distance in range |
| Lz77.UnpackAppend | lib/zlib/deflate.h:349-367 | a symbol put behind a symbol buffer is read back behind the symbols already there |
| HashChains.InsertKeepsChains | lib/zlib/deflate.c:143-164 | INSERT_STRING keeps every head and every live link the latest earlier string of its slot, and NIL only where there is none; the place it overwrites in prev[] belongs to no string still within the window size |
| HashChains.SlideTable | lib/zlib/deflate.c:187-209 | the downward in-place loop makes each entry what the table function says: less by the window size, or NIL |
| HashChains.SlideKeepsChains | lib/zlib/deflate.c:187-209 | after a slide every head and link still names the same inserted string, the latest of its slot, or NIL where none is left |
| HashChains.ExtendKeepsChains | lib/zlib/deflate.c:251-368 | reading more input changes nothing about the chains |
| HashChains.SameSlotSameThird | lib/zlib/deflate.c:1441-1453 | strings of one chain that agree on two bytes agree on the third, stated on the input itself |
| MatchSearch.LcpUnique | lib/zlib/deflate.c:1348-1489 | the length the search is measured by is the one and only longest common prefix |
| MatchSearch.LcpCut | lib/zlib/deflate.c:1487-1488 | cutting a comparison off at the lookahead gives the common prefix of the valid bytes |
| MatchSearch.SearchIsBest | lib/zlib/deflate.c:1348-1489 | the result is the larger of the initial length and the best common prefix over the candidates visited, with a candidate that attains it, and unchanged when nothing is better |
| MatchSearch.SearchIsComplete | lib/zlib/deflate.c:1484-1485 | the candidates visited are the chain in order, all of it within the count, unless a match of the nice length ends the walk |
| MatchSearch.ChainIsFiled | lib/zlib/deflate.c:1484-1485 | every candidate visited was inserted with the hash of the current string and is within the distance limit |
| MatchSearch.VisitsAll | lib/zlib/deflate.c:1484-1485 | every string inserted with the hash of the current one and nearer than the limit is visited, unless the count runs out or a match of the nice length ends the walk |
| MatchSearch.ChainDescends | lib/zlib/deflate.c:1484-1485 | the links followed strictly decrease |
| LongestMatch.Compare | lib/zlib/deflate.c:1455-1469 | the unrolled comparison loop counts the common prefix up to MAX_MATCH, given that the first three bytes agree |
| LongestMatch.TryCandidate | lib/zlib/deflate.c:1441-1469 | the quick rejects drop only candidates that are no longer than the best so far |
| LongestMatch.CutOff | lib/zlib/deflate.c:1473-1488 | seen on the valid bytes only, a candidate improves the best length exactly when its common prefix does: bytes past the lookahead do not matter |
| LongestMatch.LongestMatch | lib/zlib/deflate.c:1348-1489 | the length is the best over the candidates visited cut at the lookahead, and the start is that of the best when longer than prev_length, whatever lies past the lookahead |
| LongestMatch.FoundIsMatch | lib/zlib/deflate.c:1348-1489 | what is found beyond prev_length is a true match in the input within MAX_DIST and the lookahead |
| LongestMatch.FindMatch | lib/zlib/deflate.c:1348-1489 | longest_match as the matchers call it: the result is the best match over the chain of the head, its start the string found, and no longer than prev_length if there is none longer |
| SlidingWindow.InsertString | lib/zlib/deflate.c:153-164 | the string is filed under its own slot, the old head of its chain comes back, and the hash is ready for the next string |
| SlidingWindow.MovedDownOk | lib/zlib/deflate.c:277-287 | after the upper half has moved down the window is a contiguous slice of the same input, with valid chains |
| SlidingWindow.InsertPending | lib/zlib/deflate.c:306-325 | exactly the strings put off are inserted, each once and in order, as far as three bytes of them are there, and insert says how many are still put off |
| SlidingWindow.ReadMore | lib/zlib/deflate.c:288-304 | there is room for at least two bytes whenever input is read, as much is read as there is room for, and it goes right behind the slice |
| SlidingWindow.ZeroAhead | lib/zlib/deflate.c:332-364 | exactly the bytes past the valid ones that were never written are zeroed, at least as far as WIN_INIT past the valid end, and high_water moves there |
| SlidingWindow.FillWindow | lib/zlib/deflate.c:251-368 | the window stays a slice of the input, moves by 0 or w_size under the same current string, ends with strstart <= window_size - MIN_LOOKAHEAD, and has enough lookahead unless the input is used up |
| SlidingWindow.InsertRun | lib/zlib/deflate.c:1860-1871 | the strings inside a match are inserted one by one and the hash is ready behind them |
| SlidingWindow.InsertCurrent | lib/zlib/deflate.c:1929-1935 | a current string of three bytes is inserted, and hash_head is the latest earlier string of its slot, NIL exactly if there is none in the window |
| TokenOutput.TallyMatch | lib/zlib/deflate.h:359-370 | a match that is true in the input is put behind the tokens and makes them cover its length more of the input |
| TokenOutput.FlushBlockOnly | lib/zlib/deflate.c:1589-1599 | what a block holds in symbols is the stretch of input from block_start to strstart, also when it has left the window; no token is lost or added; it is put only with nothing pending, and afterwards nothing is pending or no room is left |
| Decisions.BestOfCompared | lib/zlib/deflate.c:1942-1949 | the match that a search is measured by is the longest common prefix with the strings compared, each inserted with the same hash and within MAX_DIST |
| Decisions.AllCompared | lib/zlib/deflate.c:1942-1949 | every string inserted with the same hash and nearer than MAX_DIST is compared, unless there are too many or a match of the nice length is found |
| Decisions.FoundIsTrue | lib/zlib/deflate.c:1942-1963 | a match that is kept is true in the whole input and does not reach back beyond the last full flush |
| Decisions.KeepsSound | lib/zlib/deflate.c:1964-2014 | greedy and lazy evaluation, seen from the input: whatever the searches find, the tokens from any full flush on expand on their own to the input from there, up to the literal owed |
| Decisions.StandsAlone | lib/zlib/deflate.c:1206-1218 | in every run of the machine the tokens after a full flush expand on their own to the input after it |
| Matchers.DistanceMoves | lib/zlib/deflate.c:1939-1974 | a match found before a slide keeps its distance afterwards |
| Matchers.FillKeepsHeld | lib/zlib/deflate.c:1939-1974 | a held match stays a true match in the input when the window slides under it, its start being one below the window included |
| Matchers.FastFind | lib/zlib/deflate.c:1832-1847 | what deflate_fast finds: the best match of the chain if there is an earlier string of the same hash within MAX_DIST and the match has three bytes, and nothing otherwise; all strings inserted before are still there |
| Matchers.SlowFind | lib/zlib/deflate.c:1932-1963 | what deflate_slow finds: it searches exactly if there is an earlier string of the same hash within MAX_DIST and the match held back is shorter than max_lazy; a best match longer than that one is kept, unless it is of at most five bytes with the filtered strategy, or of three beyond TOO_FAR |
| Matchers.FastStep | lib/zlib/deflate.c:1829-1892 | each turn of deflate_fast searches the current string as Decisions.FastFinds says and tallies the match found, or the byte if there is none; the strings inside a short match are inserted and no others; the tokens cover exactly the input passed; it stops only for want of room |
| Matchers.SlowHold | lib/zlib/deflate.c:1994-2014 | when the match held back is shorter than MIN_MATCH or than the one found, the byte before becomes a literal, if one is owed, and the match found is held back; the tokens cover all input but the literal owed; it stops only for want of room |
| Matchers.SlowTake | lib/zlib/deflate.c:1967-1992 | when the match held back is at least as long as the one found it is tallied with its length and distance, the strings inside it are inserted as far as they have three bytes, and the tokens cover it; it stops only for want of room |
| Matchers.SlowStep | lib/zlib/deflate.c:1929-2014 | a turn of deflate_slow is a turn of the lazy machine: the match held back is tallied exactly if the one found is not longer, otherwise the literal owed; the strings inserted are as they should be; it stops only for want of room |
| Matchers.FinishBlock | lib/zlib/deflate.c:1894-1901 | at the end of the input all tokens are in blocks, none lost or added; block done and finish done mean that nothing is pending, need more and finish started that there is no room |
| Matchers.DeflateFast | lib/zlib/deflate.c:1811-1902 | deflate_fast from any valid state: the tokens are those of the greedy machine over the strings searched; valid again, no input lost; it gives up only for want of room or, without a flush, with all input read and too little lookahead, and is done only with nothing pending |
| Matchers.DeflateSlow | lib/zlib/deflate.c:1910-2030 | deflate_slow likewise, with the tokens of the lazy machine; when it stops at the end of the input no literal is held back |
| Deflater.Init | lib/zlib/deflate.c:379-524 | the parameters accepted give sizes that all the above needs; a window of 256 is raised to 512 |
| Deflater.ForgetOk | lib/zlib/deflate.c:1211-1218 | clearing the hash after Z_FULL_FLUSH keeps the state valid |
| Deflater.AfterBlock | lib/zlib/deflate.c:1203-1225 | after a finished block Z_FULL_FLUSH, and no other flush, ends in a restart of the machine, with a window that starts at the flush and holds no string from before; nothing is left pending while there is room |
| Deflater.Stream.Deflate | lib/zlib/deflate.c:946-1255 | a call keeps the stream valid, its tokens those of the matcher's decisions; Z_OK with room left and Z_STREAM_END mean that all input is read and, after a flush, that the tokens expand to all of it; Z_FULL_FLUSH that ends so restarts the machine, whose window then starts at the flush; Z_STREAM_ERROR and Z_BUF_ERROR are returned exactly under their conditions and take nothing |
| Deflater.Run | lib/zlib/deflate.c:946-1255 | for every sequence of calls, flush values and room: after each call the tokens are in range and expand to exactly the input read but for the lookahead and the one literal held back; a call that leaves room or says Z_STREAM_END has read all input and, after a flush, passed all of it; one that has room and something to do is not refused; the tokens are those of the decisions at each string, the machine restarts only for a full flush, and the tokens after one expand on their own to the input after it |
| StoredFormat.InflateEncode | lib/zlib/deflate.c:1607-1709 | a reader of section 3.2.4 of RFC 1951 gets the payload back from the bits of closed stored blocks, starting at any bit of a byte |
| StoredFormat.EncodeAppend | lib/zlib/deflate.c:1667-1677 | writing one more block adds its bits at the phase where the others ended |
| StoredOutput.TrStoredBlockOk | lib/zlib/deflate.c:1784-1798 | a stored block through pending keeps output and pending together the encoding of the blocks |
| StoredOutput.TrAlignOk | lib/zlib/deflate.c:1204-1205 | so does the empty static block of a partial flush |
| StoredOutput.FlushPending | lib/zlib/deflate.c:915-933 | what is delivered and what is pending together stay the same; all pending is delivered if there is room, else all room is used |
| StoredOutput.DirectHeader | lib/zlib/deflate.c:1667-1680 | a dummy header made in pending with its lengths replaced is the header of the block whose data follows |
| StoredDeflate.NextDataIsNext | lib/zlib/deflate.c:1688-1708 | the bytes copied directly are the next of the stream, whether they come from the window, the input or both |
| StoredDeflate.CopyBlocks | lib/zlib/deflate.c:1634-1709 | the loop of direct copies emits valid blocks of at most 65535 bytes holding the stream up to where it stops |
| StoredDeflate.CatchUp | lib/zlib/deflate.c:1711-1745 | after direct copies the window holds the last bytes consumed, whether they were moved, supplanted or appended |
| StoredDeflate.Fill | lib/zlib/deflate.c:1756-1777 | the rest of the input goes into the window after at most one slide: all of it, or as much as fits |
| StoredDeflate.WriteThroughPending | lib/zlib/deflate.c:1779-1801 | a block from the window through pending continues the stream at block_start |
| StoredDeflate.PendingFills | lib/zlib/deflate.c:1779-1801 | when nothing could be copied directly, a block through pending takes all the room there is, unless it waits for input |
| StoredDeflate.DeflateStored | lib/zlib/deflate.c:1627-1802 | from any valid state: valid again, no input lost; it gives up only for want of room or, without a flush, with all input read, all is written when a flush is complete, and the last block is closed when finished |
| StoredStream.InputBegins | lib/zlib/deflate.c:1627-1802 | in every valid state the payloads followed by window[block_start..strstart) are the input consumed |
| StoredStream.DeliveredInflates | lib/zlib/deflate.c:946-1255 | once the last block is delivered the bytes delivered are read back as the payload |
| StoredStream.Run | lib/zlib/deflate.c:946-1255 | for every sequence of calls at level 0: delivered, pending and unfinished bytes are the encoding of valid blocks whose payloads and the window tail are exactly the input read, within the room given; a last call that leaves room has read and delivered everything and, after a flush, has it in blocks; one that has room and something to do is not refused; at Z_STREAM_END the output reads back as all the input |
| StoredStream.OutputBegins | lib/zlib/deflate.c:1627-1802 | the bytes delivered begin the encoding of the blocks, and are all of it once nothing is pending |
| GzipHeader.ReadHeader | lib/zlib/deflate.c:1031-1173 | the one-shot gzip header, read by section 2.3 of RFC 1952, gives back every field that was set, with a matching header check value |
| GzipHeader.ZlibWordReads | lib/zlib/deflate.c:996-1013 | the zlib header is a multiple of 31 and holds method, window size, level and dictionary flag where section 2.2 of RFC 1950 wants them |
| DeflateStream.CrcConcat | lib/zlib/deflate.c:938-943 | a check value taken in pieces is that of the whole |
| DeflateStream.Stream.PutByte | lib/zlib/deflate.h:287 | a byte is put behind all bytes put so far; it may only be put when pending_out is at the start of the buffer |
| DeflateStream.Stream.FlushPending | lib/zlib/deflate.c:915-933 | output only grows, within the room given, in the order in which bytes were put; afterwards nothing is pending or there is no room |
| DeflateStream.Stream.HcrcUpdate | lib/zlib/deflate.c:938-943 | the header check value becomes that of everything put so far |
| DeflateStream.Stream.PutExtra | lib/zlib/deflate.c:1082-1108 | the extra field continues at gzindex in every call and is whole when the state ends |
| DeflateStream.Stream.PutText | lib/zlib/deflate.c:1109-1151 | name and comment continue at gzindex byte by byte and end with their zero byte |
| DeflateStream.Stream.WriteHeader | lib/zlib/deflate.c:993-1173 | from any state of the header, what was put is the part of the one-shot header that the state says; once the state is BUSY it is the whole header and nothing is pending unless there was no room |
| DeflateStream.Stream.WriteTrailer | lib/zlib/deflate.c:1231-1253 | the trailer is the check value and, for gzip, the size of the input modulo 2^32; the sign of wrap records it |
| DeflateStream.Stream.Deflate | lib/zlib/deflate.c:946-1255 | over any call: output is one in-order sequence within the room, input is read in order with its check value moved along piece by piece, Z_STREAM_ERROR and Z_BUF_ERROR are returned exactly under their conditions and change nothing, after the trailer nothing is put again, and Z_STREAM_END means that all input is read and header, body and trailer are all delivered |
| DeflateStream.Run | lib/zlib/deflate.c:946-1255 | over any sequence of calls the stream stands as its state says, input taken and left is all the input given, the output fits in the room given, and at Z_STREAM_END it is one-shot header, body and the trailer for all the input |
| DeflateStream.HeaderIsRead | lib/zlib/deflate.c:1031-1173 | the header at the start of a complete gzip stream can be read back |
| WrappedStreams.GzipIsRead | lib/zlib/deflate.c:1231-1253 | the parts of a complete gzip stream are read back from both ends: the header given, the body, and in the trailer the CRC and the size modulo 2^32 |
| WrappedStreams.RunGzip | lib/zlib/deflate.c:946-1255 | for any sequence of calls that ends with Z_STREAM_END the output is a gzip member with the header given and the CRC and size of all the input |
| WrappedStreams.PerByteConcat | lib/zlib/adler32.c:61-125 | an Adler-32 checksum taken in pieces is that of the whole |
| WrappedStreams.ZlibIsRead | lib/zlib/deflate.c:1239-1244 | the parts of a complete zlib stream are read back from both ends: window size, level, dictionary and check bits, the body, and the two sums of the Adler-32 checksum |
| WrappedStreams.RunZlib | lib/zlib/deflate.c:946-1255 | for any sequence of calls that ends with Z_STREAM_END the output has a proper zlib header and ends with the Adler-32 checksum of all the input |
| StoredWrapped.FlushFirst | lib/zlib/deflate.c:963-989 | at the start of a call at level 0 what is pending of header, blocks or trailer is delivered in order, and the call is refused exactly under the conditions |
| StoredWrapped.PutBlocks | lib/zlib/deflate.c:1190-1226 | the blocks follow the delivered header, and the check value moves over exactly the input that went into them |
| StoredWrapped.Stream.Deflate | lib/zlib/deflate.c:946-1255 | a call at level 0 delivers in order within the room, loses no input, is refused exactly under the conditions, and is complete at Z_STREAM_END |
| StoredWrapped.RunGzip | lib/zlib/deflate.c:946-1255 | at level 0, for any sequence of calls that ends with Z_STREAM_END, the output is a gzip member with the header given and the CRC and size of all the input, and its body inflates to all the input |
| StoredWrapped.RunZlib | lib/zlib/deflate.c:946-1255 | the same for a zlib stream with its Adler-32 checksum |
| CrcField.Multmodp | lib/zlib/crc32.c:155-170 | for nonzero a the loop ends with the product; CrcPolynomial.MulIsRemainder says what that is |
| CrcField.MulPower | lib/zlib/crc32.c:151-170 | multiplying by the residue of x^n, on either side, multiplies by x^n |
| CrcField.PolyIsX32 | lib/zlib/crc32.c:151-170 | the polynomial constant is the residue of x^32 |
| CrcField.MakePowerTable | lib/zlib/crc32.c:325-329 | entry k of x2n_table is x^(2^k) |
| CrcPowers.TableIsRight | lib/zlib/crc32.h:9439-9446 | every entry k of the table in crc32.h is x^(2^k) |
| CrcPowers.Cycle | lib/zlib/crc32.c:176-187 | the square of the last entry is the first: x^(2^32) is x |
| CrcPowers.EntryOf | lib/zlib/crc32.c:176-187 | with its index taken modulo 32 the table serves x^(2^k) for every k |
| CrcPowers.HalveExponent | lib/zlib/crc32.c:176-187 | taking the low bit off the exponent leaves one that the next table entry can serve |
| CrcPowers.X2nmodp | lib/zlib/crc32.c:176-187 | the result is x^(n * 2^k) modulo p(x) for every n and k, also where the table index wraps |
| CrcPowers.ShiftsEnd | lib/zlib/crc32.c:176-187 | the loop comes to an end exactly if n is not negative |
| CrcRegister.RegSplit | lib/zlib/crc32.c:1021-1026 | the register after some bytes is the old register moved along plus what the bytes alone give |
| CrcRegister.RegConcat | lib/zlib/crc32.c:991-1006 | the register over a concatenation goes through its parts |
| CrcRegister.TableStep | lib/zlib/crc32.c:991-1006 | the table form of a byte step is the bitwise step |
| CrcWords.CrcWord | lib/zlib/crc32.c:676-681 | crc_word is the CRC of the word's bytes |
| CrcWords.CrcWordBig | lib/zlib/crc32.c:683-689 | crc_word_big is the byte-swapped CRC of the swapped word |
| CrcWords.WordStepsOnRegister | lib/zlib/crc32.c:676-681 | a register laid over the bytes still to come steps as the register does over them |
| CrcBraid.StepIsSum | lib/zlib/crc32.c:776-835 | one pass over a block moves the sum of the braids as the block does |
| CrcBraid.StepBraided | lib/zlib/crc32.c:776-835 | braids that stand for a register stand for the register after the block |
| CrcBraid.ChainBraided | lib/zlib/crc32.c:838-852 | combining the braids over the last block gives the register after it |
| CrcTables.MakeByteTables | lib/zlib/crc32.c:314-323 | crc_table holds the byte steps, and crc_big_table their byte-swapped form |
| CrcTables.Braid | lib/zlib/crc32.c:528-540 | the braid tables hold each byte shifted past the bytes behind it, in both byte orders |
| CrcTables.MakeCrcTable | lib/zlib/crc32.c:310-469 | all tables are right for 1 to 6 braids and words of 4 or 8 bytes |
| CrcThreads.LookUp | lib/zlib/crc32.c:799-835 | the table look-ups of one word are the register of the word moved along its braid |
| CrcThreads.LookUpBig | lib/zlib/crc32.c:921-957 | the same for the big-endian tables |
| CrcBlocks.BraidsLittle | lib/zlib/crc32.c:731-858 | the little-endian braided loops over whole blocks give the byte-wise register |
| CrcBlocks.BraidsBig | lib/zlib/crc32.c:859-982 | the big-endian ones do, too |
| Crc32.Align | lib/zlib/crc32.c:715-719 | bytes up to the first word boundary are taken one by one |
| Crc32.Crc32Z | lib/zlib/crc32.c:694-1010 | for every buffer, alignment, initial value, byte order, number of braids and word size the result is the byte-wise CRC, and 0 for a null buffer |
| CrcPolynomial.RemDivides | lib/zlib/crc32.c:147-170 | the remainder used is that of division by p(x) |
| CrcPolynomial.RegIsRem | lib/zlib/crc32.c:310-323 | the register is the remainder of the message polynomial |
| CrcPolynomial.CrcIsRemainder | lib/zlib/crc32.c:694-1010 | a word is the CRC exactly if its complement is the remainder of section 8 of RFC 1952 |
| CrcPolynomial.ProductTerm | lib/zlib/crc32.c:151-170 | a product of polynomials, defined by counting the pairs of terms for each power, is the sum of the multiples of one by the terms of the other |
| CrcPolynomial.MulIsRemainder | lib/zlib/crc32.c:151-170 | the product of two words is the remainder of the product of their polynomials |
| Crc32.CombineIsConcat | lib/zlib/crc32.c:1021-1026 | moving one CRC past a second string and adding that string's CRC is the CRC of both together |
| Crc32.Combine64 | lib/zlib/crc32.c:1021-1026 | crc32_combine64 gives the CRC of the concatenation for a second string of any length |
| Adler32.Chop | lib/zlib/adler32.c:25-30 | CHOP keeps the remainder and bounds the result |
| Adler32.Mod28 | lib/zlib/adler32.c:31-35 | MOD28 is the remainder for values below 2^28 |
| Adler32.Mod | lib/zlib/adler32.c:36-40 | MOD is the remainder for every 32-bit value |
| Adler32.Mod63 | lib/zlib/adler32.c:41-53 | MOD63 is the remainder for every 63-bit value |
| Adler32.PerByteIsDeferred | lib/zlib/adler32.c:96-121 | reducing at every byte and reducing at the end agree |
| Adler32.NmaxIsLargest | lib/zlib/adler32.c:10-12 | the bound fits 32 bits for n bytes exactly if n <= NMAX |
| Adler32.BoundedFits | lib/zlib/adler32.c:96-121 | no sum passes 2^32 - 1 within NMAX bytes of a reduction |
| Adler32.SingleByte | lib/zlib/adler32.c:69-78 | the one-byte path is right exactly if one subtraction is enough for the second sum |
| Adler32.Adler32Z | lib/zlib/adler32.c:61-125 | adler32_z meets the definition of section 9 of RFC 1950 on all its paths exactly if one subtraction is enough, and returns 1 for a null buffer |
| Adler32.AdlerIsPerByte | lib/zlib/adler32.c:61-125 | with starting sums below BASE it always does |
| Adler32.UnreducedStart | lib/zlib/adler32.c:69-78 | with an unreduced second sum the one-byte path can be wrong |
| Adler32.CombinedHigh | lib/zlib/adler32.c:133-155 | the second sum of a concatenation from the sums of its parts |
| Adler32.Combine | lib/zlib/adler32.c:133-155 | adler32_combine_ gives the checksum of the concatenation, and 0xffffffff for a negative length |
| GzLayout.MemberAt | lib/zlib/gzread.c:67-149 | where each member lies in the file and in the decoded file |
| GzRead.LooksAt | lib/zlib/gzread.c:76-149 | between members the header check finds the next member, ignores trailing bytes or copies a file that is not compressed, and nothing else can be the case |
| GzRead.Inflates | lib/zlib/gzread.c:156-200 | a step of inflate() within a member puts the next decoded bytes behind the buffered ones |
| GzRead.NothingLeft | lib/zlib/gzread.c:208-233 | with no input left everything was decoded, unless a member is cut off or corrupt |
| GzRead.GzLook | lib/zlib/gzread.c:76-149 | gz_look keeps buffers and file consistent and either has output, is in a member, or is at the end |
| GzRead.GzDecomp | lib/zlib/gzread.c:156-200 | gz_decomp fills the space given with the next decoded bytes, or stops at a member's end or the end of the file |
| GzRead.GzFetch | lib/zlib/gzread.c:208-233 | gz_fetch ends with something in the output buffer, unless all is decoded |
| GzRead.GzSkip | lib/zlib/gzread.c:236-262 | gz_skip passes over len decoded bytes, or as many as there are |
| GzRead.ReadLoop | lib/zlib/gzread.c:268-342 | the loop of gz_read delivers the next decoded bytes, len of them or as many as there are, through either buffer or none |
| GzFile.GzReader.Read | lib/zlib/gzread.c:268-342 | gzread delivers the bytes at the logical position and moves it on, a pending seek carried out first |
| GzFile.GzReader.Getc | lib/zlib/gzread.c:408-431 | gzgetc delivers the byte at the logical position; it needs no check for a pending seek, since then the buffer is empty |
| GzFile.GzReader.Gets | lib/zlib/gzread.c:499-556 | gzgets delivers a line: no byte after the first newline, at most len - 1 bytes |
| GzFile.GzReader.Rewind | lib/zlib/gzlib.c:318-336 | after gzrewind the position is 0 and the file is read from its start |
| GzFile.GzReader.Seek | lib/zlib/gzlib.c:339-409 | gzseek64 moves to the offset, or by the offset from the logical position, at once or as a pending skip, and a pending skip leaves the buffer empty; unless lseek fails it refuses exactly a seek from the end or to before the start |
| GzFile.Run | lib/zlib/gzread.c:208-556 | for every run of calls up to the first reported error, each call delivers the decoded bytes at the logical position, and gztell64 returns that position; on a sound file on which nothing fails the first error is the first call that asks for the impossible at the position reached |
| GzWrite.GzWriter.GzComp | lib/zlib/gzwrite.c:65-139 | gz_comp hands all buffered input on to deflate(), or writes it in direct mode, and loses nothing |
| GzWrite.GzWriter.GzZero | lib/zlib/gzwrite.c:143-169 | gz_zero adds exactly len zero bytes, filling the buffer with zeros once |
| GzWrite.GzWriter.Gather | lib/zlib/gzwrite.c:191-212 | small writes are copied behind the bytes waiting at the start of the buffer, never beyond size |
| GzWrite.GzWriter.PassOn | lib/zlib/gzwrite.c:213-230 | large writes empty the buffer first and then go past it, in order |
| GzWrite.GzWriter.Write | lib/zlib/gzwrite.c:173-234 | a write adds the gap asked for before it and then its bytes |
| GzWrite.GzWriter.Seek | lib/zlib/gzlib.c:339-409 | a seek forward, to an offset or by one, adds to the gap; one from the end or to before what is written is refused, and no other |
| GzWrite.Run | lib/zlib/gzwrite.c:65-234 | for every run of writes and seeks without error, the bytes handed on and the bytes waiting are the writes with the zero gaps between them; unless write() fails there is an error exactly if a seek is refused |
| SharedDlls.SameRemainder | MsixCore/msixmgr/VirtualFileHandler.cpp:355-393 | copy and remove turn the same name into the same real place |
| SharedDlls.StopsAtFirstSlash | MsixCore/msixmgr/FilePaths.cpp:9-16 | the first pass at which the erasing loop stops is that of the first backslash, and after the last erase what follows it is left |
| SharedDlls.ReturnsIff | MsixCore/msixmgr/FilePaths.cpp:9-16 | MsixCoreLib_GetPathChild returns exactly for a string with a backslash |
| SharedDlls.GetPathChild | MsixCore/msixmgr/FilePaths.cpp:9-16 | whenever it returns, what follows the first backslash is left |
| SharedDlls.EndsIff | MsixCore/msixmgr/VirtualFileHandler.cpp:355-393 | the splitting of a name returns exactly if it has a backslash and, should the rest be the name of a mapping, the rest has one too |
| SharedDlls.NeverReturns | MsixCore/msixmgr/VirtualFileHandler.cpp:355-393 | it does not return for the name VFS, nor for a file of the VFS directory that has the name of a mapping |
| SharedDlls.PackageOkIff | MsixCore/msixmgr/VirtualFileHandler.cpp:35-71 | the removal of a package comes to an end exactly if Ends holds of all its names that contain VFS |
| SharedDlls.ModifiedIsTwoSeconds | MsixCore/msixmgr/VirtualFileHandler.cpp:101-129 | the two-part comparison means more than two seconds, except across a carry of the low word, where any later time counts |
| SharedDlls.OverwriteRules | MsixCore/msixmgr/VirtualFileHandler.cpp:169-219 | a versioned file gives way exactly to a higher version; an unversioned one to a versioned one, or to any if it was not modified |
| SharedDllsVersions.StaysUnique | MsixCore/msixmgr/VirtualFileHandler.cpp:199-219 | of several files for one place the rules on versions single out one: the first with the highest version, without versions the first that was modified, without that the last |
| SharedDllsVersions.StaysNext | MsixCore/msixmgr/VirtualFileHandler.cpp:199-219 | one file more and the decision whether it overwrites give the one singled out from all of them |
| SharedDllsVersions.AddedAllChooses | MsixCore/msixmgr/VirtualFileHandler.cpp:131-255 | after an add or reinstall the file at every place is the one singled out from those before and those of the package |
| SharedDllsVersions.AddRules | MsixCore/msixmgr/VirtualFileHandler.cpp:131-255 | for every place: not packaged, unchanged; not there before, one that is packaged; the version is the highest of all; a versioned file stays unless a higher version is packaged; a modified unversioned one stays unless a versioned one is packaged; an unmodified one is replaced by one that is packaged |
| SharedDlls.HoldersUnique | MsixCore/msixmgr/VirtualFileHandler.cpp:147-168 | files and counts determine the multiset of holders |
| SharedDlls.AddedAllHolds | MsixCore/msixmgr/VirtualFileHandler.cpp:20-33 | an add keeps files and counts consistent with the holders plus what the package holds |
| SharedDlls.ReinstalledAllHolds | MsixCore/msixmgr/VirtualFileHandler.cpp:131-168 | a reinstall keeps them consistent with the same holders |
| SharedDlls.RemovedAllHolds | MsixCore/msixmgr/VirtualFileHandler.cpp:257-328 | a remove keeps them consistent with the holders minus what the package's names let go, whatever the names |
| SharedDlls.LetGoIsHeld | MsixCore/msixmgr/VirtualFileHandler.cpp:35-71 | a package lets go of no less than it held; names with VFS elsewhere in them make the difference |
| SharedDllsHistory.RemoveUndoesAdd | MsixCore/msixmgr/VirtualFileHandler.cpp:35-71 | for every package whose removal comes to an end, a remove undoes the add on every consistent disk exactly if no name outside the VFS directory contains VFS and leads to a real place |
| SharedDllsHistory.LosesFile | MsixCore/msixmgr/VirtualFileHandler.cpp:35-71 | otherwise there is a disk, and a file on it, that installing and removing the package deletes although something else held it |
| SharedDllsHistory.NotWellNamed | MsixCore/msixmgr/VirtualFileHandler.cpp:60-65 | such packages: any name whose top directory merely contains VFS and whose next directory is mapped makes a package that holds nothing and lets a file go |
| SharedDllsHistory.TargetIff | MsixCore/msixmgr/VirtualFileHandler.cpp:355-393 | a name stands for a place exactly if its second part is a mapped directory, and then for what follows in that directory |
| SharedDllsHistory.VirtualFileHandler.NeedToCopyFile | MsixCore/msixmgr/VirtualFileHandler.cpp:131-220 | whether to copy, and the count of a file that is there already |
| SharedDllsHistory.VirtualFileHandler.RemoveVfsFile | MsixCore/msixmgr/VirtualFileHandler.cpp:257-328 | one file let go, its name split by the loops that SharedDlls.EndsIff says end: its count, its deletion; a name without a mapping changes nothing |
| SharedDllsHistory.VirtualFileHandler.RemoveAll | MsixCore/msixmgr/VirtualFileHandler.cpp:35-71 | all names of the block map that contain VFS are let go |
| SharedDllsHistory.Run | MsixCore/msixmgr/VirtualFileHandler.cpp:131-328 | for every history of adds, reinstalls and removes of well-named packages a file is there exactly while it is held, its count is the number of holders, and without a count there is one; the file there is the one that the rules on versions choose from all that have wanted to be there since the place was empty |
| RegistryTree.ExcludedBelow | MsixCore/msixmgr/RegistryDevirtualizer.cpp:116-132 | what is below an excluded key is excluded |
| RegistryTree.LeadingBackslash | MsixCore/msixmgr/RegistryDevirtualizer.cpp:116-132 | the missing backslash of a key opened by path makes no difference to what is excluded |
| RegistryTree.ValuesBelow | MsixCore/msixmgr/RegistryDevirtualizer.cpp:134-216 | the values a tree names outside excluded keys are at or below its key, none at or below an excluded one |
| RegistryWalk.ValuesNamed | MsixCore/msixmgr/RegistryDevirtualizer.cpp:134-216 | a value is named by a tree exactly if a list of subkey names leads from its key, past no excluded key, to a key that has a value of the name |
| RegistryWalk.ValuesGiven | MsixCore/msixmgr/RegistryDevirtualizer.cpp:180-216 | its data are the last of the name at that key: the same bytes, the type without flags, a string for none |
| RegistryWalk.KeysNamed | MsixCore/msixmgr/RegistryDevirtualizer.cpp:145-178 | a key is named exactly if such a list leads to it with no excluded key above it |
| RegistryDevirtualizer.Copy | MsixCore/msixmgr/RegistryDevirtualizer.cpp:134-216 | the recursive copy terminates; walking the tree by names, every value of a key reached through no excluded key is set to its last data, with the bytes and the type (a string for none), every key so reached is there, and no other value or key is touched |
| RegistryDevirtualizer.RemoveSubKeyIfEmpty | MsixCore/msixmgr/RegistryDevirtualizer.cpp:309-340 | only a key without values and subkeys is deleted |
| RegistryDevirtualizer.Remove | MsixCore/msixmgr/RegistryDevirtualizer.cpp:342-404 | the recursive remove terminates; every value of a key so reached is gone, no other value is touched, only keys so reached are gone, and of them those that are left hold something |
| RegistryDevirtualizer.RunCopy | MsixCore/msixmgr/RegistryDevirtualizer.cpp:25-75 | over all mount points: every value that a walk reaches is set, to the data of the last mount that names it, and exactly the keys reached are added; it succeeds if the real roots are there |
| RegistryDevirtualizer.RunRemove | MsixCore/msixmgr/RegistryDevirtualizer.cpp:25-75 | over all mount points: exactly the values that a walk reaches go, and only keys reached, of which those left hold something; it succeeds if the roots are there and none lies below an earlier one |
| RegistryDevirtualizer.CopyThenRemove | MsixCore/msixmgr/RegistryDevirtualizer.cpp:134-404 | copy then remove succeeds if the roots are there and apart; it leaves no value that a walk reaches outside excluded keys, every other value and every key not reached as it was, and every value at or below an excluded key untouched |
| RegistryDevirtualizer.InstallerApart | MsixCore/msixmgr/RegistryDevirtualizer.cpp:25-75 | in the installer's order of mappings no root lies below an earlier one, whichever of them a package has |
| RegistryDevirtualizer.InstallerExcludes | MsixCore/msixmgr/RegistryDevirtualizer.cpp:116-132 | the installer's own exclusions are of the kind that this needs |
| Base32.EightBits | MsixCore/msixmgr/Base32Encoding.cpp:72-84 | the eight shifted and masked values of five bytes hold the bytes' forty bits in order |
| Base32.ValuesHoldBits | MsixCore/msixmgr/Base32Encoding.cpp:72-139 | for every input the digits' bits are the input's bits and fewer than five zeros |
| Base32.DigitOfRank | MsixCore/msixmgr/Base32Encoding.cpp:141-149 | the alphabet is the digits and letters without i, l, o and u, each once and in order |
| Base32.AlphabetIsDigits | MsixCore/msixmgr/Base32Encoding.cpp:141-149 | a character is in the alphabet exactly if it is a digit or lower-case letter other than i, l, o and u |
| Base32.DecodeEncode | MsixCore/msixmgr/Base32Encoding.cpp:44-139 | with the number of bytes known the bytes can be recovered from the digits |
| Base32.EncodeInjective | MsixCore/msixmgr/Base32Encoding.cpp:44-139 | different byte strings, of the same length or not, have different digits |
| Base32.Multiply | MsixCore/msixmgr/Base32Encoding.cpp:151-159 | the 32-bit product, and failure exactly if it wrapped |
| Base32.GetCharCount | MsixCore/msixmgr/Base32Encoding.cpp:11-42 | ceil(8n/5), and failure exactly if 8n does not fit in 32 bits |
| Base32.PutGroup | MsixCore/msixmgr/Base32Encoding.cpp:90-134 | one turn of the loop writes two, four, five, seven or eight digits, each inside the assumed bound |
| Base32.GetChars | MsixCore/msixmgr/Base32Encoding.cpp:44-139 | exactly ceil(8n/5) digits are written and they are the encoding, the rest of the buffer is untouched, and a failure, with its exact condition, writes nothing |
| HandlerTables.AddRankFalls | MsixCore/msixmgr/MsixRequest.cpp:71-95 | both ways on from a handler go down in rank, and the error handler is the only target of an error |
| HandlerTables.RemoveRankFalls | MsixCore/msixmgr/MsixRequest.cpp:97-115 | the removal chain stays inside its table and goes down one at a time to the extractor |
| Requests.AddRunFrom | MsixCore/msixmgr/MsixRequest.cpp:161-194 | from any handler on, what an add request visits, returns and reports is fixed by the first handler to fail and by the progress reported before it |
| Requests.AddRunIs | MsixCore/msixmgr/MsixRequest.cpp:161-194 | a whole add request: all handlers in order, or those up to the first that fails and, from the extractor on, the error handler; the listener has heard each change of the progress once and then, last, of that failure, or of the completion at 100 if no handler failed and the request was not cancelled; a cancelled one stays at the last progress, or where it was |
| Requests.SucceedsIff | MsixCore/msixmgr/MsixRequest.cpp:161-194 | an add request fails exactly when a handler it visited did |
| Requests.RollsBackWhenNeeded | MsixCore/msixmgr/MsixRequest.cpp:71-95 | a failing request that visited a handler with undo work visits the error handler, once and last |
| Requests.RollbackReturnsFirst | MsixCore/msixmgr/ErrorHandler.cpp:15-36 | if the nested request can be made, the result is the status of the first handler that failed, as on the response |
| Requests.RollbackCovers | MsixCore/msixmgr/ErrorHandler.cpp:15-36 | the nested removal visits every handler with undo work, whichever of them the installation came to, exactly if it finds the package's information |
| Requests.RemoveVisitsAll | MsixCore/msixmgr/MsixRequest.cpp:196-232 | a remove request visits every handler in order and succeeds, whatever they return, exactly if the package's information is found; every handler with undo work is in that order |
| Requests.IgnoredButRecorded | MsixCore/msixmgr/MsixRequest.cpp:196-232 | a remove request leaves an error on its response exactly if it fails or a visited handler put one there, even when it returns success |
| Requests.ErrorSticksInRemove | MsixCore/msixmgr/MsixResponse.cpp:25-40 | once there is an error on the response, a remove request changes nothing on it |
| Requests.AddTellsChanges | MsixCore/msixmgr/MsixResponse.cpp:5-40 | whatever the handlers do in an add request, the callback is never told the same twice in a row and was told last what the response says |
| Requests.RemoveTellsChanges | MsixCore/msixmgr/MsixResponse.cpp:5-40 | the same for a remove request |
| RequestProcessing.MsixResponse.Update | MsixCore/msixmgr/MsixResponse.cpp:5-18 | a status that is there already changes nothing and is not told again; any other is taken over with no change to error code and text, and told exactly once if someone listens; the callback is still never told the same twice in a row |
| RequestProcessing.MsixResponse.SetErrorStatus | MsixCore/msixmgr/MsixResponse.cpp:25-40 | the first error sticks and is told once; a later one changes nothing and is not told |
| RequestProcessing.MsixRequest.RollBack | MsixCore/msixmgr/ErrorHandler.cpp:15-36 | the nested removal is made for the package of this request and its result ignored; the package information it needs is there |
| RequestProcessing.MsixRequest.ProcessAddRequest | MsixCore/msixmgr/MsixRequest.cpp:161-194 | the loop over the table is the run defined by the table, with one nested removal, for the package of the request, exactly if the error handler could ask for it; a success leaves the response completed at 100, or at the last progress if cancelled |
| RequestProcessing.MsixRequest.ProcessRemoveRequest | MsixCore/msixmgr/MsixRequest.cpp:196-232 | the loop over the removal table is the run defined by that table |
| RequestProcessing.MsixRequest.ProcessRequest | MsixCore/msixmgr/MsixRequest.cpp:138-159 | the response is reset to started and the request processed by its kind; an add that succeeds leaves it completed at 100, or at the last progress if cancelled |

## Left out

- Deflater.Run: the window, head and prev tables and the symbol buffer are values in a record that the methods pass on, and the class holds the record; only the loop of slide_hash works on an array in place. Aliasing and update in place are not captured for the others.
- StoredStream.Run: the window and the pending bytes are sequences in a record, for the same reason.
- CrcBlocks.BraidsBig: a machine word is the sequence of its bytes, and the loads are not pointer casts.
- Crc32.Combine64: negative lengths, for which the loop of x2nmodp has no end (CrcPowers.ShiftsEnd).
- Adler32.Combine: the checksum word is split into and packed from its two 16-bit halves outside the loops.
- GzFile.Run: a member cut off or corrupt may end the decoded bytes early; what is delivered is still a part of the decoded file.
- GzWrite.Run: writes are those of gz_write; gzwrite itself refuses lengths of 2^31 and more.
- DeflateStream.Stream.Deflate: the compression functions are a contract (input taken and blocks put in turn, each with nothing pending; finished only when everything is read). That deflate_fast, deflate_slow and deflate_stored keep to it is in Matchers.DeflateFast, Matchers.DeflateSlow and StoredDeflate.DeflateStored; what they write is in Deflater.Run and StoredStream.Run, for raw streams.
- DeflateStream.Run: the compressed body is whatever that contract allows; for level 0 StoredWrapped.RunGzip and StoredWrapped.RunZlib say what it is.
- WrappedStreams.RunGzip: the same of the body of a gzip stream at levels 1 to 9.
- WrappedStreams.RunZlib: the same of the body of a zlib stream at levels 1 to 9.
- StoredWrapped.Stream.Deflate: header and trailer bytes and block bytes wait in two buffers, of which at most one holds any.
- Requests.AddRunIs: handlers are known by what they return and report; the nested removal inside ProcessPotentialUpdate is part of what that handler returns.
- SharedDllsHistory.Run: file operations succeed, a copied file keeps the times of the package's file, the splitting of names comes to an end (exactly when is SharedDlls.PackageOkIff), letter case matters, and the removal of empty directories is not modelled.
- RegistryDevirtualizer.CopyThenRemove: registry calls succeed, names are compared in one letter case, and names and data are free of tokens.
- Huffman coding, the construction of dynamic blocks and inflate: tokens and stored blocks are where the model of compression ends.
- deflate_rle, deflate_huff, deflateParams, deflateTune, deflatePrime, deflateCopy and preset dictionaries of compressed streams.
- deflateBound, compressBound and the branches for UNALIGNED_OK, FASTEST, LIT_MEM, ZLIB_DEBUG and 16-bit systems.
- The ARM instructions, table printing and the one-time initialisation of crc32.c; crc32_combine_gen and crc32_combine_op.
- gzdirect, gzungetc, gzputc, gzprintf, gzflush, gzsetparams, gz_open and closing a gzip file; allocation failures.
- Reading and writing of packages, manifests and signatures; the Windows shell, COM, firewall and shortcut handlers; the user interface.
- The operation types other than add and remove that ProcessRequest refuses.
