# Nortek binary reader of dolfyn, modelled in Dafny

dolfyn reads the binary files written by Nortek instruments: the Vector
acoustic Doppler velocimeter (ADV) and the AWAC current profiler. Such a file
is a stream of records. Each record starts with the sync byte `0xA5` and a
one-byte type code. A table (`fun_map`) maps each known code to a routine
that unpacks the record's fields into column `c` of a set of pre-allocated
numpy columns, and most routines end by checking the record's 16-bit
checksum. Before reading data, the reader:

- finds the byte order from the magic word pair `(1445, 24)`;
- reads the hardware, head and user configuration records, which must come
  first and in that order;
- picks the instrument from the first three letters of the serial number;
- guesses the column capacity from the file size and the measured spacing of
  the instrument's regular record.

`readfile` then loops over `readnext` until the file ends, a ping limit is
reached or a routine fails. At the end it steps `c` back and crops the
columns. A corrupted record is skipped by `findnext`, which scans word by word
for the next sync byte (optionally requiring a valid running checksum before
it).

Two versions of the reader are modelled side by side:

- `NortekReader` in `dolfyn/io/nortek.py`, a Python 3 reader with
  dictionaries, a checked `read` that raises `EOFError`, and a history of the
  last five record kinds;
- `vec_reader` in `dolfyn/adv/read.py`, the older Python 2 reader with
  attribute containers, an unchecked `read`, return codes 1/2/10 from
  `readnext`, and the `flag_lastread_sysdata` policy for `c`.

## Structure

Shared modules:

- `Wire`: bytes, 16-bit words and two's complement.
- `Py`: Python and numpy semantics the readers rely on:
  - exceptions as values;
  - numpy indexing and slicing with negative indices;
  - strict UTF-8 decoding;
  - `partition(b'\x00')`.
- `Helpers`: BCD digits, the byte selectors, `int2binarray`, year completion
  and the record clock.
- `Checksum`: the record checksum and the readers' test.
- `Sync`: the `findnext` scan.
- `Records`:
  - the kind table;
  - record layouts with encoders and round trips;
  - IMU column writes;
  - the serial-number test.
- `Crop`: `crop_data`.

Each reader is modelled twice:

- as a value model (`NortekModel`, `AdvModel`): a `State` datatype and one
  function per routine that maps the old state to the new state and a
  `Res` outcome (a value or the exception raised);
- as a class (`NortekIo.NortekReader`, `AdvIo.VecReader`): the reader's
  fields, with the columns as arrays updated in place. Each method is proved
  to leave the reader in exactly the state, with exactly the outcome, that
  the step function gives.

The properties are lemmas about the step functions, in `NortekProps` and
`AdvProps`. Where the two versions differ, each keeps its own behaviour:

- the newer reader raises `EOFError`, while the older one returns code 1 or 2;
- the older reader's `c` starts at -1 and follows the system-data flag;
- the older reader's crop is real, while the newer one's changes nothing.

## Model

| member | source | states |
|---|---|---|
| Wire.Avail | dolfyn/adv/read.py:485 | `f.read(n)` gives exactly the next `n` bytes when the file holds them, the bytes up to the end otherwise, and nothing past the end |
| Wire.Word | dolfyn/io/nortek.py:1012 | a `'H'` word in either byte order: the low and high bytes are the file bytes in that order |
| Wire.WordBytes | dolfyn/io/nortek.py:1012 | the two bytes that read back as a given word |
| Wire.WordBytesOfWord | dolfyn/io/nortek.py:1012 | reading two bytes as a word and writing it back gives the same bytes |
| Wire.Signed16 | dolfyn/io/nortek.py:565 | an `'h'` field is the two's-complement value of its word, in [-32768, 32768) |
| Wire.Unsigned16 | dolfyn/io/nortek.py:565 | every 16-bit signed value has a word that reads back as it |
| Wire.Unsigned16OfSigned16 | dolfyn/io/nortek.py:565 | signed reading and writing are inverse on words |
| Wire.Words | dolfyn/io/nortek.py:324-325 | `unpack(k * 'H', s)` gives one word per byte pair, in order |
| Wire.SumAppend | dolfyn/io/nortek.py:324 | the word sum of a concatenation is the sum of the parts |
| Wire.SumNonNegative | dolfyn/io/nortek.py:324 | a sum of `k` words lies in [0, 65535 k] |
| Wire.WordsAppend | dolfyn/io/nortek.py:324-325 | unpacking a concatenation of even-length byte strings unpacks each part |
| Py.NpIndex | dolfyn/io/nortek.py:551-565 | numpy index `i` reaches a column of length `n` exactly when -n <= i < n, counting negative indices from the end |
| Py.NpSet | dolfyn/io/nortek.py:551-565 | `col[i] = v` writes `v` at the index `NpIndex` gives, leaves every other element, and raises when the index is out of range |
| Py.SliceStop | dolfyn/adv/read.py:569 | `a[:stop]` never grows the column |
| Py.SliceStopKeeps | dolfyn/adv/read.py:569 | `a[:stop]` keeps exactly the elements below `stop`, counted from the end for a negative stop |
| Py.SliceStopInRange | dolfyn/adv/read.py:569 | a stop inside the column keeps exactly `stop` elements |
| Py.Utf8SeqLen | dolfyn/io/nortek.py:467 | the leading well-formed UTF-8 sequence is 1 to 4 bytes long, 1 for ASCII |
| Py.EncodeCodePoint | dolfyn/io/nortek.py:467 | every Unicode scalar value encodes in 1 to 4 bytes |
| Py.EncodeCodePointValid | dolfyn/io/nortek.py:467 | the strict decoder accepts the encoding of any scalar value |
| Py.ValidUtf8Append | dolfyn/io/nortek.py:816 | decodable text followed by decodable text is decodable |
| Py.AsciiIsValid | dolfyn/io/nortek.py:812 | ASCII text always decodes |
| Py.BeforeNul | dolfyn/io/nortek.py:398 | `partition(b'\x00')[0]` is the longest NUL-free prefix, ending at the first NUL |
| Py.BeforeNulIdempotent | dolfyn/io/nortek.py:398 | cutting at the first NUL a second time changes nothing |
| Py.NoNulKept | dolfyn/io/nortek.py:411 | a text without NUL is kept whole |
| Helpers.Bcd2Char | dolfyn/io/nortek.py:114-122 | a BCD byte decodes to a number of at most 99 |
| Helpers.EncodeBcd | dolfyn/io/nortek.py:114-122 | a two-digit number has a BCD byte with both nibbles at most 9 |
| Helpers.Bcd2CharDigits | dolfyn/io/nortek.py:114-122 | a BCD byte with nibbles `hi`, `lo` decodes to `10 hi + lo` |
| Helpers.Bcd2CharRoundTrip | dolfyn/adv/read.py:9-16 | decoding the BCD byte of any two-digit number gives it back |
| Helpers.Bcd2CharClamps | dolfyn/io/nortek.py:119 | every byte above 0x99 decodes like 0x99 |
| Helpers.ProbesPickFileOrder | dolfyn/io/nortek.py:1006-1015 | in either byte order, `findnext` tests the first byte of the word for the sync byte and returns the second as the code |
| Helpers.SplitWord | dolfyn/io/nortek.py:125-126 | `_bitshift8` (the high byte) and `np.uint8` (the low byte) split a word: high times 256 plus low gives it back, and so does putting them together in either byte order |
| Helpers.Int2BinArray | dolfyn/io/nortek.py:33-37 | `int2binarray(val, n)` has `n` flags, flag `i` being bit `i` of `val` |
| Helpers.FlagsKeepLowBits | dolfyn/io/nortek.py:33-37 | the flags hold exactly the low `n` bits of `val` |
| Helpers.FullYear | dolfyn/adv/read.py:21-25 | years 0..89 become 20xx, 90..100 become 19xx, larger years are kept |
| Helpers.FullYearKeepsDigits | dolfyn/adv/read.py:21-25 | a completed two-digit year keeps its last two digits and lies in 1990..2089 |
| Helpers.DecodeStamp | dolfyn/io/nortek.py:970-980 | the six BCD clock bytes give two-digit fields, and a completed year lies in 1990..2089 |
| Helpers.EncodeStamp | dolfyn/io/nortek.py:974 | a clock with two-digit fields has a 6-byte encoding |
| Helpers.StampRoundTrip | dolfyn/adv/read.py:494-500 | the clock fields survive a round trip through their BCD bytes, with the year completed by `fullyear` |
| Helpers.DaysInMonth | dolfyn/io/nortek.py:976-979 | months have 28 to 31 days, and February has 29 exactly in leap years |
| Helpers.EncodedDateIsValid | dolfyn/io/nortek.py:976-979 | a clock written from a real calendar date decodes to fields `datetime` accepts |
| Checksum.RecordWordSum | dolfyn/io/nortek.py:324-325 | the word sum of the id and the payload lies in [0, 65535 (1 + len/2)] |
| Checksum.TrailerAccepted | dolfyn/adv/read.py:66-71 | the trailer a writer appends satisfies the format's rule: the seeded word sum equals the trailer modulo 2^16 |
| Checksum.RaisesAsWritten | dolfyn/adv/read.py:68 | the readers' test fires only when the unreduced sum plus the seed is below 2^16, and then only on a record the format accepts |
| Checksum.RaisesOnlyOnIntactRecords | dolfyn/adv/read.py:68 | the readers' test only fires on a record the format accepts |
| Checksum.LargeSumsNeverRaise | dolfyn/adv/read.py:68 | once the sum plus seed reaches 2^16 the test never fires, whatever the trailer |
| Checksum.SmallSumsRaiseWhenIntact | dolfyn/adv/read.py:68 | for a small sum the test fires exactly on an intact record |
| Checksum.IntactZeroRecordRaises | dolfyn/adv/read.py:68 | an intact velocity record with a zero payload makes the test fire |
| Sync.Scan | dolfyn/io/nortek.py:1011-1017 | the `findnext` loop stops on a word-aligned offset inside the file; with the checksum test and a mismatched running sum it moves at least one word; when the file runs out it ends where the short read leaves it |
| Sync.FindNext | dolfyn/io/nortek.py:994-1017 | `findnext` from the seed: with the checksum test it always moves at least one word |
| Sync.ScanWithoutChecksum | dolfyn/io/nortek.py:994-1017 | without the test the scan stops at the first word-aligned sync byte and returns the byte after it, and runs out only when no such byte remains |
| Sync.SkipsGarbageToNextRecord | dolfyn/io/nortek.py:994-1017 | after any sync-free run of words the scan lands exactly on the next record |
| Sync.ScanWithChecksum | dolfyn/adv/read.py:501-526 | with the test the scan stops at the first sync byte preceded by the seeded word sum of every word since its start, and passes over no such offset |
| Records.KindOfCode | dolfyn/io/nortek.py:160-169 | a `fun_map` hit names the kind whose code was read |
| Records.KindOfCodeIff | dolfyn/adv/read.py:40-49 | the table maps each known code to its kind and nothing else to that kind |
| Records.ProfileSizeEven | dolfyn/io/nortek.py:839 | that size is even and leaves room for every bin, with one fill byte for an odd `nbins` |
| Records.DecodeVec | dolfyn/io/nortek.py:551-565 | the `'4B2H3h6B'` fields of a velocity record each fit their slot |
| Records.EncodeVec | dolfyn/io/nortek.py:565 | a velocity sample is written in 20 bytes |
| Records.VecRoundTrip | dolfyn/adv/read.py:208 | decoding a written velocity record gives the sample back |
| Records.VecBytesRoundTrip | dolfyn/io/nortek.py:565 | writing a decoded velocity record gives the bytes back: the layout has no slack |
| Records.DecodeSysFields | dolfyn/io/nortek.py:647-655 | the `'2H3hH2BH'` status fields each fit their slot |
| Records.EncodeSysFields | dolfyn/io/nortek.py:655 | the status fields are written in 16 bytes |
| Records.SysFieldsRoundTrip | dolfyn/adv/read.py:258 | decoding written status fields gives them back |
| Records.DecodeProfileHead | dolfyn/io/nortek.py:842-853 | the profile sensor head, pressure as `65536 p_msb + p_lsw` |
| Records.EncodeProfileHead | dolfyn/io/nortek.py:852 | the sensor head is written in 20 bytes |
| Records.ProfileHeadRoundTrip | dolfyn/adv/read.py:365-366 | decoding a written sensor head gives it back |
| Records.I16s | dolfyn/io/nortek.py:856-857 | `unpack(k * 'h')` gives one signed value per byte pair |
| Records.EncodeI16s | dolfyn/io/nortek.py:856-857 | signed values are written two bytes each |
| Records.I16sRoundTrip | dolfyn/io/nortek.py:856-857 | decoding written signed values gives them back |
| Records.Lanes | dolfyn/io/nortek.py:858-861 | the flat bin list is cut into three lanes of `nbins` values |
| Records.LanesOfConcat | dolfyn/io/nortek.py:858-861 | cutting three concatenated lanes gives the lanes back |
| Records.DecodeBins | dolfyn/adv/read.py:368-372 | velocities and amplitudes of each beam and bin fit their slots |
| Records.EncodeBins | dolfyn/io/nortek.py:856-857 | the bins are written in `9 nbins` bytes |
| Records.BinsRoundTrip | dolfyn/adv/read.py:368-372 | decoding written bins gives them back |
| Records.WriteImu | dolfyn/io/nortek.py:768-793 | the IMU writes keep the column's length |
| Records.WriteImuSucceeds | dolfyn/io/nortek.py:768-793 | the writes succeed exactly when slot `c` exists and every variable of the layout was created |
| Records.WriteImuContents | dolfyn/io/nortek.py:780-783 | successful writes change only slot `c`, where each variable holds its byte range of the payload |
| Records.UpperAscii | dolfyn/io/nortek.py:227 | `upper()` changes exactly the lower-case ASCII letters |
| Records.SerialInst | dolfyn/io/nortek.py:227-231 | the instrument is AWAC exactly when the serial starts with `WPR` in any case, and Vector exactly when it starts with `VEC` |
| Records.SerialInstIgnoresCase | dolfyn/adv/read.py:474-477 | the instrument test gives the same answer for a lower-cased serial |
| Records.CoordLabel | dolfyn/io/nortek.py:394 | the coordinate label exists exactly for indices 0..2, and any other index raises |
| Crop.CropEntry | dolfyn/io/nortek.py:1101-1103 | one pass of the crop loop raises `IndexError` exactly on a 0-d array |
| Crop.CropAll | dolfyn/io/nortek.py:1100-1104 | the crop loop keeps the dictionary's keys |
| Crop.CropContents | dolfyn/io/nortek.py:1100-1104 | without 0-d arrays the crop completes, every matching array keeps exactly its lanes below `stop`, and every other entry is unchanged |
| Crop.CropRaisesOnScalar | dolfyn/io/nortek.py:1101-1103 | the crop raises exactly when a listed entry is a 0-d array, and then with `IndexError` |
| Crop.CropOfGroupsIsIdentity | dolfyn/io/nortek.py:1083 | a dictionary whose values are all dictionaries is left exactly as it was, as happens to the reader's data |
| Crop.CropIdempotent | dolfyn/io/nortek.py:1100-1104 | cropping a second time with the same stop changes nothing more |
| Crop.DataDict.constructor | dolfyn/io/nortek.py:1100 | a dictionary object holding the given keys and entries |
| Crop.DataDict.CropData | dolfyn/io/nortek.py:1100-1104 | `crop_data` updates the entries in place to those of `CropAll` and returns its exception |
| NortekModel.Read | dolfyn/io/nortek.py:265-269 | `read(n)` succeeds exactly when `n` bytes are left, returning them and moving past them; otherwise `EOFError`, with the offset at the end of the short read |
| NortekModel.FindNext | dolfyn/io/nortek.py:994-1017 | `findnext` leaves the offset on a whole word inside the file, at least one word on with the checksum test; a scan that runs out raises `EOFError` |
| NortekModel.ReadId | dolfyn/io/nortek.py:333-353 | a successful `read_id` moves at least past the 2 id bytes and stays in the file; its only exception is `EOFError` |
| NortekModel.ReadVecData | dolfyn/io/nortek.py:529-568 | `read_vec_data` keeps every column's length and, when it completes, moves forward and returns `None` |
| NortekModel.StoreVec | dolfyn/io/nortek.py:551-568 | the unpacking half of `read_vec_data` keeps the columns' lengths |
| NortekModel.ReadVecSysdata | dolfyn/io/nortek.py:626-656 | `read_vec_sysdata` keeps every column's length and moves forward when it completes |
| NortekModel.StoreSys | dolfyn/io/nortek.py:644-656 | the unpacking half of `read_vec_sysdata` completes only with the checksum switched off, changing just the system column and the offset (by the 2-byte trailer); an invalid clock or an out-of-range `c` raises with nothing changed; the row it stores is stated by `NortekProps.SysStoreLands` |
| NortekModel.ImuLayout | dolfyn/io/nortek.py:768-793 | each AHRS id's payload layout gives byte ranges inside its payload |
| NortekModel.ReadMicrostrain | dolfyn/io/nortek.py:698-795 | `read_microstrain` keeps the columns' lengths and completes with `None`, or with 10 for an id without a layout, leaving the offset 2 bytes into the 4-byte record head; where a 195, 204 or 211 record lands is NortekProps.ImuRecordLandsAtC |
| NortekModel.AfterImuHead | dolfyn/io/nortek.py:714-795 | the part after the record head steps back at most 2 bytes and returns `None` or 10; 10 comes with exactly a 2-byte step back |
| NortekModel.ReadImuPayload | dolfyn/io/nortek.py:768-795 | writing the payload moves forward and returns `None`; 10 is returned only for an id without a layout, with the offset stepped back 2 bytes, which is 4 bytes past the record's sync word, not onto it; what a known layout writes is NortekProps.ImuPayloadLands |
| NortekModel.ReadVecHdr | dolfyn/io/nortek.py:798-817 | `read_vec_hdr` keeps the columns and moves forward when it completes |
| NortekModel.ReadVecCheckdata | dolfyn/io/nortek.py:478-496 | `read_vec_checkdata` keeps the columns and moves forward when it completes |
| NortekModel.ReadAwacProfile | dolfyn/io/nortek.py:826-863 | `read_awac_profile` keeps the columns' lengths and moves forward when it completes |
| NortekModel.StoreProfile | dolfyn/io/nortek.py:841-863 | the unpacking half of `read_awac_profile` completes only with the checksum switched off, changing just the profile column, the offset (by the 2-byte trailer) and `c` (by one); an invalid clock or an out-of-range `c` raises with nothing changed; the row it stores is stated by `NortekProps.ProfileStoreLands` |
| NortekModel.ReadHwCfg | dolfyn/io/nortek.py:456-475 | `read_hw_cfg` moves forward when it completes |
| NortekModel.ReadHeadCfg | dolfyn/io/nortek.py:441-453 | `read_head_cfg` moves forward when it completes |
| NortekModel.ReadUserCfg | dolfyn/io/nortek.py:356-438 | `read_user_cfg` moves forward when it completes |
| NortekModel.Routine | dolfyn/io/nortek.py:160-169 | every routine of `fun_map` keeps the columns' lengths and, when it completes, moves forward and returns `None` or 10 |
| NortekModel.DropLast | dolfyn/io/nortek.py:1047 | `lst[:-1]` drops exactly the last element, and of an empty list gives an empty list |
| NortekModel.ReadNext | dolfyn/io/nortek.py:1040-1052 | a successful `readnext` read an id inside the file and returns `None` (having moved forward) or 10 |
| NortekModel.ReadLoop | dolfyn/io/nortek.py:1061-1081 | the `readfile` loop absorbs `EOFError`: only other exceptions escape it; why it stops is NortekProps.ReadLoopStops |
| NortekModel.AfterRecord | dolfyn/io/nortek.py:1071-1077 | the end of a loop pass, including the extra IMU read, lets no `EOFError` escape |
| NortekModel.SkipRecord | dolfyn/io/nortek.py:1024-1036 | one pass of `findnextid` moves only the offset, and raises only `EOFError` |
| NortekModel.FindNextId | dolfyn/io/nortek.py:1019-1037 | `findnextid` moves only the offset, forward, and returns it |
| NortekModel.SpacingLoop | dolfyn/io/nortek.py:903-907 | the `code_spacing` loop moves only the offset and counts between 1 and `iternum` passes |
| NortekModel.CodeSpacing | dolfyn/io/nortek.py:896-911 | `code_spacing` moves only the offset, and its divisor lies in 1..`iternum`; the span and the count are tied to the first `findnextid` and the loop by `NortekProps.CodeSpacingParts` |
| NortekModel.SpacingFrom | dolfyn/io/nortek.py:903-911 | the span is the distance from the first record's offset `p0` to where the loop leaves the reader, and the passes counted lie in 1..`iternum` |
| NortekModel.DetectEndian | dolfyn/io/nortek.py:197-205 | little-endian exactly when bytes 0..3 hold the magic pair, big-endian exactly when they do not and bytes 4..7 hold it in big-endian order |
| NortekModel.ReadHeader | dolfyn/io/nortek.py:214-225 | the header records move the offset forward when they are read; their order is stated by `NortekProps.HeaderOrder` |
| NortekModel.ReadFile | dolfyn/io/nortek.py:1055-1083 | `readfile` never lets `EOFError` out (the end of the file ends the loop); a loop asked to stop at the current `c` reads nothing and only steps `c` back |
| NortekModel.Fresh | dolfyn/io/nortek.py:180-182 | a fresh state has every column and the burst flags at the requested capacity |
| NortekModel.AdvGuess | dolfyn/io/nortek.py:931-934 | the Vector guess succeeds exactly when the interval and the spacing are non-zero, and is `(floor(filesize / dlta) + 1) * floor(512 / AvgInterval)` |
| NortekModel.AwacGuess | dolfyn/io/nortek.py:952-953 | the AWAC guess succeeds exactly when the interval and the spacing are non-zero, and is `floor(filesize / dlta) + 1` |
| NortekModel.Capacity | dolfyn/io/nortek.py:236-245 | with a ping count (or a `(start, stop)` pair) the capacity is that count plus one |
| NortekModel.CapacityOf | dolfyn/io/nortek.py:239-244 | the ping count overrides any guess |
| NortekModel.Open | dolfyn/io/nortek.py:172-263 | an opened reader has every column at its capacity, five history slots and `c == 0` |
| NortekProps.ReadIdInSync | dolfyn/io/nortek.py:337-353 | on a sync byte `read_id` consumes exactly the 2 id bytes and returns the code |
| NortekProps.ReadIdResyncs | dolfyn/io/nortek.py:341-351 | on a corrupted id `read_id` skips to the first word-aligned sync byte after it and returns the byte after that, or raises `EOFError` at the end of the file |
| NortekProps.ChecksumSwitch | dolfyn/io/nortek.py:319-331 | with the test off `checksum` only skips the trailer; with it on it raises `TypeError` before reading |
| NortekProps.OpenWithChecksumRaises | dolfyn/io/nortek.py:214-215 | with the checksum test on, no reader can be constructed |
| NortekProps.RoutineKeepsHistory | dolfyn/io/nortek.py:1044-1047 | no routine touches the history of record kinds |
| NortekProps.ReadNextUnknownCode | dolfyn/io/nortek.py:1049-1052 | an unknown code rewinds the 2 id bytes, returns 10 and changes nothing else |
| NortekProps.ReadNextKnownCode | dolfyn/io/nortek.py:1043-1048 | a completed routine pushes its kind on the history, the oldest entry drops out and five slots remain |
| NortekProps.VecDataAdvancesC | dolfyn/io/nortek.py:568 | `read_vec_data` advances `c` by one when it completes and leaves it when it raises |
| NortekProps.AwacProfileAdvancesC | dolfyn/io/nortek.py:863 | `read_awac_profile` advances `c` by one when it completes and leaves it when it raises |
| NortekProps.SysdataKeepsC | dolfyn/io/nortek.py:626-656 | `read_vec_sysdata` never changes `c` |
| NortekProps.MicrostrainNetC | dolfyn/io/nortek.py:703-707 | an IMU record leaves a positive `c` where it was and turns 0 into 1; an id without a layout leaves the step back |
| NortekProps.OtherRoutinesKeepC | dolfyn/io/nortek.py:160-169 | the configuration, header and check-data routines leave `c` alone |
| NortekProps.ReadNextKeepsCNonNegative | dolfyn/io/nortek.py:1040-1052 | no step of `readnext` makes a non-negative `c` negative |
| NortekProps.VecRecordLandsAtC | dolfyn/io/nortek.py:529-568 | an encoded velocity record read in step lands in slot `c`, advances `c`, moves past the record and its checksum, and is recorded in the history |
| NortekProps.ReadNextDispatchesVec | dolfyn/io/nortek.py:1040-1048 | a record with the velocity code goes to `read_vec_data`, and the history records it on success |
| NortekProps.VecStoreLands | dolfyn/io/nortek.py:551-568 | the bytes of an encoded velocity record put exactly that sample in slot `c` |
| NortekProps.SysdataMarksBurst | dolfyn/io/nortek.py:637-638 | a system record after check data and a header marks a burst start at `c`; otherwise the burst flags are kept |
| NortekProps.SysRecordLandsAtC | dolfyn/io/nortek.py:626-656 | an encoded system record lands in slot `c` with its clock and fields; an invalid clock raises `ValueError` before anything is written |
| NortekProps.SysStoreLands | dolfyn/io/nortek.py:644-656 | the bytes of an encoded system record put its clock and fields in slot `c` |
| NortekProps.AwacProfileConsumes | dolfyn/io/nortek.py:839-863 | with the checksum off, a completed profile record ends `116 + 9 nbins + nbins mod 2` bytes on, plus the 2-byte trailer |
| NortekProps.ProfileRecordLandsAtC | dolfyn/io/nortek.py:826-863 | an encoded profile record puts exactly its clock, head and bins in slot `c`, advances `c` and ends after its trailer; an invalid clock raises `ValueError` with nothing written |
| NortekProps.ProfileStoreLands | dolfyn/io/nortek.py:841-863 | the bytes of an encoded profile record put exactly its clock, head and bins in slot `c` |
| NortekProps.StoreProfileDecoded | dolfyn/io/nortek.py:841-863 | bytes whose clock, head and bins decode to given values put exactly those in slot `c`, advance `c` and skip the trailer; an invalid clock raises `ValueError` with nothing changed |
| NortekProps.FirstImuRecordCreatesVars | dolfyn/io/nortek.py:717-766 | the first IMU record creates the variables of its AHRS id and registers the IMU kind |
| NortekProps.ReadNextKeepsShape | dolfyn/io/nortek.py:1040-1052 | `readnext` keeps every column's capacity and the five history slots, however it ends |
| NortekProps.ImuRecordLandsAtC | dolfyn/io/nortek.py:698-795 | with the checksum off, a whole IMU record of AHRS id 195, 204 or 211 whose variables exist lands in slot `c - 1` (slot 0 when `c` is 0): each variable of the layout holds its byte range of the payload, every other slot is unchanged, `c` ends one past that slot, and the offset ends past the payload and its 2-byte trailer |
| NortekProps.ImuPayloadLands | dolfyn/io/nortek.py:768-795 | the payload of a known layout, read whole with the checksum off, lands in slot `c` variable by variable, leaves the other slots alone, advances `c` and ends past the trailer |
| NortekProps.ReadLoopStops | dolfyn/io/nortek.py:1061-1081 | a `readfile` loop that ends without an exception stopped at its last pass on one of three conditions: `c == nlines`, an `EOFError` from `readnext` or `findnext`, or `c >= npings` after a record, followed by one more `readnext` when the file holds IMU data |
| NortekProps.ProfileReadsThenStores | dolfyn/io/nortek.py:826-842 | a profile record that is whole in the file reads its bytes and hands them to the unpacking half |
| NortekProps.ImuLayoutFits | dolfyn/io/nortek.py:768-792 | each AHRS layout writes a variable at most once, and only variables its id creates |
| NortekProps.ProfileBytesLand | dolfyn/io/nortek.py:841-863 | once the read has handed over the bytes of an encoded profile record, the record lands in slot `c` as NortekProps.ProfileRecordLandsAtC states |
| NortekProps.ReadLoopInvariant | dolfyn/io/nortek.py:1061-1081 | the `readfile` loop keeps the shape and a non-negative `c`, however it ends |
| NortekProps.ReadFileBounds | dolfyn/io/nortek.py:1055-1083 | `readfile` ends with `c` one below the loop's, so at least -1; a loop asked to stop at the current `c` reads nothing |
| NortekProps.OpenStartsEmpty | dolfyn/io/nortek.py:236-245 | an opened reader starts right after the user configuration record, with its columns empty |
| NortekProps.HeaderOrder | dolfyn/io/nortek.py:214-225 | the header is the records with ids 5, 4, 0 in that order: the first id that differs raises right after it is read, and a completed header read exactly those ids |
| NortekProps.FindNextIdLands | dolfyn/io/nortek.py:1019-1037 | a successful `findnextid(id)` returns the offset reached by skipping a record of type `id` that starts inside the file, at or after where the search began |
| NortekProps.LastPassSkips | dolfyn/io/nortek.py:1023-1036 | the last pass of a successful search skips a record of type `id` and leaves the reader where the search ends |
| NortekProps.CodeSpacingParts | dolfyn/io/nortek.py:896-911 | a successful `code_spacing` is the first `findnextid`, found at `p0`, followed by the counted loop; the span is the final offset less `p0` |
| NortekIo.NortekReader.FromState | dolfyn/io/nortek.py:172-263 | a reader object whose fields are the given state, with fresh column arrays |
| NortekIo.NortekReader.Read | dolfyn/io/nortek.py:265-269 | leaves the reader in the state and outcome `NortekModel.Read` gives |
| NortekIo.NortekReader.FindNext | dolfyn/io/nortek.py:994-1017 | the scan loop, proved against `NortekModel.FindNext` |
| NortekIo.NortekReader.ReadId | dolfyn/io/nortek.py:333-353 | state and outcome of `NortekModel.ReadId` |
| NortekIo.NortekReader.CheckSum | dolfyn/io/nortek.py:319-331 | state and outcome of `NortekModel.CheckSum` |
| NortekIo.NortekReader.ReadVecData | dolfyn/io/nortek.py:529-568 | updates the arrays in place to the state of `NortekModel.ReadVecData` |
| NortekIo.NortekReader.StoreVec | dolfyn/io/nortek.py:551-568 | updates the arrays in place to the state of `NortekModel.StoreVec` |
| NortekIo.NortekReader.ReadVecSysdata | dolfyn/io/nortek.py:626-656 | updates the arrays in place to the state of `NortekModel.ReadVecSysdata` |
| NortekIo.NortekReader.StoreSys | dolfyn/io/nortek.py:644-656 | updates the arrays in place to the state of `NortekModel.StoreSys` |
| NortekIo.NortekReader.WriteImu | dolfyn/io/nortek.py:768-793 | the IMU column after the writes and the error are those of `Records.WriteImu` with `KeyError` for a missing variable |
| NortekIo.NortekReader.ReadMicrostrain | dolfyn/io/nortek.py:698-795 | state and outcome of `NortekModel.ReadMicrostrain` |
| NortekIo.NortekReader.AfterImuHead | dolfyn/io/nortek.py:714-795 | state and outcome of `NortekModel.AfterImuHead` |
| NortekIo.NortekReader.ReadImuPayload | dolfyn/io/nortek.py:768-795 | state and outcome of `NortekModel.ReadImuPayload` |
| NortekIo.NortekReader.ReadVecHdr | dolfyn/io/nortek.py:798-817 | state and outcome of `NortekModel.ReadVecHdr` |
| NortekIo.NortekReader.ReadVecCheckdata | dolfyn/io/nortek.py:478-496 | state and outcome of `NortekModel.ReadVecCheckdata` |
| NortekIo.NortekReader.ReadAwacProfile | dolfyn/io/nortek.py:826-863 | state and outcome of `NortekModel.ReadAwacProfile` |
| NortekIo.NortekReader.StoreProfile | dolfyn/io/nortek.py:841-863 | state and outcome of `NortekModel.StoreProfile` |
| NortekIo.NortekReader.ReadHwCfg | dolfyn/io/nortek.py:456-475 | state and outcome of `NortekModel.ReadHwCfg` |
| NortekIo.NortekReader.ReadHeadCfg | dolfyn/io/nortek.py:441-453 | state and outcome of `NortekModel.ReadHeadCfg` |
| NortekIo.NortekReader.ReadUserCfg | dolfyn/io/nortek.py:356-438 | state and outcome of `NortekModel.ReadUserCfg` |
| NortekIo.NortekReader.Routine | dolfyn/io/nortek.py:160-169 | state and outcome of `NortekModel.Routine` |
| NortekIo.NortekReader.ReadNext | dolfyn/io/nortek.py:1040-1052 | state and outcome of `NortekModel.ReadNext` |
| NortekIo.NortekReader.ReadRecords | dolfyn/io/nortek.py:1061-1081 | the `readfile` loop, proved against `NortekModel.ReadLoop` |
| NortekIo.NortekReader.ReadFile | dolfyn/io/nortek.py:1055-1083 | state and outcome of `NortekModel.ReadFile` |
| NortekIo.NortekReader.SkipRecord | dolfyn/io/nortek.py:1024-1036 | state and outcome of `NortekModel.SkipRecord` |
| NortekIo.NortekReader.FindNextId | dolfyn/io/nortek.py:1019-1037 | the `findnextid` loop, proved against `NortekModel.FindNextId` |
| NortekIo.NortekReader.SpacingPasses | dolfyn/io/nortek.py:903-907 | the `code_spacing` loop, proved against `NortekModel.SpacingLoop` |
| NortekIo.NortekReader.CodeSpacing | dolfyn/io/nortek.py:896-911 | state and outcome of `NortekModel.CodeSpacing` |
| NortekIo.NortekReader.SpacingFrom | dolfyn/io/nortek.py:903-911 | state and outcome of `NortekModel.SpacingFrom` |
| NortekIo.NortekReader.Capacity | dolfyn/io/nortek.py:236-245 | the capacity of `NortekModel.Capacity`, with the reader restored to where it was |
| NortekIo.NortekReader.ReadHeader | dolfyn/io/nortek.py:214-225 | state and outcome of `NortekModel.ReadHeader` |
| NortekIo.Open | dolfyn/io/nortek.py:172-263 | constructs a reader exactly when `NortekModel.Open` succeeds, with its state; otherwise raises the same exception |
| AdvModel.Read | dolfyn/adv/read.py:485 | the unchecked `read(n)` returns what the file holds, at most `n` bytes, and moves past them |
| AdvModel.FindNext | dolfyn/adv/read.py:501-526 | `findnext` leaves the offset on a whole word in the file and returns its code, or `None` at the end of the file where the short read leaves it |
| AdvModel.ReadId | dolfyn/adv/read.py:51-64 | `read_id` keeps the 2 bytes read as the record id, changes only the offset and the id, and raises only `struct.error` or `TypeError` |
| AdvModel.CheckSum | dolfyn/adv/read.py:66-71 | `checksum` moves only the offset and raises only `struct.error` or `CheckSumError` |
| AdvModel.InitKind | dolfyn/adv/read.py:194-206 | the creation block runs only when the kind's guard attribute (`Count`, `mpltime`, `temp`) is missing, and fails, with `ValueError`, exactly then and for a negative capacity guess; afterwards the guard exists |
| AdvModel.ReadVecData | dolfyn/adv/read.py:186-210 | `read_vec_data` keeps the columns' lengths and moves forward when it completes |
| AdvModel.StoreVec | dolfyn/adv/read.py:207-210 | the unpacking half of `read_vec_data` keeps the columns' lengths |
| AdvModel.ReadVecSysdata | dolfyn/adv/read.py:233-259 | `read_vec_sysdata` keeps the columns' lengths and moves forward when it completes |
| AdvModel.StoreSys | dolfyn/adv/read.py:244-259 | the unpacking half of `read_vec_sysdata` keeps the columns' lengths; fewer than 8 bytes raise `struct.error` with nothing changed; `AttributeError` comes only from a missing `error` column on a full-length record; a completed record was full length and had its `error` column |
| AdvModel.ReadMicrostrain | dolfyn/adv/read.py:287-321 | `read_microstrain` keeps the columns' lengths and moves forward when it completes |
| AdvModel.AfterImuHead | dolfyn/adv/read.py:299-321 | the part after the record head keeps the columns' lengths |
| AdvModel.ReadVecHdr | dolfyn/adv/read.py:323-339 | `read_vec_hdr` moves forward when it completes |
| AdvModel.ReadVecCheckdata | dolfyn/adv/read.py:156-173 | `read_vec_checkdata` moves forward when it completes |
| AdvModel.ReadAwacProfile | dolfyn/adv/read.py:341-372 | `read_awac_profile` keeps the columns' lengths and moves forward when it completes |
| AdvModel.StoreProfile | dolfyn/adv/read.py:361-372 | the unpacking half of `read_awac_profile` keeps the columns' lengths; fewer than 8 bytes raise `struct.error` with nothing changed; `AttributeError` comes only from a missing `Error` column after a complete head; a completed record had its `Error` column and at least all bytes but the fill byte; what it stores, in full and for a cut record, is stated by `AdvProps.StoreProfileDecoded`, `AdvProps.ProfileCutInBins` and `AdvProps.ProfileCutInHead` |
| AdvModel.ReadHwCfg | dolfyn/adv/read.py:137-154 | `read_hw_cfg` moves forward when it completes |
| AdvModel.ReadHeadCfg | dolfyn/adv/read.py:121-135 | `read_head_cfg` moves forward when it completes |
| AdvModel.ReadUserCfg | dolfyn/adv/read.py:73-119 | `read_user_cfg` moves forward when it completes |
| AdvModel.Routine | dolfyn/adv/read.py:40-49 | every routine of `fun_map` keeps the columns' lengths and moves forward when it completes |
| AdvModel.ReadNext | dolfyn/adv/read.py:535-549 | `readnext` returns `None`, 1, 2 or 10; `None` only after reading a whole id and moving forward |
| AdvModel.Dispatch | dolfyn/adv/read.py:540-545 | a known record gives `None` when its routine completes or 2 when it fails to unpack |
| AdvModel.ReadLoop | dolfyn/adv/read.py:556-564 | the `readfile` loop keeps the columns' lengths and ends with `None`, 1 or 2 |
| AdvModel.Cropped | dolfyn/adv/read.py:567-569 | cropping changes only the columns |
| AdvModel.FinishFile | dolfyn/adv/read.py:565-569 | after the loop `c` steps back exactly when the loop ended on 2; an exception passes through unchanged |
| AdvModel.FindNextId | dolfyn/adv/read.py:528-533 | `findnextid` moves only the offset, forward, returns it, and raises only `TypeError` |
| AdvModel.FindNextIdTimes | dolfyn/adv/read.py:398-399 | repeated `findnextid` calls move only the offset and raise only `TypeError` |
| AdvModel.CodeSpacing | dolfyn/adv/read.py:394-403 | `code_spacing` moves only the offset and raises `TypeError`, or `ZeroDivisionError` exactly for `iternum == 0` |
| AdvModel.SpacingAfter | dolfyn/adv/read.py:398-403 | the calls after the first record raise the same exceptions as `code_spacing` |
| AdvModel.DetectEndian | dolfyn/adv/read.py:449-456 | little-endian exactly when bytes 0..3 hold the magic pair |
| AdvModel.GuessOf | dolfyn/adv/read.py:405-428 | a guess raises only what `code_spacing` raised, or `ZeroDivisionError` on a zero interval or spacing; a guess is never negative; the AWAC guess is `filesize / dlta + 1`, so at least 1 |
| AdvModel.SizeGuess | dolfyn/adv/read.py:405-428 | `init_ADV` / `init_AWAC` raise only `TypeError` (the scan ran out) or `ZeroDivisionError`; the guess is never negative, and at least 1 for an AWAC |
| AdvModel.ReadHeader | dolfyn/adv/read.py:461-472 | the header records keep the columns' lengths and move the offset forward when they are read; their order is stated by `AdvProps.HeaderOrder` |
| AdvModel.ReadFile | dolfyn/adv/read.py:551-569 | an exception from the loop passes out with the loop's state and no crop; a completed `readfile` never lengthens a column; a loop asked to stop at the current `c` completes at once with `c` unchanged |
| AdvModel.Fresh | dolfyn/adv/read.py:439-448 | a fresh state has every column at the requested capacity |
| AdvModel.Open | dolfyn/adv/read.py:439-489 | an opened reader has every column at its capacity, `c == -1`, no flag yet, and a capacity of `npings + 1` when a ping count is given |
| AdvProps.ReadIdInSync | dolfyn/adv/read.py:51-58 | on a sync byte `read_id` consumes the 2 id bytes, keeps them and returns the code |
| AdvProps.ReadIdResyncs | dolfyn/adv/read.py:58-64 | on a corrupted id the reader lands past the next word-aligned sync byte and returns its code, keeping the corrupted bytes as the id; with none left it raises `TypeError` |
| AdvProps.ReadIdShort | dolfyn/adv/read.py:55-56 | with fewer than 2 bytes left `read_id` raises `struct.error` |
| AdvProps.ChecksumRule | dolfyn/adv/read.py:66-71 | with the test on and an even payload, `checksum` raises `CheckSumError` exactly on the as-written condition; an odd payload raises `struct.error`; with the test off it skips the trailer |
| AdvProps.ChecksumPassesLargeSums | dolfyn/adv/read.py:68 | any record with a large enough word sum passes, whatever its trailer |
| AdvProps.SysdataSetsFlagAndAdvances | dolfyn/adv/read.py:233-259 | a system record sets the flag and advances `c` however it ends; when it completes its clock and fields sit in slot `c` and every other slot is unchanged |
| AdvProps.VecDataFlagPolicy | dolfyn/adv/read.py:186-210 | a velocity record advances `c` only when the previous record was not system data, clears the flag, puts its decoded sample in slot `c`, and raises before the first system record |
| AdvProps.MicrostrainFlagPolicy | dolfyn/adv/read.py:292-295 | an IMU record steps `c` back and clears the flag only after system data, never advances `c`, and raises before the first system record |
| AdvProps.MicrostrainOnly204 | dolfyn/adv/read.py:304-321 | any AHRS id other than 204 ends in `UnboundLocalError` or `ValueError` |
| AdvProps.Microstrain204Lands | dolfyn/adv/read.py:315-321 | a completed 204 record writes only slot `c`, each IMU variable holding its byte range of the payload |
| AdvProps.AwacProfileAdvancesC | dolfyn/adv/read.py:362 | a profile record advances `c` by one once its creation block is skipped or succeeds, however it ends |
| AdvProps.AwacProfileConsumes | dolfyn/adv/read.py:361-372 | with the checksum off, a completed profile record ends `116 + 9 nbins + nbins mod 2` bytes on plus the trailer, except a record cut just before its fill byte at the end of the file, which completes one byte short |
| AdvProps.CheckedProfileConsumes | dolfyn/adv/read.py:361-372 | with the checksum on, a completed profile record always ends after all its bytes and the trailer |
| AdvProps.ProfileRecordLandsAtC | dolfyn/adv/read.py:341-372 | an encoded profile record puts exactly its clock, head and bins in slot `c + 1` and ends after its trailer; an invalid clock raises `ValueError` with nothing written, though `c` has advanced |
| AdvProps.ProfileReadsThenStores | dolfyn/adv/read.py:346-362 | once its columns can be written, a profile record reads its bytes, advances `c`, and hands over to the unpacking half |
| AdvProps.ProfileStoreLands | dolfyn/adv/read.py:363-372 | the bytes of an encoded profile record put exactly its clock, head and bins in slot `c` |
| Records.ProfileBytesDecode | dolfyn/adv/read.py:361-370 | an encoded profile record has the routine's length, and its clock, head and bins decode back to what was encoded |
| AdvProps.StoreProfileDecoded | dolfyn/adv/read.py:363-372 | complete bytes put their decoded clock, head and bins in slot `c` and skip the trailer; an invalid clock raises `ValueError` with nothing written |
| AdvProps.ProfileCutInBins | dolfyn/adv/read.py:361-369 | a record cut after its head writes the clock and the head, leaves the bins, and raises `struct.error` |
| AdvProps.StoreProfileCutDecoded | dolfyn/adv/read.py:363-369 | bytes with a valid clock and a complete head but too few for the bins write the clock and the head, keep the bins, and raise `struct.error` |
| AdvProps.ProfileCutInHead | dolfyn/adv/read.py:361-364 | a record cut inside its head writes only the clock and raises `struct.error` |
| AdvProps.ProfileAfterSysdataRaises | dolfyn/adv/read.py:346-364 | a profile record after system data skips creation (its guard `temp` exists), writes the clock, and raises `AttributeError` on the missing `Error` |
| AdvProps.SysdataAfterProfileRaises | dolfyn/adv/read.py:244-257 | system data after a profile record skips creation (its guard `mpltime` exists), writes the clock, and raises `AttributeError` on the missing `error` |
| AdvProps.ReadNextShortId | dolfyn/adv/read.py:536-539 | `readnext` returns 1 exactly when fewer than 2 bytes are left |
| AdvProps.ReadNextUnknownCode | dolfyn/adv/read.py:546-549 | an in-step unknown code returns 10 with the offset rewound onto the id |
| AdvProps.ReadNextKnownCode | dolfyn/adv/read.py:540-545 | an in-step known code returns `None` exactly when the routine completes and 2 exactly when it fails to unpack; other exceptions pass |
| AdvProps.ReadLoopStops | dolfyn/adv/read.py:556-564 | the loop stops only on code 1 or 2, on `c == nlines` or on `c >= npings` |
| AdvProps.ReadFileCrops | dolfyn/adv/read.py:565-569 | every column keeps exactly `c` rows, dropping the sample at index `c`; with `c == -1` all rows but the last |
| AdvProps.FindNextIdLands | dolfyn/adv/read.py:528-533 | `findnextid` ends on a sync word of type `id` at least one word on |
| AdvProps.FindNextIdTimesLands | dolfyn/adv/read.py:398-399 | `k` further calls end on a record of type `id` at least `2 k` bytes on |
| AdvProps.CodeSpacingAverage | dolfyn/adv/read.py:394-403 | `code_spacing` is the floor average of the distance covered, and at least one word |
| AdvProps.CodeSpacingEnds | dolfyn/adv/read.py:394-403 | both ends of the measured distance are records of type `id` |
| AdvProps.CodeSpacingParts | dolfyn/adv/read.py:394-403 | a successful `code_spacing` is the first `findnextid` followed by `iternum` more and the average |
| AdvProps.OnlyZeroAvgIntervalDivides | dolfyn/adv/read.py:405-417 | the size guess divides by zero only for a Vector with `AvgInterval == 0` |
| AdvProps.HeaderOrder | dolfyn/adv/read.py:461-472 | the header is the records with ids 5, 4, 0 in that order: the first id that differs raises right after it is read, and a completed header read exactly those ids |
| AdvIo.VecReader.FromState | dolfyn/adv/read.py:439-489 | a reader object whose fields are the given state, with fresh column arrays |
| AdvIo.VecReader.Read | dolfyn/adv/read.py:485 | state and bytes of `AdvModel.Read` |
| AdvIo.VecReader.FindNext | dolfyn/adv/read.py:501-526 | the scan loop, proved against `AdvModel.FindNext` |
| AdvIo.VecReader.ReadId | dolfyn/adv/read.py:51-64 | state and outcome of `AdvModel.ReadId` |
| AdvIo.VecReader.CheckSum | dolfyn/adv/read.py:66-71 | state and outcome of `AdvModel.CheckSum` |
| AdvIo.VecReader.InitKind | dolfyn/adv/read.py:194-206 | state and outcome of `AdvModel.InitKind` |
| AdvIo.VecReader.ReadVecData | dolfyn/adv/read.py:186-210 | updates the arrays in place to the state of `AdvModel.ReadVecData` |
| AdvIo.VecReader.StoreVec | dolfyn/adv/read.py:207-210 | updates the arrays in place to the state of `AdvModel.StoreVec` |
| AdvIo.VecReader.ReadVecSysdata | dolfyn/adv/read.py:233-259 | updates the arrays in place to the state of `AdvModel.ReadVecSysdata` |
| AdvIo.VecReader.StoreSys | dolfyn/adv/read.py:256-259 | updates the arrays in place to the state of `AdvModel.StoreSys` |
| AdvIo.VecReader.WriteImu | dolfyn/adv/read.py:315-320 | the IMU column after the writes and the error are those of `Records.WriteImu` with `AttributeError` for a missing variable |
| AdvIo.VecReader.ReadMicrostrain | dolfyn/adv/read.py:287-321 | state and outcome of `AdvModel.ReadMicrostrain` |
| AdvIo.VecReader.AfterImuHead | dolfyn/adv/read.py:299-321 | state and outcome of `AdvModel.AfterImuHead` |
| AdvIo.VecReader.ReadVecHdr | dolfyn/adv/read.py:323-339 | state and outcome of `AdvModel.ReadVecHdr` |
| AdvIo.VecReader.ReadVecCheckdata | dolfyn/adv/read.py:156-173 | state and outcome of `AdvModel.ReadVecCheckdata` |
| AdvIo.VecReader.ReadAwacProfile | dolfyn/adv/read.py:341-372 | state and outcome of `AdvModel.ReadAwacProfile` |
| AdvIo.VecReader.StoreProfile | dolfyn/adv/read.py:364-372 | state and outcome of `AdvModel.StoreProfile` |
| AdvIo.VecReader.ReadHwCfg | dolfyn/adv/read.py:137-154 | state and outcome of `AdvModel.ReadHwCfg` |
| AdvIo.VecReader.ReadHeadCfg | dolfyn/adv/read.py:121-135 | state and outcome of `AdvModel.ReadHeadCfg` |
| AdvIo.VecReader.ReadUserCfg | dolfyn/adv/read.py:73-119 | state and outcome of `AdvModel.ReadUserCfg` |
| AdvIo.VecReader.Routine | dolfyn/adv/read.py:40-49 | state and outcome of `AdvModel.Routine` |
| AdvIo.VecReader.ReadNext | dolfyn/adv/read.py:535-549 | state and outcome of `AdvModel.ReadNext` |
| AdvIo.VecReader.ReadRecords | dolfyn/adv/read.py:556-564 | the `readfile` loop, proved against `AdvModel.ReadLoop` |
| AdvIo.VecReader.ReadFile | dolfyn/adv/read.py:551-569 | state and outcome of `AdvModel.ReadFile`, the columns replaced by their crops |
| AdvIo.VecReader.CropColumns | dolfyn/adv/read.py:567-569 | every column replaced by a fresh array holding its `[:c]` crop, as `AdvModel.Cropped` gives |
| AdvIo.VecReader.FindNextId | dolfyn/adv/read.py:528-533 | the `findnextid` loop, proved against `AdvModel.FindNextId` |
| AdvIo.VecReader.CodeSpacing | dolfyn/adv/read.py:394-403 | state and outcome of `AdvModel.CodeSpacing` |
| AdvIo.VecReader.SpacingAfter | dolfyn/adv/read.py:398-403 | state and outcome of `AdvModel.SpacingAfter` |
| AdvIo.VecReader.FindNextIdTimes | dolfyn/adv/read.py:398-399 | the `for` loop of `code_spacing`, proved against `AdvModel.FindNextIdTimes` |
| AdvIo.VecReader.SizeGuess | dolfyn/adv/read.py:405-428 | the guess of `AdvModel.SizeGuess` |
| AdvIo.VecReader.ReadHeader | dolfyn/adv/read.py:461-472 | state and outcome of `AdvModel.ReadHeader` |
| AdvIo.Open | dolfyn/adv/read.py:439-489 | constructs a reader exactly when `AdvModel.Open` succeeds, with its state; otherwise raises the same exception |

## Left out

- File handling is not modelled. The file is an immutable byte sequence with an offset; `open`, buffering, `seek`, `close` and `filesize` are replaced by it and by its length.
- Debug printing, warnings and progress output are not modelled.
- The scientific conversions are not modelled: `sci_*`, `dat2sci`, `_sci_data`, the unit scaling, the `burst` reshaping and the coordinate-system properties. They are floating-point post-processing outside the decoding.
- The `_init_data` column definitions are not modelled. Each record kind is represented by one column of decoded rows; the numpy dtypes are replaced by the decoded integer values.
- The IMU floats are not decoded. Each IMU variable keeps the byte range of the payload it is unpacked from.
- Configuration fields that nothing downstream in the model reads are not kept: head calibration matrices, power and timing registers, `int2binarray` masks and others. Their records are still read with their exact sizes and failure conditions.
- The clock's conversion to a POSIX timestamp is not modelled. Only the decoded fields and the validity test that `datetime` applies are kept.
- `recatenate` and `read_nortek` are not modelled. They assemble the output dataset around the reader.
- The start of a `(start, stop)` range for `nens` is only stored by the newer reader and never used, so it is dropped.
- NortekModel.FindNextId: a `findnextid` that would loop forever (a record whose size field is 0) is reported as `Diverges` after more passes than the file has bytes. The exact moment Python would hang is not modelled.
- NortekModel.AdvGuess: the float quotient `filesize / dlta` is modelled as an exact rational floored by `int`. Floating-point rounding of very large files is not modelled.
- AdvModel.GuessOf: for a Vector the ensures bounds the error cases and says the guess is not negative. The exact value `(filesize / dlta + 1) * (512 / AvgInterval)`, with Python 2 integer division, is given only by the body; when it divides by zero is stated by `AdvProps.OnlyZeroAvgIntervalDivides`.
- AdvModel.StoreProfile: with the checksum off, a profile record with an odd bin count that is cut just before its final fill byte still completes, one byte short of its full length (`AdvProps.AwacProfileConsumes`). The next read then starts at the end of the file. This follows the source and is harmless.
- The older reader's Python 2 promotion of a `uint16` sum to a wider integer is modelled as unbounded integers, which is what it amounts to for sums of a record's words.
- AdvModel.InitKind: the older reader creates columns lazily, behind one guard attribute per kind (`Count`, `mpltime`, `temp`, and `Accel` for IMU data). The model allocates every column at the capacity up front. It keeps in `dtypes` the kinds whose creation block ran and derives the existing attributes from them. A negative capacity fails when a creation block runs, as numpy does. A profile record after system data, and system data after a profile record, skip creation and raise `AttributeError` at the first missing column (`Error`, `error`), as in the source (`AdvProps.ProfileAfterSysdataRaises`, `AdvProps.SysdataAfterProfileRaises`).
- AdvModel.StoreSys: the model keeps one column set per record kind, so the columns that the source's kinds share are kept apart. These are `mpltime`, `batt`, `c_sound`, `heading`, `pitch`, `roll`, `status` and `temp` between system and profile records, and `AnaIn1`, `_u` and `_amp` between velocity and profile records. One kind's writes are not visible in another kind's column. For velocity and profile records, the sharing is never observable: by the lemmas cited in the AdvModel.StoreVec line, a run cannot complete both kinds. The writes to `batt` … `temp` that precede the raise on `error` are not kept.
- AdvModel.StoreVec: the model does not give `_u` and `_amp` the bin axis that a profile record's creation block gives them (dolfyn/adv/read.py:346-359).
  - On the `(3, nbins, n)` arrays, a velocity write `_u[0, c] = v` (read.py:208) indexes the bin axis with `c`. It fills bin `c` at every sample, and raises `IndexError` once `c >= nbins`.
  - A `readfile` run never reaches that write. A velocity record raises `AttributeError` until a system record has set `flag_lastread_sysdata` (read.py:191, 238; `AdvProps.VecDataFlagPolicy`).
  - After a profile creation block, no system record completes. `AdvModel.StoreSys` completes only when `error` exists. `AdvProps.SysdataAfterProfileRaises` gives `AttributeError` for a whole record with a valid clock.
  - After a system record, a profile record skips creation, because `temp` exists. It does not complete: `AdvModel.StoreProfile` completes only when `Error` exists, and `AdvProps.ProfileAfterSysdataRaises` gives the `AttributeError`.
  - A failed record ends the loop: `struct.error` becomes code 2, and any other exception escapes. So no velocity record follows a profile creation, and no profile creation follows a completed velocity record.
- The newer reader's creation guards test `'vel'` (dolfyn/io/nortek.py:543), `'time'` (639) and `'temp'` (834). The variable sets they create come from `nortek_defs`, which is not part of this model. The model assumes each guard variable is created only by its own kind, so `dtypes` gains a kind the first time one of its records is read. In the source, a profile record after system data (which also writes `temp`) skips its own creation; what happens next depends on `nortek_defs`.
- `WrongFileType` and `NotNortek` are the model's labels for the generic `Exception`. The source raises it at dolfyn/adv/read.py:456, 465, 469 and 473 and at dolfyn/io/nortek.py:216, 220 and 224. It tells these cases apart only by the message.
- AdvIo.VecReader.CropColumns: the crop gives fresh arrays. numpy returns views that share memory with the old columns, but nothing reads the old columns afterwards.
- The class methods that update state (`NortekIo`, `AdvIo`) state their new state through `old(...)`. Their meaning comes from the step functions they are proved against.
