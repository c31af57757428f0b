# djbabel in Dafny

djbabel converts DJ libraries between Serato, Rekordbox and Traktor through
one canonical track model (`ATrack`, `AMarker`, `ABeatGridBPM`, ...). This
project models the core of that conversion and proves properties of the model:

- the Serato side: the binary tags Serato stores in audio files (`Analysis`,
  `Autotags`, `BeatGrid`, `Markers_`, `Markers2`, `Overview`), the base64
  envelope around them, the crate file format (`.crate` fields, read and
  write), the lowering of a canonical track into those tags, and the reading
  of the tags back into the canonical model;
- the shared helpers of `djbabel/utils.py`: unit conversions, `to_int`, the
  leading-base64 scan, inverse dictionaries, the encoder-name matcher, the
  beat-grid offset, `adjust_time`/`normalize_time`, the reindexing of loops,
  path anchors and the key tables;
- the Rekordbox side: field names, the attribute texts `rb_attr` writes for
  each field, the colour, rating, tonality, marker and tempo conversions, and
  what `from_rekordbox` reads back from those attributes;
- the Traktor side: field names and tag predicates, `traktor_path`, the
  volume lookup over mount points, and the attribute readers of
  `traktor/read.py` (location, loudness, musical key, cue points and beat
  grid, collection lookup).

Each module follows one source file. Byte strings are `seq<byte>` with
`byte = bv8`. Python exceptions become `Result` values whose error names the
exception class. Loops over a `BytesIO` cursor are `method`s with `while`
loops, each proved equal to a recursive specification function. The crate
writer's output stream is a small class. Floating-point values are `real`s,
or, where the bytes matter (`'>f'`), opaque four-byte words.

Audio files, mutagen tags, XML parsing, the file system, the clock and the
operating system are not modelled. An XML element is a map from attribute
names to texts, and the things the source asks of the environment (today's
date, `os.name`, the volume table, formatting of floats) are parameters.

The source spells two colours `LIME_gREEN` and `HOT_PING` (`types.py`). The
model names them `LIME_GREEN` and `HOT_PINK`. Only the names differ.

## Model

| member | source | states |
|---|---|---|
| Analysis.Ints | src/djbabel/serato/analysis.py:24-26 | the copying loop yields one integer per byte, each equal to its byte |
| Analysis.ParseAnalysis | src/djbabel/serato/analysis.py:23-35 | the loop-and-branch parse returns exactly what the specification `Parse` returns, error included |
| Analysis.ParseCases | src/djbabel/serato/analysis.py:28-35 | parse succeeds iff the tag has 2 bytes, or 3 bytes whose last is 0; otherwise ValueError; on success one entry whose version is the first two bytes |
| Analysis.Parse | src/djbabel/serato/analysis.py:23-35 | definition of parse: one Analysis entry holding the first two bytes when the tag has three bytes ending in 0, all of them when it has two, ValueError otherwise; ParseCases states it and ParseAnalysis computes it |
| Autotags.AsciiDecode | src/djbabel/serato/autotags.py:27 | `decode('ascii')` succeeds iff every byte is below 0x80, and keeps the length |
| Autotags.AsciiDecodeChars | src/djbabel/serato/autotags.py:27 | each decoded character has its byte's code |
| Autotags.AsciiDecodeEncode | src/djbabel/serato/autotags.py:27 | decoding the ASCII encoding of a text gives the text back |
| Autotags.Values | src/djbabel/serato/autotags.py:25-27 | the generator yields exactly k values when it succeeds |
| Autotags.Parse | src/djbabel/serato/autotags.py:20-27 | a successful parse yields exactly three values |
| Autotags.ParseAutotags | src/djbabel/serato/autotags.py:20-27 | the method with the BytesIO cursor returns what `Parse` specifies, errors included |
| Autotags.ReadValues | src/djbabel/serato/autotags.py:25-27 | the loop collects the k rounds in order and stops at the first failing round with its error, as `Values` specifies |
| Autotags.Round | src/djbabel/serato/autotags.py:25-27 | one turn of the loop: either the error that ends the generator or the value appended, consistent with `Values` |
| Autotags.ReadValue | src/djbabel/serato/autotags.py:26-27 | readbytes, ascii decoding and float of one round, or the error of the first step that fails |
| Autotags.Field | src/djbabel/serato/autotags.py:33-34 | each dumped value ends with its NUL terminator |
| Autotags.Dump | src/djbabel/serato/autotags.py:30-35 | the dump opens with the version bytes 01 01 |
| Autotags.DumpAutotags | src/djbabel/serato/autotags.py:30-35 | the loop over (value, decimals) pairs produces exactly `Dump` |
| Autotags.ValuesStep | src/djbabel/serato/autotags.py:25-27 | a round whose string decodes and reads as v contributes v in front of the remaining rounds |
| Autotags.ValuesDecodeFails | src/djbabel/serato/autotags.py:27 | a non-ASCII round ends the generator with the decoding error |
| Autotags.ValuesFloatFails | src/djbabel/serato/autotags.py:27 | a round that float() rejects ends the generator with that error |
| Autotags.TextReads | src/djbabel/serato/autotags.py:25-27 | an ASCII text without NUL, written with its NUL, is read back as float of the text, whatever precedes or follows it |
| Autotags.FieldReads | src/djbabel/serato/autotags.py:25-35 | a field as dump writes it reads back as the value rounded to its decimals |
| Autotags.FixedText | src/djbabel/serato/autotags.py:33 | the fixed-point text is ASCII without NUL and float reads it as the rounded value |
| Autotags.ParseDump | src/djbabel/serato/autotags.py:20-35 | parse(dump(bpm, autogain, gaindb)) gives the three values rounded to 2, 3 and 3 decimals |
| Autotags.ParseThree | src/djbabel/serato/autotags.py:20-27 | the version followed by three fields that read back as v1, v2, v3 parses as [v1, v2, v3] |
| Autotags.Labelled | src/djbabel/serato/autotags.py:9-11 | the result is keyed by exactly bpm, autogain and gaindb, each bound to its value in order |
| Base64.Encode | src/djbabel/serato/write.py:156 | b64encode gives 4 characters per started group of three bytes |
| Base64.CharValue | src/djbabel/serato/utils.py:42 | every 6-bit value has an alphabet character that decodes back to it; only 0 maps to 'A'; none is '=', NUL or newline |
| Base64.EncodeGroupDecodes | src/djbabel/serato/utils.py:42 | a full group of four characters decodes to its three bytes and returns the decoder to a group start |
| Base64.DecodeEncodeAppend | src/djbabel/serato/utils.py:42 | whole groups decode to their bytes whatever text follows them |
| Base64.EncodeSplit | src/djbabel/serato/write.py:156 | the encoding of whole groups followed by more bytes is the concatenation of the two encodings |
| Base64.EncodeAlphabet | src/djbabel/serato/write.py:156 | encoded text holds alphabet characters and '=' only, never NUL or newline; whole groups hold no '=' |
| Base64.DecodeTail | src/djbabel/serato/utils.py:42 | a final partial group padded as b64encode pads it decodes to its bytes |
| Base64.DecodeEncode | src/djbabel/serato/utils.py:42 | b64decode(b64encode(x)) == x for every byte string |
| Beatgrid.RecordsStep | src/djbabel/serato/beatgrid.py:42-50 | one round of the loop reads marker i from its 8 bytes and continues after them |
| Beatgrid.RecordsSucceed | src/djbabel/serato/beatgrid.py:41-53 | the markers and footer read without struct.error iff the buffer holds the whole tag, and then give n - i + 1 items |
| Beatgrid.RecordsShort | src/djbabel/serato/beatgrid.py:43-44 | a marker cut short by the end of the data is a struct.error |
| Beatgrid.RecordsLayout | src/djbabel/serato/beatgrid.py:42-53 | on a complete tag every item read is the one at its byte offset |
| Beatgrid.ParseLayout | src/djbabel/serato/beatgrid.py:36-53 | parse succeeds iff the version is 01 00 and the data holds the declared markers and the footer; then it yields N + 1 items, each the one at its offset |
| Beatgrid.ParseOrdered | src/djbabel/serato/beatgrid.py:42-53 | the items come as N - 1 non-terminal markers, the terminal one, the footer; N = 0 gives the footer alone |
| Beatgrid.ParseBeatgrid | src/djbabel/serato/beatgrid.py:36-53 | the method with its loop over range(num_markers) returns exactly `Parse` |
| Beatgrid.Parse | src/djbabel/serato/beatgrid.py:36-53 | definition of parse: struct.error below two bytes, AssertionError unless the version is 01 00, then the '>I' marker count and that many markers followed by the footer; ParseLayout and ParseOrdered state the result |
| Canonical.BeatGridPoint | src/djbabel/types.py:40-44 | a beat-grid point keeps position and bpm and takes the default metre (4, 4) |
| Canonical.RgbOf | src/djbabel/types.py:53-85 | every palette colour has a valid RGB value |
| Canonical.PaletteComplete | src/djbabel/types.py:53-85 | the palette has 16 colours, lists each once, and no two share an RGB value |
| Canonical.RgbInjective | src/djbabel/types.py:53-85 | two colours have the same RGB value iff they are the same colour |
| Canonical.MakePlaylist | src/djbabel/types.py:198-207 | the playlist keeps name and tracks, and its entry count is the number of tracks (by its type) |
| Bytes.Zeros | src/djbabel/serato/write.py:167 | `b'\x00' * n` has max(n, 0) bytes, all NUL |
| Bytes.FromToBE | src/djbabel/serato/markers2.py:202 | a number packed big-endian in k bytes unpacks to itself |
| Bytes.ToFromBE | src/djbabel/serato/markers2.py:202 | k bytes unpacked and packed again give the same bytes |
| Bytes.PackU32 | src/djbabel/serato/write.py:152 | `struct.pack('>I', n)` gives four bytes that spell n |
| Bytes.UnpackU32 | src/djbabel/serato/markers2.py:202 | `struct.unpack('>I', s)` succeeds iff s has exactly four bytes, and then packing the result gives s back |
| Bytes.UnpackPackU32 | src/djbabel/serato/markers2.py:202 | unpacking a packed u32 gives the number back |
| Bytes.PackU32FromBE | src/djbabel/serato/markers2.py:202 | any four bytes are the packing of the number they spell |
| Bytes.PackU16 | src/djbabel/serato/crate/write.py:64-67 | `struct.pack('>H', n)` gives two bytes that spell n |
| Bytes.UnpackU16 | src/djbabel/serato/crate/read.py:173-175 | `struct.unpack('>H', s)` succeeds iff s has exactly two bytes, and then packing the result gives s back |
| Bytes.UnpackPackU16 | src/djbabel/serato/crate/read.py:173-175 | unpacking a packed u16 gives the number back |
| Bytes.LowBytesU32 | src/djbabel/serato/markers.py:38-54 | dropping the first byte of a big-endian u32 keeps its value modulo 2^24 |
| Bytes.ReadN | src/djbabel/serato/markers2.py:202-206 | `BytesIO.read(n)` returns n bytes, fewer at the end of the buffer, and the cursor moves past them |
| Bytes.ReadNAt | src/djbabel/serato/markers2.py:206 | reading |x| bytes where x sits gives x |
| Bytes.FixedBytes | src/djbabel/serato/markers2.py:71 | struct's 'Ns' packing cuts or NUL-pads to exactly n bytes |
| Bytes.IndexOfFrom | src/djbabel/serato/markers2.py:192 | the index of the first given byte at or after the start, or -1 when there is none |
| Bytes.FindFrom | src/djbabel/serato/utils.py:47 | `find(p, start)`: the first occurrence at or after start, or -1 iff there is none |
| Bytes.Find | src/djbabel/serato/utils.py:47 | `find(p)`: the first occurrence of p, or -1 iff p does not occur |
| Bytes.RemoveAll | src/djbabel/serato/write.py:132-133 | `replace(p, b'')` never lengthens |
| Bytes.RemoveByte | src/djbabel/serato/write.py:133 | deleting one byte value removes all of them and leaves byte-free text unchanged |
| Bytes.RemoveByteAppend | src/djbabel/serato/write.py:133 | deleting one byte value commutes with concatenation |
| Bytes.RemoveAllKeepsPrefix | src/djbabel/serato/write.py:133 | when no occurrence can start in a, `replace` leaves a untouched |
| Bytes.Ascii | src/djbabel/serato/utils.py:84-85 | an ASCII literal has one byte per character |
| Bytes.AsciiInjective | src/djbabel/serato/utils.py:84-85 | two texts with the same ASCII bytes are the same text |
| CrateRead.KindOf | src/djbabel/serato/crate/read.py:298-331 | a recognised one-byte type code is exactly the byte of the kind it names |
| CrateRead.KindOfByte | src/djbabel/serato/crate/read.py:24-31 | every kind's byte is recognised as that kind |
| CrateRead.BoolNameOf | src/djbabel/serato/crate/read.py:194-214 | a name matched by the bool table is the text of the field it yields |
| CrateRead.U32NameOf | src/djbabel/serato/crate/read.py:216-228 | a name matched by the u32 table is the text of the field it yields |
| CrateRead.PathNameOf | src/djbabel/serato/crate/read.py:230-238 | a name matched by the path table is the text of the field it yields |
| CrateRead.TextNameOf | src/djbabel/serato/crate/read.py:240-284 | a name matched by the text table is the text of the field it yields |
| CrateRead.ContainerNameOf | src/djbabel/serato/crate/read.py:286-296 | a name matched by the container table is the text of the field it yields |
| CrateRead.TextNameText | src/djbabel/serato/crate/write.py:90-153 | every text field's name is ASCII, three letters, and four for vrsn alone |
| CrateRead.NameTablesInvert | src/djbabel/serato/crate/read.py:194-296 | the bool, u32, path and container read tables map each name the writer gives back to its field |
| CrateRead.TextNameInverts | src/djbabel/serato/crate/read.py:240-284 | the text read table maps each of the twenty text names back to its field |
| CrateRead.TrkTwoMeanings | src/djbabel/serato/crate/read.py:230-238 | `trk` is a TrackPath under the path type and a Track under the container type |
| CrateRead.TakeField | src/djbabel/serato/crate/read.py:345-353 | take_field gives None for a descriptor cut short; a field it reads lies within the buffer and the cursor moves past its descriptor, length and content |
| CrateRead.TakeFieldsLoop | src/djbabel/serato/crate/read.py:355-362 | the while loop returns exactly the recursive `TakeFields` |
| CrateRead.TakeFieldsEnd | src/djbabel/serato/crate/read.py:160-167 | fewer than four bytes left ends take_fields with no further field |
| CrateRead.TakeFieldsShortLength | src/djbabel/serato/crate/read.py:152-154 | a length cut short is a struct.error, not an end |
| CrateRead.TakeFields | src/djbabel/serato/crate/read.py:355-362 | definition of take_fields on a whole buffer: fields read one after another until take_field gives None; TakeFieldsLoop computes it and CrateWrite.RoundTrip reads write_fields back through it |
| CrateRead.ParseFieldDesc | src/djbabel/serato/crate/read.py:334-342 | definition of parse_field_desc: the descriptor vrsn is parsed as a text field named vrsn; any other as type byte 0 and name bytes 1 to 3; CrateWrite.VersionReads and CrateWrite.ScalarLayout state what it reads |
| CrateRead.CollectPathsSpec | src/djbabel/serato/crate/read.py:366-374 | the reduce with get_pp appends the paths of the remaining fields to its accumulator |
| CrateRead.GetTrackPathsSpec | src/djbabel/serato/crate/read.py:366-374 | get_track_paths keeps, in order, the path of every Track holding exactly one TrackPath |
| CrateRead.PathsAppend | src/djbabel/serato/crate/read.py:366-374 | the paths of two field lists are the paths of each, concatenated |
| CrateRead.PathsMembers | src/djbabel/serato/crate/read.py:366-374 | a path is returned iff some field is a Track holding exactly that one TrackPath |
| CrateRead.GetTrackPaths | src/djbabel/serato/crate/read.py:366-374 | definition of get_track_paths: the reduce with get_pp from an empty list; GetTrackPathsSpec and PathsMembers state which paths it keeps |
| CrateWrite.Encode16 | src/djbabel/serato/crate/write.py:60 | UTF-16BE gives two bytes per code unit |
| CrateWrite.Decode16Encode16 | src/djbabel/serato/crate/read.py:169-171 | decoding UTF-16BE reads back every unit the writer encodes |
| CrateWrite.LengthBytes | src/djbabel/serato/crate/write.py:50-52 | a length packs as '>I' iff it is below 2^32, otherwise struct.error |
| CrateWrite.FieldName | src/djbabel/serato/crate/write.py:90-153 | field_name succeeds iff the field is a known one, with ValueError otherwise; the name is ASCII, four bytes for Version alone and three for every other field |
| CrateWrite.VrsnOnlyForVersion | src/djbabel/serato/crate/write.py:186-190 | the name vrsn is written for Version and for no other field |
| CrateWrite.FieldType | src/djbabel/serato/crate/write.py:76-87 | definition of field_type: bool, u32, path and container for the classes of those kinds, text for every other field, the Unknown* ones included; FieldLayout and the *Reads lemmas show parse_field reads the kind back |
| CrateWrite.Descriptor | src/djbabel/serato/crate/write.py:186-192 | every descriptor written is four bytes |
| CrateWrite.WriteFieldBytes | src/djbabel/serato/crate/write.py:172-205 | only known fields produce bytes |
| CrateWrite.UnknownNotWritable | src/djbabel/serato/crate/write.py:152-153 | an Unknown* field raises ValueError |
| CrateWrite.FieldsFailWithOne | src/djbabel/serato/crate/write.py:208-221 | one unwritable field makes write_fields fail |
| CrateWrite.FieldLayout | src/djbabel/serato/crate/write.py:172-205 | each written field is descriptor, '>I' length and content, and its descriptor and content parse back to the field |
| CrateWrite.ScalarLayout | src/djbabel/serato/crate/write.py:54-72 | a scalar's content is its length and payload, and parse_field_desc reads the payload |
| CrateWrite.TextPayload | src/djbabel/serato/crate/read.py:169-171 | the payload of written text decodes as UTF-16BE to the text |
| CrateWrite.BoolReads | src/djbabel/serato/crate/read.py:298-303 | a written bool field reads back as itself |
| CrateWrite.U32Reads | src/djbabel/serato/crate/read.py:309-312 | a written u32 field reads back as itself |
| CrateWrite.PathReads | src/djbabel/serato/crate/read.py:313-317 | a written path field reads back as itself |
| CrateWrite.TextReads | src/djbabel/serato/crate/read.py:318-321 | a written text field reads back as itself |
| CrateWrite.VersionReads | src/djbabel/serato/crate/read.py:334-338 | vrsn reads back as Version through the special case of parse_field_desc |
| CrateWrite.ContainerReads | src/djbabel/serato/crate/read.py:322-325 | a written container reads back as itself when its children do |
| CrateWrite.PiecesReadBack | src/djbabel/serato/crate/read.py:355-362 | framed fields written one after another are read back in order, and reading goes on after them |
| CrateWrite.RoundTrip | src/djbabel/serato/crate/write.py:208-221 | take_fields(write_fields(xs)) == xs for every list of known fields the writer accepts, containers included |
| CrateWrite.ByteStream.Write | src/djbabel/serato/crate/write.py:48 | the stream grows by exactly the bytes given, and their count is returned |
| CrateWrite.DumpFieldDesc | src/djbabel/serato/crate/write.py:46-48 | appends the descriptor cut or padded to four bytes and returns 4 |
| CrateWrite.DumpFieldLength | src/djbabel/serato/crate/write.py:50-52 | appends the '>I' length and returns 4, or fails with struct.error and writes nothing |
| CrateWrite.DumpBool | src/djbabel/serato/crate/write.py:54-57 | appends length 1 and the bool byte, and returns 5 |
| CrateWrite.DumpU16Text | src/djbabel/serato/crate/write.py:59-62 | appends the length of the UTF-16BE bytes and the bytes |
| CrateWrite.DumpU16 | src/djbabel/serato/crate/write.py:64-67 | appends length 2 and the '>H' bytes, or struct.error with nothing written |
| CrateWrite.DumpU32 | src/djbabel/serato/crate/write.py:69-72 | appends length 4 and the '>I' bytes, or struct.error with nothing written |
| CrateWrite.DumpFieldContent | src/djbabel/serato/crate/write.py:156-169 | appends the content its type byte selects, or ValueError for an unknown type |
| CrateWrite.WriteField | src/djbabel/serato/crate/write.py:172-205 | appends exactly `WriteFieldBytes(f)` and returns its length; on failure, what the source had written before the error is what remains |
| CrateWrite.WriteVersion | src/djbabel/serato/crate/write.py:187-190 | vrsn: the raw four-byte descriptor, then the text content |
| CrateWrite.WriteContainer | src/djbabel/serato/crate/write.py:194-201 | a container: descriptor, the length of its children written to a fresh stream, then the children |
| CrateWrite.WriteScalar | src/djbabel/serato/crate/write.py:202-205 | any other field: type byte and name, then its content |
| CrateWrite.WriteFields | src/djbabel/serato/crate/write.py:208-221 | the loop appends exactly `WriteFieldsBytes(fs)` and returns the sum of the counts; the first failing field stops it |
| Dates.DaysInMonth | src/djbabel/rekordbox/read.py:57 | every month has 28 to 31 days |
| Dates.MakeDate | src/djbabel/serato/read.py:202 | date(y, m, d) succeeds iff the day exists, and is ValueError otherwise |
| Dates.MonthField | src/djbabel/rekordbox/read.py:57 | a %m field reads as a month from 1 to 12 |
| Dates.DayField | src/djbabel/rekordbox/read.py:57 | a %d field reads as a day from 1 to 31 |
| Dates.StrptimeYear | src/djbabel/rekordbox/read.py:55 | strptime with "%Y" fails only with ValueError |
| Dates.StrptimeYmd | src/djbabel/traktor/read.py:41 | strptime with "%Y/%m/%d" or "%Y-%m-%d" fails only with ValueError |
| Dates.FromIsoFormat | src/djbabel/serato/read.py:202 | fromisoformat fails only with ValueError |
| Dates.Format | src/djbabel/rekordbox/write.py:159 | strftime('%Y-%m-%d') writes ten characters with the separators at 4 and 7 |
| Dates.FromIsoFormatRoundTrip | src/djbabel/serato/read.py:202 | fromisoformat reads back every valid date written in ISO form |
| Dates.StrptimeRoundTrip | src/djbabel/rekordbox/read.py:57 | strptime reads back every valid date written with two-digit month and day, with '-' (Rekordbox) or '/' (Traktor) |
| Dates.StrptimeYearOf | src/djbabel/rekordbox/read.py:54-55 | a four-digit year reads as January 1st of that year |
| Decimal.Show | src/djbabel/rekordbox/write.py:200-218 | str(n) writes at least one digit and digits only |
| Decimal.ValueShow | src/djbabel/rekordbox/write.py:200-218 | the digits str(n) writes have the value n |
| Decimal.ParseShowInt | src/djbabel/rekordbox/read.py:107-127 | int(str(i)) == i for every integer, negative ones included |
| Decimal.RoundHalfEven | src/djbabel/serato/autotags.py:33 | the rounded integer is within 0.5 of the value, and not negative for a value that is not |
| Decimal.RoundWhole | src/djbabel/serato/autotags.py:33 | rounding a whole number gives it back |
| Decimal.FormatFixed | src/djbabel/serato/autotags.py:33 | '{:.{d}f}' writes at least d + 2 characters: an optional sign, digits, a point and d digits |
| Decimal.RoundedClose | src/djbabel/serato/autotags.py:33 | rounding to d decimals moves a value by at most half a unit of the last place |
| Decimal.ParsePointed | src/djbabel/serato/autotags.py:27 | float() reads a signed decimal text as its integer part plus its fraction |
| Decimal.ParseFormatFixed | src/djbabel/serato/autotags.py:27-33 | float() reads back what the fixed-point format writes: the value rounded to d decimals |
| Elements.Attr | src/djbabel/rekordbox/read.py:76-79 | element.get(k) finds an attribute iff the element has it, and returns its text |
| Markers.EncodeTriple | src/djbabel/serato/markers.py:38-45 | serato32encode gives four bytes |
| Markers.Serato32Encode | src/djbabel/serato/markers.py:38-45 | serato32encode succeeds iff it gets exactly three bytes; the word has a first byte of at most 7 and 7-bit bytes after it |
| Markers.Serato32Decode | src/djbabel/serato/markers.py:48-54 | serato32decode succeeds iff it gets exactly four bytes, and gives three |
| Markers.DecodeEncode32 | src/djbabel/serato/markers.py:38-54 | serato32decode(serato32encode(x)) == x for every three bytes |
| Markers.EncodeDecode32 | src/djbabel/serato/markers.py:38-54 | serato32encode(serato32decode(q)) == q exactly for the words encode can produce |
| Markers.EntryTypeOf | src/djbabel/serato/markers.py:32-35 | EntryType(v) succeeds iff v is 0, 1 or 3, and the member has value v |
| Markers.EntryTypeRoundTrip | src/djbabel/serato/markers.py:32-35 | EntryType(int(t)) == t |
| Markers.Position | src/djbabel/serato/markers.py:93-94 | a decoded position is below 2^24 |
| Markers.FieldLoad | src/djbabel/serato/markers.py:81-108 | one round of load's loop gives a value of the shape field i has |
| Markers.FieldsLoad | src/djbabel/serato/markers.py:81-108 | the loop gives one value per remaining field, each what its round gives |
| Markers.LoadEntrySpec | src/djbabel/serato/markers.py:74-110 | Entry.load succeeds iff the record passes the asserts and EntryType (both flags 00 or 7F, a known type), and then gives the entry its fields describe |
| Markers.EntryLoad | src/djbabel/serato/markers.py:74-110 | the loop over FIELDS returns exactly `LoadEntry` |
| Markers.PositionWord | src/djbabel/serato/markers.py:126 | a set position is written as four bytes |
| Markers.EntryDump | src/djbabel/serato/markers.py:112-135 | the loop over FIELDS returns exactly `DumpEntry` |
| Markers.DumpUnsetFails | src/djbabel/serato/markers.py:122-135 | as written, dump raises struct.error for every entry with an unset position |
| Markers.DumpIsRecord | src/djbabel/serato/markers.py:112-135 | with unset positions written as 7F 7F 7F 7F, every well-formed entry dumps as its 22-byte record |
| Markers.PositionRoundTrip | src/djbabel/serato/markers.py:93-94 | a set position survives dump and load modulo 2^24 |
| Markers.LoadDumpEntry | src/djbabel/serato/markers.py:74-135 | load(dump(e)) == e for every well-formed entry, with the corrected dump |
| Markers.LoadColor | src/djbabel/serato/markers.py:138-140 | Color.load succeeds iff it gets at least four bytes, and decodes the first four |
| Markers.LoadDumpColor | src/djbabel/serato/markers.py:138-140 | a colour record reads back as itself |
| Markers.ParseMarkers | src/djbabel/serato/markers.py:143-155 | the generator drained into a list returns exactly `Parse` |
| Markers.ReadRecords | src/djbabel/serato/markers.py:148-155 | the loop reads n 22-byte records, each asserted complete and loaded, then the colour from what is left, as `Records` specifies |
| Markers.ReadRecord | src/djbabel/serato/markers.py:149-153 | one turn of the loop either ends it with the error `Records` gives or appends the record it loads |
| Markers.Dump | src/djbabel/serato/markers.py:158-164 | dump opens with 02 05 and a four-byte count |
| Markers.DumpMarkers | src/djbabel/serato/markers.py:158-164 | the loop growing `data` returns exactly `Dump` |
| Markers.EntryDumped | src/djbabel/serato/markers.py:112-135 | the fixed dump of an entry is a 22-byte record that loads as the entry |
| Markers.ParseDump | src/djbabel/serato/markers.py:143-164 | parse(dump(t)) == t for every table of well-formed entries followed by a colour record, with the fixed dump |
| Markers.Parse | src/djbabel/serato/markers.py:143-155 | definition of parse: struct.error below two bytes, AssertionError unless the version is 02 05, then the '>I' count, that many 22-byte entries and the colour record from the rest; ParseMarkers computes it and ParseDump reads dump back through it |
| Markers2.EntryTypeOf | src/djbabel/serato/markers2.py:179-185 | a known class is selected iff its NAME is the entry name; UnknownEntry iff no NAME matches |
| Markers2.EntryTypeOfName | src/djbabel/serato/markers2.py:179-185 | every known class is found under its own NAME |
| Markers2.GetEntryType | src/djbabel/serato/markers2.py:179-185 | the loop over the classes returns exactly `EntryTypeOf` |
| Markers2.NameField | src/djbabel/serato/markers2.py:84-87 | the name is the UTF-8 text before the only NUL, which must be last |
| Markers2.LoadBpmLock | src/djbabel/serato/markers2.py:46-47 | BpmLockEntry.load succeeds iff it gets one byte, and reads it as a bool |
| Markers2.LoadColor | src/djbabel/serato/markers2.py:61-62 | ColorEntry.load succeeds iff it gets four bytes: a field byte and the RGB colour |
| Markers2.LoadCue | src/djbabel/serato/markers2.py:81-88 | a cue is 12 fixed bytes, then the name and one NUL |
| Markers2.LoadLoop | src/djbabel/serato/markers2.py:116-123 | a loop is 20 fixed bytes, then the name and one NUL |
| Markers2.ActionOf | src/djbabel/serato/markers2.py:158-171 | a jump action holds two doubles and a censor three; other types are skipped |
| Markers2.FlipActions | src/djbabel/serato/markers2.py:156-171 | the actions loop reads within the action bytes |
| Markers2.FlipActionsCount | src/djbabel/serato/markers2.py:156-171 | no more actions are kept than the header announces |
| Markers2.ReadFlipActions | src/djbabel/serato/markers2.py:156-171 | the loop over the action bytes returns exactly `FlipActions` |
| Markers2.LoadFlip | src/djbabel/serato/markers2.py:150-173 | a flip has a 9-byte header and at most the announced number of actions |
| Markers2.FlipLoad | src/djbabel/serato/markers2.py:150-173 | the method returns exactly `LoadFlip` |
| Markers2.LoadEntry | src/djbabel/serato/markers2.py:206 | the entry loaded has the class its name selected |
| Markers2.CueFixed | src/djbabel/serato/markers2.py:90-96 | the fixed part of a cue packs to 12 bytes |
| Markers2.LoopFixed | src/djbabel/serato/markers2.py:125-131 | the fixed part of a loop packs to 20 bytes |
| Markers2.DumpEntry | src/djbabel/serato/markers2.py:36-176 | dump raises NotImplementedError iff the entry is a flip |
| Markers2.NameFieldWritten | src/djbabel/serato/markers2.py:84-96 | a name written with its NUL reads back as the name |
| Markers2.CueFixedOf | src/djbabel/serato/markers2.py:81-96 | any twelve bytes are the packed header of the cue they unpack to |
| Markers2.LoopFixedOf | src/djbabel/serato/markers2.py:116-131 | twenty bytes are the packed header of the loop they unpack to iff the locked byte is 0 or 1 |
| Markers2.LoadDump | src/djbabel/serato/markers2.py:28-176 | load(dump(e)) == e for every entry dump accepts |
| Markers2.DumpLoadCue | src/djbabel/serato/markers2.py:81-96 | dump(load(d)) == d for every cue payload load accepts |
| Markers2.DumpLoadLoop | src/djbabel/serato/markers2.py:116-131 | dump(load(d)) == d for a loop payload iff its locked byte is 0 or 1 |
| Markers2.DumpLoadColor | src/djbabel/serato/markers2.py:61-65 | dump(load(d)) == d for every colour payload |
| Markers2.DumpLoadBpmLock | src/djbabel/serato/markers2.py:46-50 | dump(load(d)) == d for a BPM lock payload iff its byte is 0 or 1 |
| Markers2.Markers2Text | src/djbabel/serato/markers2.py:192 | the base64 text runs to the first NUL after the version, without newlines; ValueError when no NUL follows |
| Markers2.ParseMarkers2 | src/djbabel/serato/markers2.py:187-207 | the loop over a BytesIO cursor returns exactly `Parse` |
| Markers2.NextEntry | src/djbabel/serato/markers2.py:199-206 | one round either fails as `Entries` does, ends at the empty name, or yields the entry `Entries` puts first |
| Markers2.Parse | src/djbabel/serato/markers2.py:187-207 | definition of parse: the 01 01 version, the base64 text up to the NUL with its padding restored and decoded, a second 01 01 version, then named entries until the empty name; ParseMarkers2 computes it and SeratoDump.Markers2RoundTrip reads the dump back through it |
| Normalize.MsToS | src/djbabel/utils.py:94-97 | the seconds are the milliseconds divided by 1000 |
| Normalize.SToMs | src/djbabel/utils.py:99-102 | the milliseconds are the seconds times 1000 |
| Normalize.MsSRoundTrip | src/djbabel/utils.py:94-102 | ms_to_s and s_to_ms undo each other |
| Normalize.ToInt | src/djbabel/utils.py:107-111 | to_int never gives a negative number, and gives 0 for None or a non-numeric text |
| Normalize.ToIntShow | src/djbabel/utils.py:107-111 | to_int reads back the decimal text of every natural number |
| Normalize.ToFloat | src/djbabel/utils.py:113-124 | to_float keeps None and passes any text to float(), with its error: the `isnumeric` test, never called, is always true |
| Normalize.LeadingBase64 | src/djbabel/utils.py:127-137 | the result is the longest prefix made of base64 characters |
| Normalize.LeadingBase64Append | src/djbabel/utils.py:127-137 | base64 text followed by a non-base64 character is cut exactly there |
| Normalize.Get | src/djbabel/rekordbox/utils.py:70-76 | d[k] finds a value iff some item has key k, and it is the value of the first such item; KeyError otherwise |
| Normalize.InverseDict | src/djbabel/utils.py:140-141 | every value of d is a key of the inverse |
| Normalize.InverseDictLast | src/djbabel/utils.py:140-141 | when values repeat, the inverse keeps the key of the last item holding the value |
| Normalize.InverseDictPair | src/djbabel/utils.py:140-141 | the key the inverse gives for v is a key d maps to v |
| Normalize.InverseDictGet | src/djbabel/utils.py:140-141 | without repeated keys, looking up the inverse's key in d gives the value back |
| Normalize.LastIndexOf | src/djbabel/utils.py:48 | the index of the last occurrence, or -1 iff there is none |
| Normalize.Suffix | src/djbabel/utils.py:48 | a suffix is empty or starts with '.' |
| Normalize.AformatFromPath | src/djbabel/utils.py:47-56 | an unsupported suffix is a ValueError |
| Normalize.SuffixOfName | src/djbabel/utils.py:48 | the suffix of a name made of a dot-free stem and an extension is the extension |
| Normalize.AformatOfFile | src/djbabel/utils.py:47-56 | a file's format is the one its extension names, in any letter case; .m4a, .aac and .mp4 are M4A; any other extension is ValueError |
| Normalize.AformatOfSuffix | src/djbabel/utils.py:47-56 | the format is found iff the lower-cased suffix is one of the six extensions |
| Normalize.ClosestIsFirstMinimum | src/djbabel/utils.py:145-158 | the colour chosen is of minimal distance, and no colour before it in the palette is as close |
| Normalize.ClosestOfPalette | src/djbabel/utils.py:145-158 | under a distance by which every palette colour is strictly nearer itself than any other palette colour, a palette colour is mapped to itself |
| Normalize.ClosestColorPerceptual | src/djbabel/utils.py:145-158 | the loop with its running minimum returns exactly `Closest` |
| Normalize.Closest | src/djbabel/utils.py:145-158 | definition of closest_color_perceptual: the first palette colour of minimal distance to the target; ClosestIsFirstMinimum and ClosestOfPalette state it |
| Normalize.Run | src/djbabel/utils.py:166 | a run is a maximal stretch of characters of one class |
| Normalize.VersionGroups | src/djbabel/utils.py:166-167 | the groups the pattern matches are non-empty runs of digits |
| Normalize.VersionNumbers | src/djbabel/utils.py:171 | the version has three numbers |
| Normalize.EncoderNameVersionShape | src/djbabel/utils.py:162-174 | without a match the name is the whole text and the version empty; with one the name is a run of letters opening the text and the version has three numbers |
| Normalize.EncoderNameVersionPlain | src/djbabel/utils.py:162-174 | "name spaces x.y.z rest" gives the name and [x, y, z], as for 'LAME 3.100.0+' and 'Lavf58.20.100' |
| Normalize.Mp3EncoderNameVersion | src/djbabel/utils.py:162-174 | definition of mp3_encoder_name_version: the regular expression's match, as the leading letters and the three digit groups after optional whitespace, or the whole text and no version; EncoderNameVersionShape and EncoderNameVersionPlain state it |
| Normalize.Mp3BeatgridOffset | src/djbabel/utils.py:176-201 | the offset is 0 or -0.016, and 0 without an encoder |
| Normalize.Mp3OffsetOfVersion | src/djbabel/utils.py:176-201 | a LAME x.y.z encoder needs no shift exactly from 3.100.0 on; any other x.y.z encoder gets -0.016 |
| Normalize.LameThreshold | src/djbabel/utils.py:183 | [x, y, z] >= [3, 100, 0] iff x > 3, or x = 3 and y >= 100 |
| Normalize.BeatgridOffset | src/djbabel/utils.py:204-232 | every target other than Rekordbox gets 0, and so does a FLAC file; Rekordbox gets 0.046 for M4A and the encoder's offset for MP3; the offset is always 0, 0.046 or the MP3 shift |
| Normalize.MarkerOffset | src/djbabel/utils.py:234-240 | markers shift like the beat grid |
| Normalize.ShiftMarkers | src/djbabel/utils.py:256-259 | every marker's start, and end where there is one, moves by d; nothing else changes |
| Normalize.ShiftGrid | src/djbabel/utils.py:262-264 | every beat-grid position moves by d; nothing else changes |
| Normalize.ShiftEachMarker | src/djbabel/utils.py:255-259 | the first loop of adjust_time returns exactly `ShiftMarkers` |
| Normalize.ShiftEachPoint | src/djbabel/utils.py:261-264 | the second loop returns exactly `ShiftGrid` |
| Normalize.AdjustTime | src/djbabel/utils.py:243-265 | the track with markers and grid moved by offset_sign times their offsets |
| Normalize.AdjustTimeToTarget | src/djbabel/utils.py:268-271 | adjust_time with sign 1 |
| Normalize.NormalizeTime | src/djbabel/utils.py:273-278 | adjust_time with sign -1 |
| Normalize.MoveTimesBack | src/djbabel/utils.py:243-265 | moving by d and then by -d gives the track back |
| Normalize.AdjustedOffsets | src/djbabel/utils.py:204-265 | adjusting changes neither format nor encoder, so the offsets of the result are those of the input |
| Normalize.AdjustNormalizeRoundTrip | src/djbabel/utils.py:268-278 | adjust_time_to_target undoes normalize_time, and the other way round, for every track and target the offsets are defined for |
| Normalize.CuesMembers | src/djbabel/utils.py:301-303 | the cue filter keeps exactly the CUE and CUE_LOAD markers |
| Normalize.LoopsMembers | src/djbabel/utils.py:304 | the loop filter keeps exactly the LOOP markers |
| Normalize.Reindex | src/djbabel/utils.py:310-311 | every loop's index moves up by the base; nothing else changes |
| Normalize.AppendReindexed | src/djbabel/utils.py:309-311 | the loop returns the cues followed by the reindexed loops |
| Normalize.ReindexSdjproLoops | src/djbabel/utils.py:281-314 | the method returns exactly `Reindexed` |
| Normalize.Reindexed | src/djbabel/utils.py:281-314 | definition of what reindex_sdjpro_loops returns: from a Serato source the cues, then the loops with their indices moved up by the loop base; from any other source the markers unchanged; SeratoReindexedLayout and SeratoLoopPads state the Serato case |
| Normalize.SeratoReindexedLayout | src/djbabel/utils.py:298-311 | from a Serato source the result holds as many markers as there are cues and loops together, the cues come first and unchanged, and no fade marker is left |
| Normalize.SeratoLoopPads | src/djbabel/utils.py:305-308 | Serato loops 0..l-1 land on pads 8-l..7 when cues and loops fit in eight, else right after the c cues |
| Overview.RowsLayout | src/djbabel/serato/overview.py:29-31 | the rows exist iff the rest is a whole number of 16-byte rows, and row j is the j-th slice |
| Overview.ParseLayout | src/djbabel/serato/overview.py:24-31 | parse succeeds iff a 01 05 header is followed by whole rows, and returns them in order, (len - 2) / 16 of them |
| Overview.ParseOverview | src/djbabel/serato/overview.py:24-31 | the loop reading 16 bytes until the stream is exhausted returns exactly `Parse` |
| Overview.Parse | src/djbabel/serato/overview.py:24-31 | definition of parse: struct.error below two bytes, AssertionError unless the version is 01 05, then the 16-byte rows to the end; ParseLayout states the result |
| Paths.Components | src/djbabel/utils.py:90-92 | pathlib keeps only non-empty parts other than "." |
| Paths.Anchor | src/djbabel/utils.py:90-92 | a text has no anchor iff it does not start with '/' |
| Paths.Parse | src/djbabel/utils.py:90-92 | a parsed path is well formed, and absolute iff the text starts with '/' |
| Paths.RelativeTo | src/djbabel/utils.py:91 | relative_to succeeds iff p lies under q, with the parts of p after those of q; ValueError otherwise |
| Paths.ParseStr | src/djbabel/utils.py:90-92 | parsing the text of a well-formed POSIX path, with anchor "", "/" or "//", gives the path back |
| RekordboxInit.AformatMapTotal | src/djbabel/rekordbox/__init__.py:70-75 | the older writer's format table covers every format, with pairwise different texts |
| RekordboxInit.Shl | src/djbabel/rekordbox/__init__.py:131 | a << k is a times 2^k, and a negative count is ValueError |
| RekordboxInit.Hex | src/djbabel/rekordbox/__init__.py:131 | hex(n) starts with "0x", behind a '-' for a negative n |
| RekordboxInit.RbAttrColorAsWritten | src/djbabel/rekordbox/__init__.py:124-138 | as written, the shifts bind after the additions; the result is ValueError only for a negative shift count from a Rekordbox track |
| RekordboxInit.HexNeverMatches | src/djbabel/rekordbox/__init__.py:131-133 | no text hex().upper() produces is one of the eight cases |
| RekordboxInit.RbAttrColorAsWrittenLemon | src/djbabel/rekordbox/__init__.py:124-138 | as written, every colour from every program is written as Lemon, or is an error |
| RekordboxInit.RbAttrColorAsWrittenLosesRed | src/djbabel/rekordbox/__init__.py:124-138 | Rekordbox red is written as Lemon here, and as itself by the writer of rekordbox/write.py |
| RekordboxInit.RbReindexed | src/djbabel/rekordbox/__init__.py:176-209 | from a program other than Serato DJ Pro no markers are kept |
| RekordboxInit.RbReindexLoops | src/djbabel/rekordbox/__init__.py:176-209 | the loop appending the loops one by one returns exactly `RbReindexed` |
| RekordboxInit.RbReindexedSerato | src/djbabel/rekordbox/__init__.py:194-206 | from Serato DJ Pro the markers are laid out as reindex_sdjpro_loops lays them out |
| RekordboxInit.RbReindexedDropsOthers | src/djbabel/rekordbox/__init__.py:207-209 | from any other program every marker is dropped, where reindex_sdjpro_loops keeps them |
| RekordboxInit.RealMod | src/djbabel/rekordbox/__init__.py:245 | Python's float % with a positive modulus lies in [0, b) |
| RekordboxInit.Trunc | src/djbabel/rekordbox/__init__.py:246 | int() truncates toward zero |
| RekordboxInit.BattitoAfter | src/djbabel/rekordbox/__init__.py:241-245 | after at least one step the running beat lies in [0, battiti) |
| RekordboxInit.RbBattitoAsWritten | src/djbabel/rekordbox/__init__.py:232-246 | as written, the beat number is 1 before any step and lies in 0 .. battiti - 1 after one; it fails where the loop reads past the list |
| RekordboxInit.RbBattitoAsWrittenLoop | src/djbabel/rekordbox/__init__.py:241-246 | the loop returns exactly `RbBattitoAsWritten` |
| RekordboxInit.RbBattitoAsWrittenZero | src/djbabel/rekordbox/__init__.py:232-246 | three beats of 4/4 from the start of the bar give 0 here, where the writer of rekordbox/write.py gives 4 |
| RekordboxRead.ToDate | src/djbabel/rekordbox/read.py:51-57 | None stays None; four characters are read with "%Y", anything else with "%Y-%m-%d"; failures are ValueError |
| RekordboxRead.GetTagAttr | src/djbabel/rekordbox/read.py:76-79 | the attribute named after the field, with an empty text read as None |
| RekordboxRead.Unhexlify | src/djbabel/rekordbox/read.py:85 | two hexadecimal digits per byte; an odd length or a non-digit is an error |
| RekordboxRead.GetColor | src/djbabel/rekordbox/read.py:82-87 | "0x" and six hexadecimal digits are the colour bytes; any other text, or none, is no colour; six non-digits are an error |
| RekordboxRead.GetColorOfHex | src/djbabel/rekordbox/read.py:82-87 | every colour written in hexadecimal reads back |
| RekordboxRead.GetTempo | src/djbabel/rekordbox/read.py:92-103 | tempo and start are read with to_float; the metre must have one '/' and is kept only when both sides are digits |
| RekordboxRead.GetBeatgrid | src/djbabel/rekordbox/read.py:90-104 | one point per TEMPO element |
| RekordboxRead.GetBeatgridEach | src/djbabel/rekordbox/read.py:90-104 | each point is the reading of its element, and the grid fails iff one element does |
| RekordboxRead.GetBeatgridLoop | src/djbabel/rekordbox/read.py:90-104 | the appending loop returns exactly `GetBeatgrid` |
| RekordboxRead.TempoReadBack | src/djbabel/rekordbox/write.py:222-229 | a TEMPO element rb_tempo writes reads back as its point |
| RekordboxRead.GetMark | src/djbabel/rekordbox/read.py:109-125 | name, type and start are required, the type must be a known code, and an empty end is no end |
| RekordboxRead.GetMarkers | src/djbabel/rekordbox/read.py:107-127 | one marker per POSITION_MARK element |
| RekordboxRead.GetMarkersEach | src/djbabel/rekordbox/read.py:107-127 | each marker is the reading of its element, and the list fails iff one element does |
| RekordboxRead.GetMarkersLoop | src/djbabel/rekordbox/read.py:107-127 | the appending loop returns exactly `GetMarkers` |
| RekordboxRead.PositionMarkReadBack | src/djbabel/rekordbox/write.py:200-218 | a POSITION_MARK rb_position_mark writes reads back as its marker, with the colour snapped to the palette colour nearest to Rekordbox's rendering and the lock flag cleared |
| RekordboxRead.GetTonality | src/djbabel/rekordbox/read.py:130-141 | no key text gives no key |
| RekordboxRead.ClassicKey | src/djbabel/rekordbox/read.py:134-141 | an abbreviation is mapped back to a classic name, any other text is kept, None stays None |
| RekordboxRead.ClassicKeyExample | src/djbabel/rekordbox/read.py:134-138 | "Bb" is read as "Bbmaj" |
| RekordboxRead.ClassicKeyDuplicate | src/djbabel/rekordbox/read.py:134-138 | "Cm" abbreviates both "Cmin" and "Cmi"; the inverse table keeps the later one |
| RekordboxRead.TonalityUnknownReadBack | src/djbabel/rekordbox/read.py:139-141 | a key text that is neither a classic name nor an abbreviation is written and read back as it is |
| RekordboxRead.PlaylistKeyType | src/djbabel/rekordbox/read.py:188-196 | "0" is by track id, "1" by location, anything else ValueError |
| RekordboxRead.FirstWithKey | src/djbabel/rekordbox/read.py:211-217 | the first TRACK from a position on whose key matches, and none before it matches |
| RekordboxRead.FindCollectionEntry | src/djbabel/rekordbox/read.py:206-218 | a missing key finds nothing; otherwise the first TRACK whose key matches |
| RekordboxRead.FindCollectionEntryLoop | src/djbabel/rekordbox/read.py:206-218 | the loop that breaks at the first match returns exactly `FindCollectionEntry` |
| RekordboxRead.GetElementKey | src/djbabel/rekordbox/read.py:199-204 | definition of get_element_key: the TrackID attribute for a track-id key type, the Location attribute for a location key type; FirstWithKey and FindCollectionEntry search by it |
| RekordboxRead.PlaylistTracks | src/djbabel/rekordbox/read.py:256-262 | no more tracks than keys |
| RekordboxRead.ReadPlaylistTracks | src/djbabel/rekordbox/read.py:256-262 | the loop returns exactly `PlaylistTracks` |
| RekordboxRead.PlaylistTracksAllFound | src/djbabel/rekordbox/read.py:264-266 | the playlist has as many tracks as keys iff every key is found |
| RekordboxRead.WrittenTag | src/djbabel/rekordbox/read.py:76-79 | get_tag_attr gives back the text rb_attr wrote for the field |
| RekordboxRead.StrFieldReadBack | src/djbabel/rekordbox/read.py:152-165 | a text field reads back as written, except that an empty text becomes None |
| RekordboxRead.IntFieldReadBack | src/djbabel/rekordbox/read.py:159-166 | an integer field reads back as written when it is not negative; a negative or missing one reads as 0 |
| RekordboxRead.FloatFieldReadBack | src/djbabel/rekordbox/read.py:170-177 | a float field reads back as written; a missing one reads as 0.0 |
| RekordboxRead.RatingReadBack | src/djbabel/rekordbox/read.py:166 | the rating rb_attr writes reads back as 51 k for a star count k in 0..5 and as 0 for anything else, so a byte rating above 5 does not survive |
| RekordboxRead.BitRateReadBack | src/djbabel/rekordbox/read.py:169 | the bit rate reads back rounded down to whole kilobits; a missing or negative rate reads as 0 |
| RekordboxRead.ReleaseDateReadBack | src/djbabel/rekordbox/read.py:161 | a four-digit release year reads back as January 1st of that year |
| RekordboxRead.ReleaseDateMissing | src/djbabel/rekordbox/write.py:139 | a missing release date is written as "0", which to_date rejects with ValueError |
| RekordboxRead.DateAddedReadBack | src/djbabel/rekordbox/read.py:184 | the date added reads back as the track's date, or as today's when it had none |
| RekordboxRead.ColorReadBack | src/djbabel/rekordbox/read.py:176 | the colour reads back as the track's colour when it is one of the eight Rekordbox colours of a Rekordbox track, and as Lemon otherwise |
| RekordboxRead.TonalityReadBack | src/djbabel/rekordbox/read.py:163 | the key reads back as what the classic-key table makes of the written abbreviation |
| RekordboxUtils.CapitalizeAll | src/djbabel/rekordbox/utils.py:76 | each word capitalised, one per word |
| RekordboxUtils.RbAttrNameMapped | src/djbabel/rekordbox/utils.py:70-74 | every name in the table is mapped as the table says |
| RekordboxUtils.FieldNamesDistinct | src/djbabel/rekordbox/utils.py:17-49 | the table has no repeated key |
| RekordboxUtils.RbAttrNameCamel | src/djbabel/rekordbox/utils.py:75-76 | a name outside the table becomes CamelCase: no '_' is left, and each '_' removed shortens it by one |
| RekordboxUtils.RbAttrNameWords | src/djbabel/rekordbox/utils.py:75-76 | a name built from '_'-free words is the words capitalised and run together |
| RekordboxUtils.RbAttrNameExample | src/djbabel/rekordbox/utils.py:70-76 | average_bpm becomes AverageBpm |
| RekordboxUtils.RbAttrName | src/djbabel/rekordbox/utils.py:70-76 | definition of rb_attr_name: the name the table gives, or the CamelCase of the field name; RbAttrNameMapped, RbAttrNameCamel and RbAttrNameWords state it |
| RekordboxUtils.MarkerTypeInjective | src/djbabel/rekordbox/utils.py:52-58 | every marker kind has a code, no two share one, and the inverse table gives each code's kind back |
| RekordboxUtils.MarkerTypeCodes | src/djbabel/rekordbox/utils.py:52-58 | every code in the inverse table is its kind's code |
| RekordboxUtils.AformatMapTotal | src/djbabel/rekordbox/utils.py:61-66 | the format table covers every format with pairwise different texts |
| RekordboxWrite.RbAttrRatingAsWritten | src/djbabel/rekordbox/write.py:105-109 | as written, the rating is looked up as a star count 0..5; anything else is "0" |
| RekordboxWrite.RbAttrRating | src/djbabel/rekordbox/write.py:105-109 | a byte rating (0, 51, ..., 255) is written as its decimal text, anything else as "0" |
| RekordboxWrite.RatingAsWrittenValue | src/djbabel/rekordbox/write.py:105-109 | the as-written rating text is the byte value 51 k of a star count k in 0..5, and 0 for anything else |
| RekordboxWrite.RatingTable | src/djbabel/rekordbox/write.py:53-60 | the table maps k stars to the text of the byte value 51 k |
| RekordboxWrite.RatingAsWrittenLoses | src/djbabel/rekordbox/write.py:105-109 | the five-star rating 255 is written as "0" as written, and as "255" as intended |
| RekordboxWrite.RbAttrTonality | src/djbabel/rekordbox/write.py:97-103 | None stays None, any text gives a text |
| RekordboxWrite.RbAttrTonalityOf | src/djbabel/rekordbox/write.py:97-103 | a key text in the abbreviation table is written as its first abbreviation, any other text as itself |
| RekordboxWrite.Format02x | src/djbabel/rekordbox/write.py:118 | f"{n:02x}" writes at least two digits |
| RekordboxWrite.Format02xByte | src/djbabel/rekordbox/write.py:118 | a byte is written as its two hexadecimal digits |
| RekordboxWrite.RbAttrColor | src/djbabel/rekordbox/write.py:111-125 | a Rekordbox track's colour is written as itself when it is one of the eight Rekordbox colours, any other colour or program as Lemon; a missing colour from Rekordbox is a TypeError |
| RekordboxWrite.RbAttrColorExamples | src/djbabel/rekordbox/write.py:111-125 | red from Serato is Lemon; orange from Rekordbox is 0xFFA500 |
| RekordboxWrite.Ceil | src/djbabel/rekordbox/write.py:135 | math.ceil gives the least integer not below x |
| RekordboxWrite.TruncDiv1000 | src/djbabel/rekordbox/write.py:137 | int(v / 1000) rounds toward zero |
| RekordboxWrite.RbAttr | src/djbabel/rekordbox/write.py:128-161 | rb_attr fails iff the field is a missing Rekordbox colour, and otherwise gives the field's Rekordbox name and value |
| RekordboxWrite.AttrValue | src/djbabel/rekordbox/write.py:133-159 | the value written for a field that has an attribute fails only for a missing Rekordbox colour; the rating goes through the star lookup as written |
| RekordboxWrite.RbMarkerColor | src/djbabel/rekordbox/write.py:165-198 | every palette colour gets a valid RGB value |
| RekordboxWrite.RbMarkerColorMerges | src/djbabel/rekordbox/write.py:165-198 | two palette colours are rendered alike iff they are equal or one of the four pairs Rekordbox merges |
| RekordboxWrite.MarkerCode | src/djbabel/rekordbox/write.py:203 | every marker kind has its code in the table |
| RekordboxWrite.PositionMarkAttrs | src/djbabel/rekordbox/write.py:200-218 | name, type, start, end ("" without one) and number, and the colour components only when the marker has a colour |
| RekordboxWrite.TempoAttrs | src/djbabel/rekordbox/write.py:222-229 | start, tempo, the metre as "beats/unit" and the beat in the bar |
| RekordboxWrite.SliceLen | src/djbabel/rekordbox/write.py:242 | bpms[:idx] holds idx items, at most the list's length, counting from the end for a negative idx |
| RekordboxWrite.PyMod | src/djbabel/rekordbox/write.py:246 | Python's %: the remainder has the sign of the modulus |
| RekordboxWrite.RbBattito | src/djbabel/rekordbox/write.py:231-246 | fails iff the loop reads past the list or the bar is empty; otherwise one plus the rounded beat count modulo the bar |
| RekordboxWrite.RbBattitoLoop | src/djbabel/rekordbox/write.py:241-246 | the loop summing beat counts returns exactly `RbBattito` |
| RekordboxWrite.RbBattitoFirst | src/djbabel/rekordbox/write.py:231-246 | the first change always starts a bar |
| RekordboxWrite.RbBattitoExamples | src/djbabel/rekordbox/write.py:231-246 | 61 beats of 4/4 before the second point give beat 2, and 60 + 121 before the third give beat 2 |
| SeratoDump.WriteEntry | src/djbabel/serato/write.py:147-154 | one pass of the loop writes the entry's record: its NAME, a NUL, the '>I' length and the payload |
| SeratoDump.WriteRecords | src/djbabel/serato/write.py:146-154 | the loop writes the records one after the other, or stops at the first error |
| SeratoDump.WriteTag | src/djbabel/serato/write.py:156-169 | the version, then the payload and its NUL in base64 with the padding removed and wrapped, then NUL padding up to 468 bytes of text |
| SeratoDump.DumpSeratoMarkers2 | src/djbabel/serato/write.py:136-169 | the method returns exactly the tag as written |
| SeratoDump.NameNoNul | src/djbabel/serato/write.py:148-149 | every class NAME is non-empty, NUL-free UTF-8 |
| SeratoDump.PayloadNonEmpty | src/djbabel/serato/markers2.py:203 | every entry with a NAME dumps at least one byte, so its length is never the zero the reader rejects |
| SeratoDump.RecordsRead | src/djbabel/serato/markers2.py:198-207 | records of dumpable entries, followed by nothing or by a NUL, read back as those entries |
| SeratoDump.TagPayload | src/djbabel/serato/markers2.py:192-196 | the corrected tag decodes back to the payload, followed by its NUL unless remove_b64padding took it |
| SeratoDump.Markers2RoundTrip | src/djbabel/serato/write.py:136-169 | parse(dump(entries)) == entries for every dumpable list, with the text always followed by a NUL |
| SeratoDump.Markers2AsWrittenUnreadable | src/djbabel/serato/write.py:162-169 | as written, a text of 468 bytes or more is followed by no NUL and the reader raises ValueError; records of 349 bytes or more always get there; shorter ones give the corrected tag |
| SeratoDump.DumpMarkers2 | src/djbabel/serato/write.py:136-169 | definition of the corrected dump_serato_markers_v2: the version, the stripped and wrapped base64 text of the records, then NUL padding up to 468 bytes or a single NUL; Markers2RoundTrip reads it back |
| SeratoDump.DumpSeratoBeatgrid | src/djbabel/serato/write.py:318-348 | the loop writing the items one by one returns exactly the tag as written |
| SeratoDump.ItemsBytesOk | src/djbabel/serato/write.py:331-346 | the items from i on are written iff each fits its place |
| SeratoDump.DumpBeatgridOk | src/djbabel/serato/write.py:318-346 | the writer accepts a list iff it is in the order the tag stores (markers, terminal last, then the footer) and every count fits its field |
| SeratoDump.BeatgridRoundTrip | src/djbabel/serato/write.py:318-346 | parse(dump(items)) == items for every list the writer accepts, without the newlines |
| SeratoDump.WrappedMarker8 | src/djbabel/serato/write.py:119-129 | a tag of nine markers or more, passed through insert_newlines, still parses, but the third byte of marker 8's position is the '\n' put at byte 72 |
| SeratoDump.BeatgridAsWrittenCorrupt | src/djbabel/serato/write.py:348 | as written, a list of ten items or more does not read back as itself |
| SeratoDump.DumpBeatgrid | src/djbabel/serato/write.py:318-346 | definition of the tag before insert_newlines: version 01 00, the '>I' count len(bg) - 1 (struct.error for an empty list), then each item's bytes; DumpBeatgridOk says when it succeeds and BeatgridRoundTrip reads it back |
| SeratoDump.EnvelopePrefix | src/djbabel/serato/write.py:364 | the decoded prefix is 42 bytes: the MIME type, two NULs, the tag marker and a NUL |
| SeratoDump.EnvelopePaddingMinLen | src/djbabel/serato/write.py:352-357 | definition of envelope_padding_min_len: 515 for Markers2 and 0 for every other tag; AddEnvelopeRoundTrip reads back the payload padded to it |
| SeratoDump.MarkerFirstAt | src/djbabel/serato/utils.py:46-47 | the marker and its NUL are found at byte 26 of the decoded envelope and nowhere before |
| SeratoDump.EnvelopeReads | src/djbabel/serato/utils.py:25-51 | the envelope reader gives back the body bytes, less a last byte that the stripped padding loses |
| SeratoDump.KeptPrefix | src/djbabel/serato/utils.py:41-42 | decoding stripped base64 loses at most one byte, at the end |
| SeratoDump.AddEnvelopeRoundTrip | src/djbabel/serato/write.py:360-375 | the corrected envelope reads back as the framed and padded payload, less a possible last byte; the payload itself survives whenever anything follows it |
| SeratoDump.AddEnvelopeAsWrittenLoses | src/djbabel/serato/write.py:366-369 | as written, the bytes read back hold no '=', so a payload holding an '=' byte never comes back |
| SeratoDump.AddEnvelope | src/djbabel/serato/write.py:360-375 | definition of the corrected add_envelope: the prefix and the framed payload, NUL-padded to the minimum length, base64 encoded, wrapped and stripped of '='; the payload itself is not stripped; AddEnvelopeRoundTrip reads it back |
| SeratoDump.AddEnvelopeAsWritten | src/djbabel/serato/write.py:360-375 | definition of add_envelope as written: remove_b64padding is applied to the framed payload as well as to the text; AddEnvelopeAsWrittenLoses shows what that loses |
| SeratoLower.DumpSeratoAnalysis | src/djbabel/serato/write.py:68-71 | the tag bytes are the version numbers, one byte each; a number outside 0..255 is a ValueError |
| SeratoLower.ToSeratoAnalysis | src/djbabel/serato/write.py:55-63 | definition of to_serato_analysis: version 2.1 for MP3 and 0.1.0 for FLAC and M4A; AnalysisReadBack reads the dumped tag back as those versions |
| SeratoLower.AnalysisReadBack | src/djbabel/serato/write.py:55-71 | the Analysis tag written for a track reads back as version 2.1 for MP3 and 0.1 for FLAC and M4A |
| SeratoLower.ToSeratoAutotags | src/djbabel/serato/write.py:75-81 | there is an Autotags value exactly when the track has both an average BPM and a loudness, and it holds them |
| SeratoLower.AutotagsReadBack | src/djbabel/serato/write.py:75-88 | the Autotags tag written for a track reads back as its BPM to two decimals and its gains to three |
| SeratoLower.TrackColor | src/djbabel/serato/write.py:111-114 | the track colour, white when the track has none |
| SeratoLower.Ms | src/djbabel/serato/write.py:100 | a time in seconds becomes the whole number of milliseconds nearest to it |
| SeratoLower.MsExact | src/djbabel/serato/write.py:100 | a time of whole milliseconds survives the conversion to milliseconds and back |
| SeratoLower.ToSeratoV2 | src/djbabel/serato/write.py:95-109 | a cue or loop becomes an entry with its index, name, colour (blue by default) and times in milliseconds, a colour a colour entry, a bool a BPM-lock entry; anything else is a ValueError |
| SeratoLower.MapV2 | src/djbabel/serato/write.py:116 | every value is converted in order, or the conversion fails exactly when one value fails |
| SeratoLower.ToSeratoMarkersV2 | src/djbabel/serato/write.py:92-116 | the colour entry, one entry per marker in order, the BPM-lock entry; it fails exactly when a marker cannot be converted |
| SeratoLower.MarkersV2ReadBack | src/djbabel/serato/read.py:227-242 | reading the Markers2 entries a track was lowered to gives back its markers one for one |
| SeratoLower.MarkersV2RoundTrip | src/djbabel/serato/read.py:227-242 | lowering then reading gives the markers back unchanged when the colour codec round-trips and every time is whole milliseconds |
| SeratoLower.LockedReadBack | src/djbabel/serato/read.py:245-255 | the BPM lock read back from the lowered entries is the track's |
| SeratoLower.ColorReadBack | src/djbabel/serato/read.py:258-267 | the track colour read back from the lowered entries is the track's, white when it had none |
| SeratoLower.MarkersDummies | src/djbabel/serato/write.py:173-177 | six bytes, 00 then 7F for MP3 and FLAC and FF for M4A |
| SeratoLower.EmptySlots | src/djbabel/serato/write.py:229-249 | five empty cue slots, nine empty loop slots and a black colour record |
| SeratoLower.LegacyPlacement | src/djbabel/serato/write.py:186-221 | a cue with index below 5 goes to that slot, a loop with index below 9 to slot 5 plus its index, the colour to slot 14, other cues and loops nowhere; anything else is a ValueError |
| SeratoLower.Store | src/djbabel/serato/write.py:253 | storing into a slot outside the table is an IndexError; otherwise only that slot changes |
| SeratoLower.Placed | src/djbabel/serato/write.py:250-253 | placing the values in turn succeeds exactly when each one can be placed, and keeps the table's length |
| SeratoLower.LoweredMarkers | src/djbabel/serato/write.py:179-255 | nothing for FLAC; otherwise the fifteen-slot table with every value placed |
| SeratoLower.ToSeratoMarkers | src/djbabel/serato/write.py:179-255 | the loop over the markers and the track colour computes the lowered table |
| SeratoLower.PlacedSlot | src/djbabel/serato/write.py:250-253 | each slot holds what the last value written to it put there, or its empty entry |
| SeratoLower.LegacyShape | src/djbabel/serato/write.py:229-255 | the lowered table is fourteen cue and loop slots followed by the track colour |
| SeratoLower.LegacyUntouched | src/djbabel/serato/write.py:229-249 | a slot no marker is written to keeps its empty entry |
| SeratoLower.LegacyDumpAsWrittenFails | src/djbabel/serato/markers.py:122-135 | as written, dumping the lowered table of an MP3 track fails as soon as one cue or loop slot is left empty |
| SeratoLower.PlacementWellFormed | src/djbabel/serato/write.py:186-221 | every entry the lowering writes is one the corrected dump writes and the parser reads back |
| SeratoLower.LegacyRoundTrip | src/djbabel/serato/write.py:258-263 | with the corrected entry dump, the lowered table of an MP3 track parses back to itself |
| SeratoLower.DumpSeratoMarkers | src/djbabel/serato/write.py:258-270 | definition of dump_serato_markers: markers.dump for MP3, the M4A dumper (a parameter) for M4A, empty bytes for FLAC; LegacyDumpAsWrittenFails and LegacyRoundTrip state what the MP3 dump gives |
| SeratoLower.BeatgridFooter | src/djbabel/serato/write.py:291-300 | the footer byte is 116 for MP3, 0 for FLAC and 65 for M4A |
| SeratoLower.BeatsBetween | src/djbabel/serato/write.py:308-309 | the whole number of beats nearest to the tempo times the interval |
| SeratoLower.LoweredGrid | src/djbabel/serato/write.py:303-315 | one non-terminal marker per point but the last, a terminal marker with the last point's tempo, then the footer |
| SeratoLower.ToSeratoBeatgrid | src/djbabel/serato/write.py:303-315 | the loop over consecutive points computes the lowered grid |
| SeratoLower.LoweredGridOrdered | src/djbabel/serato/beatgrid.py:36-53 | the lowered grid has the order the tag parser requires |
| SeratoLower.BeatgridReadBack | src/djbabel/serato/read.py:207-224 | reading the lowered grid back gives one point per point at the same position, the last with its tempo and the others with the tempo of their rounded beat count |
| SeratoLower.BeatgridRoundTrip | src/djbabel/serato/read.py:207-224 | a 4/4 grid whose points lie a whole number of beats apart reads back unchanged |
| SeratoLower.SplitTagName | src/djbabel/serato/write.py:495-504 | a key of one to three ':'-separated parts splits into them, padded with empty strings; more parts are a ValueError |
| SeratoLower.SplitTagNameThree | src/djbabel/serato/write.py:497-498 | three parts without ':' joined by ':' split back into themselves |
| SeratoLower.SplitTagNameTwo | src/djbabel/serato/write.py:499-500 | two parts without ':' split back into themselves and an empty third |
| SeratoLower.GeobDescription | src/djbabel/serato/write.py:507-526 | the MP3 key of every Serato tag splits into the GEOB frame id and the envelope marker text |
| SeratoLower.FreeformKey | src/djbabel/serato/write.py:507-526 | the M4A key of every Serato tag splits into "----", "com.serato.dj" and a name without ':' |
| SeratoLower.HandleExistingTag | src/djbabel/serato/write.py:392-402 | a missing tag, or any tag after a "yes to all", is written; after a "no to all" the writer stops; otherwise the answer decides and a "to all" answer is remembered |
| SeratoLower.StandingAnswer | src/djbabel/serato/write.py:392-402 | after a "to all" answer every later tag is handled without asking, whatever would have been answered |
| SeratoRead.Head | src/djbabel/serato/read.py:68-76 | the first element of a list, or nothing exactly when the list is empty |
| SeratoRead.TrackNumberOf | src/djbabel/serato/read.py:78-89 | a "number/total" tag and a bare number both read as the number |
| SeratoRead.TrackNumber | src/djbabel/serato/read.py:78-89 | definition of track_number: None without a tag, otherwise int() of the text before the first '/', None when that is not an integer; TrackNumberOf states the readings |
| SeratoRead.PlayCountPadding | src/djbabel/serato/read.py:93-96 | the padding brings the base64 text to a multiple of four characters, 'B==' when one character is left over |
| SeratoRead.ParseM4aPlayCount | src/djbabel/serato/read.py:91-99 | the count is the decimal number before the first NUL of the decoded payload; a payload without NUL or digits is a ValueError |
| SeratoRead.CountOf | src/djbabel/serato/read.py:99 | the number before the first NUL, a ValueError when there is no NUL or the text is not a number |
| SeratoRead.PlayCountRoundTrip | src/djbabel/serato/read.py:91-99 | a count stored as base64 of its digits and a NUL reads back as that count |
| SeratoRead.ParseEncoded | src/djbabel/serato/read.py:92-97 | the reader decodes the whole base64 text at the head of the payload |
| SeratoRead.EncodedIsLeading | src/djbabel/utils.py:127-137 | base64 text is all of the leading base64 part when something else follows it |
| SeratoRead.ReleaseDate | src/djbabel/serato/read.py:190-202 | a numeric release date, or numeric year when it is absent, is January 1st of that year; any other release date must be an ISO date; a malformed one is a ValueError |
| SeratoRead.ReleaseDateIso | src/djbabel/serato/read.py:201-202 | a release date in ISO form reads as that date whatever the year says |
| SeratoRead.ReleaseDateYear | src/djbabel/serato/read.py:192-200 | a four-digit year, as release date or as year when the release date is absent, reads as January 1st |
| SeratoRead.ReleaseDateBadYear | src/djbabel/serato/read.py:195-200 | a numeric year of other than four digits cannot be read |
| SeratoRead.Segment | src/djbabel/serato/read.py:214-216 | the tempo between consecutive markers is the first one's beats times 60 over the interval; it fails when the first has no beat count or the interval is zero |
| SeratoRead.Points | src/djbabel/serato/read.py:213-216 | one point per consecutive pair of markers handled |
| SeratoRead.TerminalPoint | src/djbabel/serato/read.py:220 | the last point is the terminal marker with its own tempo; any other item there is an error |
| SeratoRead.FromSerato | src/djbabel/serato/read.py:208-220 | nothing for fewer than two items, otherwise one point per marker |
| SeratoRead.BeatgridFromSerato | src/djbabel/serato/read.py:208-220 | the loop over consecutive markers computes the beatgrid |
| SeratoRead.MarkerOf | src/djbabel/serato/read.py:228-239 | a cue or loop becomes a marker with the same name and index, times in seconds and the palette colour nearest to its colour; a cue is never locked |
| SeratoRead.GetMarkers | src/djbabel/serato/read.py:227-242 | the cues and loops in tag order, each lifted, all other entries dropped |
| SeratoRead.GetMarkersFilter | src/djbabel/serato/read.py:241-242 | exactly the cue and loop entries become markers, one each, in order |
| SeratoRead.LockedFirst | src/djbabel/serato/read.py:245-255 | the first BPM-lock entry decides whether the track is locked |
| SeratoRead.LockedNone | src/djbabel/serato/read.py:255 | without a BPM-lock entry the track is not locked |
| SeratoRead.Locked | src/djbabel/serato/read.py:245-255 | definition of locked: the flag of the first BPM-lock entry, false without one; LockedFirst and LockedNone state it |
| SeratoRead.ColorFirst | src/djbabel/serato/read.py:258-267 | the first colour entry gives the track colour |
| SeratoRead.ColorNone | src/djbabel/serato/read.py:266-267 | without a colour entry there is no track colour |
| SeratoRead.Color | src/djbabel/serato/read.py:258-267 | definition of color: the decoded colour of the first colour entry, None without one; ColorFirst and ColorNone state it |
| SeratoText.InsertNewlines | src/djbabel/serato/write.py:119-129 | the loop copies every byte and puts a '\n' after every period-th byte but the last, for data longer than 72 bytes |
| SeratoText.NewlinesRemoved | src/djbabel/serato/write.py:119-129 | removing the '\n's from the result gives back newline-free input |
| SeratoText.WrapLayout | src/djbabel/serato/write.py:125-128 | n wrapped bytes gain (n - 1) / period newlines, the first line is the first period bytes and the last byte is kept last |
| SeratoText.Wrap | src/djbabel/serato/write.py:122-129 | definition of the wrapping insert_newlines does: the data in lines of period bytes joined by '\n', with none after the last line; WrapLayout, WrapAbsent and NewlinesRemoved state it |
| SeratoText.NewlinedLength | src/djbabel/serato/write.py:120-121 | data of 72 bytes or fewer is unchanged; longer data gains exactly (n - 1) / period newlines |
| SeratoText.WrapAbsent | src/djbabel/serato/write.py:125-128 | wrapping adds no byte other than '\n' |
| SeratoText.RemoveB64Padding | src/djbabel/serato/write.py:132-133 | the result holds no '=' and is no longer than the input |
| SeratoText.PadFreeUnchanged | src/djbabel/serato/write.py:132-133 | text without '=' passes through unchanged |
| SeratoText.StripIdempotent | src/djbabel/serato/write.py:132-133 | stripping twice is stripping once |
| SeratoText.StripPadPad | src/djbabel/serato/write.py:133 | a final group ending in '==' loses them, and loses the 'A' before them when there is one |
| SeratoText.StripPad | src/djbabel/serato/write.py:133 | a final group ending in one '=' loses it, and loses the 'A' before it when there is one |
| SeratoText.StripOne | src/djbabel/serato/write.py:133 | the encoding of one final byte, stripped and padded again, is itself |
| SeratoText.StripTwo | src/djbabel/serato/write.py:133 | the encoding of two final bytes, stripped and padded again, decodes to both bytes, or to the first alone when the second's low four bits are zero |
| SeratoText.StripSplit | src/djbabel/serato/write.py:133 | whole groups hold no '=', so stripping only touches the final group |
| SeratoText.StrippedEncode | src/djbabel/serato/write.py:156-158 | stripped base64 of the payload holds no '\n' or NUL, is at most 3 bytes shorter, and padded again decodes to the payload less possibly its last byte |
| SeratoText.EncodePadsAtEnd | src/djbabel/serato/write.py:156 | base64 text has '=' only in its last two characters |
| SeratoText.StripLFCommute | src/djbabel/serato/write.py:158-162 | deleting 'A=' pairs commutes with deleting newlines when no newline stands before a '=' |
| SeratoText.StripThenRemoveLF | src/djbabel/serato/write.py:158-162 | newlines placed where no '=' follows them vanish when a reader removes them from stripped text |
| SeratoText.WrapNoLFPad | src/djbabel/serato/write.py:125-128 | each newline of wrapped text stands before a byte at a multiple of the period, so none stands before a '=' when those bytes are not '=' |
| SeratoText.NewlinedStripRemoved | src/djbabel/serato/write.py:156-162 | stripped then wrapped base64, with its newlines removed as a reader removes them, is the stripped encoding |
| SeratoTypes.Marker | src/djbabel/serato/types.py:13-77 | every envelope marker is fifteen bytes |
| SeratoTypes.MarkerTextPrintable | src/djbabel/serato/types.py:13-77 | every marker text is fifteen printable ASCII characters starting with 'S' |
| SeratoTypes.SeratoTagName | src/djbabel/serato/utils.py:81-82 | every tag has a non-empty key in every format |
| SeratoTypes.SeratoTagMarker | src/djbabel/serato/utils.py:84-85 | the marker of a tag is fifteen bytes starting with 'S' and holding no NUL |
| SeratoTypes.TagName | src/djbabel/serato/types.py:13-77 | definition of the names table of SeratoTags: each tag's key for MP3, M4A and FLAC; SeratoTagName and TagNamesDistinct state its properties |
| SeratoTypes.MarkerText | src/djbabel/serato/types.py:13-77 | definition of the marker of each tag, as text; MarkerTextPrintable and MarkersDistinct state its properties |
| SeratoTypes.TagNamesDistinct | src/djbabel/serato/types.py:13-77 | within one format no two tags share a key |
| SeratoTypes.MarkersDistinct | src/djbabel/serato/types.py:13-77 | the envelope markers of two tags are equal exactly when the tags are |
| SeratoTypes.EntryBase.Init | src/djbabel/serato/types.py:84-87 | with one argument per field, each field is assigned its argument in field order; otherwise an assertion error and nothing changes |
| SeratoTypes.AssignFields | src/djbabel/serato/types.py:86-87 | every field holds its argument when the field names are distinct, and nothing but the fields is added |
| SeratoUtils.Padding | src/djbabel/serato/utils.py:41 | the padding brings the text to a multiple of four characters, 'A==' when one character is left over |
| SeratoUtils.DecodeEnvelope | src/djbabel/serato/utils.py:39-44 | every decoding failure becomes a ValueError |
| SeratoUtils.DecodeErrorIsValueError | src/djbabel/serato/utils.py:43-44 | base64 decoding fails only with ValueError |
| SeratoUtils.ParseSeratoEnvelopeAsWritten | src/djbabel/serato/utils.py:25-51 | as written, only a decoding failure is an error; the result is everything after the first occurrence of the marker and its NUL |
| SeratoUtils.MarkerCheckUnreachable | src/djbabel/serato/utils.py:47-49 | the "marker not found" error is never raised: without the marker the result is the decoded bytes less their first prefix-length bytes |
| SeratoUtils.EmptyEnvelopeAccepted | src/djbabel/serato/utils.py:47-51 | the empty envelope holds no marker and is still accepted, as an empty payload |
| SeratoUtils.ParseSeratoEnvelope | src/djbabel/serato/utils.py:25-51 | the corrected reader fails with ValueError exactly when decoding fails or the marker and its NUL do not occur, and otherwise gives the bytes after them |
| SeratoUtils.CheckedAgreesWhenMarkerPresent | src/djbabel/serato/utils.py:46-51 | where the marker is present both readers give the same bytes |
| SeratoUtils.CString | src/djbabel/serato/utils.py:125-129 | the bytes from a position up to the first NUL or the end, holding no NUL, and the position after the NUL |
| SeratoUtils.ReadBytes | src/djbabel/serato/utils.py:125-129 | the loop reading one byte at a time computes that string and position |
| SeratoUtils.CStringWritten | src/djbabel/serato/utils.py:125-129 | a string written with its NUL reads back as itself |
| SeratoUtils.SeratoMetadata | src/djbabel/serato/utils.py:87-101 | the tag is looked up under its key for the format; an MP3 tag, an absent one or a non-byte frame is returned as it is; FLAC and M4A bytes are unwrapped by the envelope reader as written, which fails (ValueError) only when base64 decoding fails, so an envelope without the marker is still accepted |
| SeratoUtils.SeratoMetadataChecked | src/djbabel/serato/utils.py:87-101 | the same lookup with the corrected envelope reader: a FLAC or M4A tag is accepted exactly when its envelope decodes and holds the marker and its NUL, and ValueError otherwise |
| SeratoUtils.MetadataAgreesWhenMarkerPresent | src/djbabel/serato/utils.py:87-101 | wherever the corrected lookup succeeds, the lookup as written gives the same tag data |
| SeratoUtils.EmptyFlacTagAccepted | src/djbabel/serato/utils.py:98-99 | an empty FLAC tag is handed on as an empty payload as written, and is a ValueError for the corrected lookup |
| Strings.Split | src/djbabel/serato/write.py:496 | splitting on a one-character separator gives at least one part, no part holds the separator, and joining the parts gives the text back |
| Strings.SplitCount | src/djbabel/serato/write.py:496-504 | there is one more part than separators |
| Strings.SplitJoin | src/djbabel/serato/write.py:496 | splitting parts joined by a separator they do not hold gives the parts back |
| Strings.Upper | src/djbabel/traktor/utils.py:102 | every ASCII letter upper case, every other character kept |
| Strings.Lower | src/djbabel/traktor/read.py:54 | every ASCII letter lower case, every other character kept |
| Strings.Capitalize | src/djbabel/rekordbox/write.py:90 | the first character upper case and the rest lower case |
| TraktorRead.GetTagAttr | src/djbabel/traktor/read.py:14-23 | nothing for a field Traktor does not store, else the attribute named after the field, except that a BITRATE of "-1" is nothing |
| TraktorRead.GetStrAttrElement | src/djbabel/traktor/read.py:181-193 | every field is read from the element of its own group, although INFO is checked before TEMPO and MUSICAL_KEY |
| TraktorRead.GetSubtag | src/djbabel/traktor/read.py:26-34 | definition of make_get_subtag's reader: get_tag_attr on the child element when there is one, nothing otherwise; GetStrAttrElement states which element each field comes from |
| TraktorRead.GetStrAttr | src/djbabel/traktor/read.py:181-193 | definition of get_str_attr: the field read from the entry or from the child element of its group, tested in the source's order, nothing for a location, loudness or cue field; GetStrAttrElement states it |
| TraktorRead.ToDate | src/djbabel/traktor/read.py:37-41 | None stays None; a text is a "%Y/%m/%d" date, a ValueError otherwise |
| TraktorRead.ToDateRoundTrip | src/djbabel/traktor/read.py:37-41 | every valid date written as "%Y/%m/%d" reads back as itself |
| TraktorRead.ToBool | src/djbabel/traktor/read.py:44-50 | true exactly for "1" |
| TraktorRead.GetLocation | src/djbabel/traktor/read.py:82-95 | a missing LOCATION fails its assertion, a missing VOLUME, DIR or FILE is a ValueError, otherwise the path VOLUME / DIR with "/:" made "/" / FILE |
| TraktorRead.UnescapeSegments | src/djbabel/traktor/read.py:93 | replacing "/:" by "/" in the directory text traktor_path writes gives back the directories |
| TraktorRead.Unescape | src/djbabel/traktor/read.py:93 | definition of str.replace("/:", "/"), scanning from the left; UnescapeSegments shows it undoes traktor_path's directory text |
| TraktorRead.ParseDir | src/djbabel/traktor/read.py:93 | a DIR in traktor_path form names the directories as an absolute POSIX path |
| TraktorRead.GetLocationOfTraktorPath | src/djbabel/traktor/read.py:82-95 | a LOCATION whose DIR and FILE were written by traktor_path reads back as the path on the POSIX root |
| TraktorRead.AdjustLocation | src/djbabel/traktor/read.py:98-100 | the part of the path after `relative`, or after its own anchor, moved under `anchor`; a path not under `relative` is a ValueError |
| TraktorRead.AdjustLocationBack | src/djbabel/traktor/read.py:98-100 | moving a path from one directory to another and back gives it back |
| TraktorRead.PathAnchor | src/djbabel/utils.py:78-88 | definition of path_anchor: the given anchor, or the root of the running system (a parameter); AdjustLocation moves paths under it |
| TraktorRead.GetLoudness | src/djbabel/traktor/read.py:105-117 | PERCEIVED_DB as the autogain with no gain; nothing without a LOUDNESS element or attribute; a non-number is a ValueError |
| TraktorRead.MusicalKeyToClassicKey | src/djbabel/traktor/read.py:124-132 | a numeric key goes back through the two inverted key tables; a non-numeric key is nothing; a number the tables lack is a KeyError |
| TraktorRead.MusicalKeyOutOfRange | src/djbabel/traktor/read.py:127-129 | a number outside 1 to 24 is a KeyError |
| TraktorRead.MusicalKeyExample | src/djbabel/traktor/read.py:124-132 | Traktor's key 21 reads as "Fmin" |
| TraktorRead.GridMarkers | src/djbabel/traktor/read.py:137 | only the CUE_V2 elements of TYPE "4", in order |
| TraktorRead.CueMarkers | src/djbabel/traktor/read.py:154 | only the CUE_V2 elements with a TYPE other than "4", in order |
| TraktorRead.MarkersPartition | src/djbabel/traktor/read.py:137-154 | every element with a TYPE goes to exactly one of the two lists |
| TraktorRead.GetGridPoint | src/djbabel/traktor/read.py:140-149 | START in seconds and the GRID's BPM in 4/4; a missing START, GRID or BPM fails its assertion |
| TraktorRead.GetCueV2Beatgrid | src/djbabel/traktor/read.py:136-150 | one point per anchor, or the error of the first anchor that fails |
| TraktorRead.GetCueV2BeatgridEach | src/djbabel/traktor/read.py:139-149 | each point is the reading of its anchor, and the grid fails exactly when one anchor does |
| TraktorRead.GetCueV2BeatgridLoop | src/djbabel/traktor/read.py:136-150 | the loop appending one point per anchor computes that grid |
| TraktorRead.GetCue | src/djbabel/traktor/read.py:157-166 | NAME, START, LEN, TYPE and HOTCUE must all be present, asserted in that order |
| TraktorRead.MakeCueTimes | src/djbabel/traktor/read.py:170-171 | a cue starts at START / 1000 and ends at (START + LEN) / 1000, or has no end when LEN is zero |
| TraktorRead.MakeCueKind | src/djbabel/traktor/read.py:167-175 | a cue has the kind whose code is TYPE, the index HOTCUE and the name NAME, and is neither coloured nor locked |
| TraktorRead.MakeCue | src/djbabel/traktor/read.py:167-175 | the marker built from NAME, START, LEN, TYPE and HOTCUE; a failure is a ValueError from float() or int() or a KeyError for an unknown TYPE; MakeCueTimes and MakeCueKind state the marker |
| TraktorRead.GetCueV2Cues | src/djbabel/traktor/read.py:153-176 | one cue per non-anchor element, or the error of the first that fails |
| TraktorRead.GetCueV2CuesEach | src/djbabel/traktor/read.py:156-175 | each cue is the reading of its element, and the list fails exactly when one element does |
| TraktorRead.GetCueV2CuesLoop | src/djbabel/traktor/read.py:153-176 | the loop appending one cue per element computes that list |
| TraktorRead.FirstWithKey | src/djbabel/traktor/read.py:242-253 | the first entry from a position on whose VOLUME, DIR and FILE spell the key |
| TraktorRead.FindCollectionEntry | src/djbabel/traktor/read.py:237-254 | nothing for a missing key, else the first entry with a complete LOCATION spelling the key |
| TraktorRead.FindCollectionEntryLoop | src/djbabel/traktor/read.py:237-254 | the loop skipping entries without LOCATION and stopping at the first match finds that entry |
| TraktorRead.LocationKey | src/djbabel/traktor/read.py:244-250 | definition of the key find_collection_entry compares: VOLUME + DIR + FILE of the LOCATION when all three are present; FirstWithKey and FindCollectionEntry search by it |
| TraktorUtils.MarkerTypeInjective | src/djbabel/traktor/utils.py:20-26 | every marker kind has a code, no two share one, and the inverted table gives each code's kind back |
| TraktorUtils.MarkerTypeCodeOf | src/djbabel/traktor/utils.py:20-26 | every code the reader knows is the code of the kind it reads as |
| TraktorUtils.LoopCode | src/djbabel/traktor/utils.py:25 | loops have code "5" |
| TraktorUtils.GridCodeUnknown | src/djbabel/traktor/utils.py:18-26 | the beatgrid code "4" is no marker kind |
| TraktorUtils.TraktorAttrName | src/djbabel/traktor/utils.py:96-102 | a name in the table gives its entry, any other name its upper-case form |
| TraktorUtils.TraktorAttrNameAt | src/djbabel/traktor/utils.py:99-100 | each table entry gives its name's attribute |
| TraktorUtils.TraktorAttrNameNone | src/djbabel/traktor/utils.py:38-63 | only grouping, sample_rate, mix and trackID have no attribute |
| TraktorUtils.Unused | src/djbabel/traktor/utils.py:38-63 | each of those four has none |
| TraktorUtils.TraktorAttrNameUpper | src/djbabel/traktor/utils.py:101-102 | a name outside the table becomes its upper case, with no lower-case letter left |
| TraktorUtils.TraktorAttrNameBitRate | src/djbabel/traktor/utils.py:48 | bit_rate is BITRATE |
| TraktorUtils.TraktorAttrNameAlbum | src/djbabel/traktor/utils.py:37 | album is TITLE |
| TraktorUtils.TraktorAttrNameTonality | src/djbabel/traktor/utils.py:55 | tonality is VALUE |
| TraktorUtils.TraktorAttrNameGenre | src/djbabel/traktor/utils.py:101-102 | genre, not in the table, is GENRE |
| TraktorUtils.OneGroup | src/djbabel/traktor/utils.py:81-93 | the groups are disjoint and INFO takes the rest, so every field lives in exactly one element |
| TraktorUtils.MarkersIsInfo | src/djbabel/traktor/utils.py:87-93 | the "markers" field is not in the CUE_V2 group, so it counts as an INFO attribute |
| TraktorUtils.IsInfoTagAttr | src/djbabel/traktor/utils.py:89-93 | definition of is_info_tag_attr: a field of none of the other seven groups; OneGroup shows every field is in exactly one group |
| TraktorUtils.TraktorPathSegments | src/djbabel/traktor/utils.py:107-119 | a file below at least one directory is "/:" before every part of its path |
| TraktorUtils.TraktorPathDropsAnchor | src/djbabel/traktor/utils.py:115-117 | a Windows drive gives the same text as the POSIX root |
| TraktorUtils.TraktorPathExample | src/djbabel/traktor/utils.py:107-119 | a file in one directory is "/:" + dir + "/:" + name |
| TraktorUtils.TraktorPath | src/djbabel/traktor/utils.py:107-119 | definition of traktor_path for an absolute path: the directories in "/:" form, then the file name, without the anchor; TraktorPathSegments and TraktorPathDropsAnchor state it |
| TraktorUtils.Longest | src/djbabel/traktor/utils.py:150-164 | the answer is the best so far, or a matching node with a longer mount point than it |
| TraktorUtils.LongestFrom | src/djbabel/traktor/utils.py:160-162 | the loop over the children keeps the best so far or finds a better one among them |
| TraktorUtils.LongestStops | src/djbabel/traktor/utils.py:155-158 | a node that becomes the new best is the answer whatever its children hold |
| TraktorUtils.FindLongestMatchingUuid | src/djbabel/traktor/utils.py:150-164 | the recursion with its loop over children computes that answer |
| Utf8.EncodeCharValues | src/djbabel/serato/write.py:148 | one to four byte values, none of them zero for a character other than NUL |
| Utf8.Encode | src/djbabel/serato/markers2.py:94 | the encoding is at least as long as the text |
| Utf8.DecodeFirst | src/djbabel/serato/markers2.py:88 | the first character and its byte count, whose encoding is those bytes |
| Utf8.Decode | src/djbabel/serato/markers2.py:88 | a successful decoding encodes back to the bytes |
| Utf8.DecodeEncode | src/djbabel/serato/markers2.py:88-94 | decoding an encoded text gives it back |
| Utf8.EncodeNoNul | src/djbabel/serato/markers2.py:94 | a text without NUL encodes to bytes without NUL |
| Wrappers.MapResult | src/djbabel/traktor/read.py:139-150 | each element read in order, or the error of the first that fails |
| Wrappers.MapResultEach | src/djbabel/traktor/read.py:139-150 | each result is the reading of its element, and the whole fails exactly when one element does |
| Wrappers.MapResultFails | src/djbabel/traktor/read.py:139-150 | once a prefix fails the whole fails with the same error |

## Left out

- CrateWrite.Encode16: text is a sequence of UTF-16 code units and every unit is written as it is. Python encodes `str` with `errors='replace'`, so a lone surrogate becomes `?` there.
- CrateRead.Decode16: an odd trailing byte becomes U+FFFD. The replacement of unpaired surrogates that Python's decoder performs is not modelled, because text stays a sequence of code units.
- CrateRead.ParseFieldPath: the path is kept as the decoded text. The normalisation `pathlib.Path` applies (collapsing `//` and `/./`, dropping a trailing `/`) is not modelled.
- CrateRead.Paths: the paths are the stored texts, without `pathlib.Path` normalisation.
- CrateRead.TakeField: the content of an unknown field is its bytes. In Python it is a `BytesIO` object, and `UnknownContainerField` receives a one-element tuple holding the field list. Only the values are modelled, not the Python object shapes.
- Decimal.ParseInt: accepts an optional sign and digits. Python's `int()` also accepts surrounding whitespace, `_` separators and non-ASCII digits; those inputs are errors here.
- Decimal.ParseFloat: accepts an optional sign, digits and one point. Python's `float()` also accepts whitespace, `_`, exponents, `inf` and `nan`; those inputs are errors here. The value is an exact `real`, not the nearest IEEE-754 double.
- Normalize.ToInt: numeric means ASCII digits. Python's `str.isnumeric` is true for other Unicode digits and numerics too, so `to_int('²')` raises ValueError and `to_int('١٢')` gives 12 in Python, while the model gives 0 for both.
- Normalize.Run: the digit class is the ASCII digits. Python's `\d` in a str pattern also matches the other Unicode decimal digits, which `int()` reads, so `'LAME ٣.١٠٠.٠'` matches in Python and not here. The space class `\s` is modelled in full.
- RekordboxRead.GetTempo: the metre test `isnumeric` is ASCII digits here. In Python a metre such as `'²/4'` passes `isnumeric` and `to_int` then raises ValueError, and `'٣/٤'` gives (3, 4); the model keeps the default (4, 4) for both.
- TraktorRead.MusicalKeyToClassicKey: numeric means ASCII digits. In Python a key text such as `'²'` passes `isnumeric` and `int()` raises ValueError, and `'٢١'` is read as 21; the model gives None for both.
- SeratoRead.ReleaseDate: numeric means ASCII digits. In Python a year such as `'²'` or `'٢٠٢٠'` passes `isnumeric` and `date.fromisoformat` then raises ValueError; the model gives None.
- Dates.StrptimeYear: the year is four ASCII digits. Python's `strptime` reads `%Y` with `\d`, so a year of other Unicode decimal digits is accepted there and is an error here.
- Dates.StrptimeYmd: year, month and day are ASCII digits. Python's `strptime` reads them with `\d`, so dates written with other Unicode decimal digits are accepted there and are errors here.
- Normalize.AdjustNormalizeRoundTrip: times are `real`s, so the round trip is exact in the model. With Python floats the restored times can differ in the last bits.
- SeratoLower.Ms: rounds an exact `real` half to even. Python rounds the float product `s * 1000`, which can sit on the other side of a half.
- Dates.FromIsoFormat: accepts the extended `YYYY-MM-DD` form only. The other forms `date.fromisoformat` accepts since Python 3.11 (basic `YYYYMMDD`, week dates) are errors here.
- TraktorRead.FindCollectionEntry: returns the position of the entry found in the list of ENTRY elements, not the element itself.
- RekordboxRead.FindCollectionEntry: returns the position of the TRACK found, not the element itself.
- TraktorRead.AdjustLocation: `path_anchor` without an anchor reads `os.name`. Here it is the parameter `osRoot`. Paths are POSIX-style (`Paths.APath`, an anchor plus parts).
- XML: ElementTree parsing and tree building are not modelled. An element is a map from attribute names to texts (`Elements.Attrs`), and `find`/`findall` become fields of the entry records. `to_rekordbox`, `to_rekordbox_playlist` and `from_traktor` are not modelled.
- `from_rekordbox` and `read_rekordbox_playlist` (src/djbabel/rekordbox/read.py): only their pure parts are modelled. These are the readers of each attribute and the lookup of playlist tracks in the collection (`RekordboxRead.PlaylistTracks`). Building the `ATrack` from the XML and the file access are not modelled.
- `read_traktor_playlist` (src/djbabel/traktor/read.py): not modelled; it is ElementTree traversal around the readers that are modelled.
- mutagen tag I/O is not modelled: `to_serato`, `add_std_tags`, `add_serato_tag`, the `format_*_std_tag` functions, `to_serato_playlist`, `std_tag_text`, `std_comments_tag`, `from_serato`, `read_serato_playlist`, `maybe_metadata`, `get_serato_metadata` and the `get_serato_*` wrappers. `SeratoUtils.SeratoMetadata` takes the file's tags as a dictionary.
- `audio_file_type`, `file_size`, `audio_length`, `maybe_audio`, `mp3_encoder`, `audio_endocer` (src/djbabel/utils.py): they read audio files through mutagen. The encoder name and version are inputs of `Normalize.Mp3BeatgridOffset`.
- `rb_attr`, `rb_position_mark`, `rb_tempo`, `to_rekordbox` and `to_rekordbox_playlist` of src/djbabel/rekordbox/__init__.py: this older writer's copies are not modelled. Its `rb_attr` differs from the one of rekordbox/write.py in the total time (`int()` where write.py rounds up), the missing date added (`""` where write.py writes today) and the location (relative to an anchor); its `rb_position_mark` passes the times through `ms_to_s` and writes no colour; the last two build XML.
- `make_or_none_predicate` (src/djbabel/utils.py and src/djbabel/rekordbox/__init__.py): it inspects type annotations at run time. The model enumerates the track fields (`RekordboxWrite.Field`) and gives each field's treatment explicitly.
- `ask_to_overwrite`: it reads the terminal. `SeratoLower.HandleExistingTag` takes the answer as a parameter.
- `get_delta_e` (CIEDE2000 from basic_colormath) is the parameter `dist`. Only the choice of the first nearest palette colour is proved.
- `parse_color` and `pack_color` are imported by serato/read.py and serato/write.py but are not defined in the source. They are the parameters `parse` and `pack`. Likewise `dump_m4a`, which serato/write.py imports from markers.py but which markers.py does not define, is the parameter `dumpM4a` of `SeratoLower.DumpSeratoMarkers`.
- `rb_attr_location` and `get_rb_location`: URL quoting and `url2pathname`. The location's URL text is the parameter `url` of `RekordboxWrite.AttrValue`, and reading a location back is not modelled.
- `traktor_path` on a relative path calls `resolve()`, which reads the file system; only absolute paths are modelled.
- `_get_volume_id_windows`, `_get_vol_volid_linux`, `_get_vol_volid_macos` and `location_volume_id` run `vol`, `lsblk`, `df` and `diskutil` as subprocesses; only the search over their parsed output (`TraktorUtils.FindLongestMatchingUuid`) is modelled.
- Warnings (`warnings.warn`) and `print` calls are not modelled; the values returned next to them are.
- IEEE-754: the beat grid's big-endian `f` fields are opaque four-byte words (`Beatgrid.F32`). BPM, gain and offset arithmetic uses `real`. Python's formatting of floats (`str(float)`, `'%.2f'`) is the parameter `showReal` wherever its text is read back.
- `draw_waveform` (src/djbabel/serato/overview.py) draws an image; src/djbabel/serato/relvol.py passes data through unchanged; src/djbabel/serato/crate.py is an older copy of the crate reader under src/djbabel/serato/crate/. None of these is modelled.
- `FlipEntry.dump` always raises NotImplementedError, and `Markers2.DumpEntry` returns that error. Flip entries can be loaded but not written, so the Markers2 round trip covers tags without flips.

## Findings

| source | as written | input that shows it | evidently intended | confidence | as-written member | corrected member |
|---|---|---|---|---|---|---|
| src/djbabel/serato/write.py:366-369 | `add_envelope` applies `remove_b64padding` to the raw payload, so every `=` byte (0x3D) and every `A=` pair of the binary payload is deleted | a BeatGrid, Markers2 or Overview payload holding the byte 0x3D, e.g. a float position whose encoding contains 0x3D | strip padding only from the base64 text, and keep the payload whole | high, not executed | SeratoDump.AddEnvelopeAsWritten, SeratoDump.AddEnvelopeAsWrittenLoses | SeratoDump.AddEnvelope, SeratoDump.AddEnvelopeRoundTrip |
| src/djbabel/serato/write.py:348 | `dump_serato_beatgrid` passes the binary tag through `insert_newlines`, which puts a `\n` after byte 72 of any tag longer than 72 bytes | a beat grid of ten items (nine markers and the footer) whose marker 8 has a position whose third byte is not 0x0A: byte 72 of the tag is that byte, and the parser reads the inserted `\n` in its place | return the binary tag unchanged; newlines belong to the base64 text only | high, not executed | SeratoDump.DumpBeatgridAsWritten, SeratoDump.BeatgridAsWrittenCorrupt | SeratoDump.DumpBeatgrid, SeratoDump.BeatgridRoundTrip |
| src/djbabel/serato/utils.py:47-49 | the offset is `find(...) + len(mkr)` and is compared with -1, which it can never equal, so "marker not found" is never raised | the empty envelope: it decodes to nothing, holds no marker, and is accepted as an empty payload | raise ValueError when `find` returns -1 | high, not executed | SeratoUtils.ParseSeratoEnvelopeAsWritten, SeratoUtils.EmptyEnvelopeAccepted, SeratoUtils.EmptyFlacTagAccepted | SeratoUtils.ParseSeratoEnvelope, SeratoUtils.CheckedAgreesWhenMarkerPresent, SeratoUtils.SeratoMetadataChecked |
| src/djbabel/serato/markers.py:122-135 | an unset position is replaced by the int 0x7F7F7F7F where the `4s` format needs bytes, so `struct.pack` raises struct.error | any entry with an unset start or end, e.g. each empty slot of the table `to_serato_markers` builds for an MP3 track with fewer than fourteen cues and loops | write the four bytes 7F 7F 7F 7F, which `Entry.load` reads back as unset | high, not executed | Markers.DumpUnsetFails, SeratoLower.LegacyDumpAsWrittenFails | Markers.LoadDumpEntry, SeratoLower.LegacyRoundTrip |
| src/djbabel/serato/write.py:162-169 | NUL padding is added only when the base64 text is shorter than 468 bytes, so a longer text has no NUL after it, while `markers2.parse` needs one to find its end | Markers2 entries whose records total 349 bytes or more | always end the base64 text with a NUL, then pad to 468 | high, not executed | SeratoDump.DumpMarkers2AsWritten, SeratoDump.Markers2AsWrittenUnreadable | SeratoDump.DumpMarkers2, SeratoDump.Markers2RoundTrip |
| src/djbabel/rekordbox/write.py:105-109 | the rating is looked up as a star count 0..5, but the canonical rating is the byte value 0..255 | rating 255 (five stars) is written as "0" | write a byte rating (a multiple of 51 up to 255) as its own text | medium, not executed | RekordboxWrite.RbAttrRatingAsWritten, RekordboxWrite.RatingAsWrittenLoses | RekordboxWrite.RbAttrRating, RekordboxWrite.RatingTable |
| src/djbabel/rekordbox/__init__.py:131-133 | `<<` binds after `+`, so the number is `c0 << (16 + c1) << (8 + c2)`; `hex().upper()` gives "0X…", which no case matches, and the Orange case uses a fullwidth `ｘ` | Rekordbox red (255, 0, 0) is written as Lemon "0xFFFF00" | the hex text of `(c0 << 16) + (c1 << 8) + c2` with a lower-case `0x`, matched against the eight Rekordbox colours | high, not executed | RekordboxInit.RbAttrColorAsWritten, RekordboxInit.RbAttrColorAsWrittenLosesRed | RekordboxWrite.RbAttrColor, RekordboxWrite.RbAttrColorExamples |
| src/djbabel/rekordbox/__init__.py:241-246 | the running beat is reduced modulo the bar at every step, so it lies in 0..bar-1 and the last beat of a bar is 0 | a 120 BPM grid with points at 0.0, 1.5 and 3.0 s and index 1: three beats from the first beat of the bar give 0 | the beat in the bar, 1..bar, as rekordbox/write.py:231-246 computes it | high, not executed | RekordboxInit.RbBattitoAsWritten, RekordboxInit.RbBattitoAsWrittenZero | RekordboxWrite.RbBattito, RekordboxWrite.RbBattitoExamples |
