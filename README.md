# Himawari Standard Data rendering core, in Dafny

This project models the core of `st_render` (Python edition). The program turns
Himawari-8/9 Himawari Standard Data (HSD) tiles into PNG images. The model has
five parts:

- **`hsd_reader.dfy` (module `HsdReader`)** decodes one tile file.
  - `BinaryFile` is an open file: its bytes and a cursor, with `seek`/`read`
    semantics like Python's (a read past the end returns fewer bytes).
  - The method `HsdRead` walks the header with the same seeks and reads as
    the source.
  - `HsdRead` is proved equal to `Decode`, which states the layout by
    absolute offsets. Every fixed field is read little-endian at its offset.
    The calibration block has the same length on both of its branches. The
    payload is `width*height` 16-bit samples.
  - A reference encoder `Encode` is proved to decode back to the tile
    (`DecodeEncode`).
  - The `.bz2` path rule of `decompress_bz2` is modelled over a
    `FileSystem` value.
- **`calibration.dfy` (module `Calibration`)** is `hsd_calibration`.
  - A table over the distinct raw values is built (`BuildLookupTable`),
    then the zero-filled temperature array is filled pixel by pixel
    (`FillTemperatures`).
  - The result is proved to be the direct per-pixel evaluation
    (`DirectTemperatures` inside `Calibrate`).
  - The Planck inversion itself is a parameter (`PlanckModel`).
- **`segment_merger.dfy` (module `SegmentMerger`)** covers four functions:
  - `parse_segment_number`: the first `_Sdd10` token;
  - `find_all_segments`: the `_Sdddd` template (with the IndexError of
    `str.format` when the path holds two slots), and the
    `.bz2`-then-`.DAT` choice for segments 1 to 10;
  - `merge_segments`: a loop with the width check, stacking tiles row-wise;
  - `read_hsd_full`: the choice between merging and a single-file read.
- **`colorscale.dfy` (module `Colorscale`)** holds the four colour ramps
  (grayscale, BD, Color2 and WVNRL).
  - Each numpy masked assignment is one `Put` on an array.
  - Each channel is proved to equal a per-temperature level function, and
    those functions' values are stated band by band.
- **`cli.dfy` (module `Cli`)** covers `main.py`:
  - the `argv` scan, with its recursive specification `Scan` and
    back-to-front characterisations of what it stores;
  - the help, usage and exception outcomes, and the process exit status;
  - `get_output_path` and the `rgbfile` output path;
  - the ramp choice of `hsd_render` and `goes_render`;
  - `hsd_render` as read → calibrate → ramp.

`basics.dfy` (module `Basics`) holds `Option`, `Result`, `byte`, `u16`,
`EndsWith` and powers of two.

Conventions:

- Doubles read from the file are kept opaque: an `F64` holds its eight
  bytes.
- Temperatures are `real`s.
- A numpy cast of a float to `uint8` is modelled only where it is defined
  and truncates, on [0, 256). Anywhere else the channel is `Unspecified`.

## Model

| member | source | states |
|---|---|---|
| `HsdReader.ReadAt` | st_render5.2_py/hsd_reader.py:93-101 | A read of n bytes returns at most n bytes. It returns exactly n (n > 0) iff the file holds them, and then it returns those bytes. |
| `HsdReader.AsciiChars` | st_render5.2_py/hsd_reader.py:93 | Decoding with `errors='ignore'` keeps only 7-bit characters. A single byte becomes its character when it is ASCII and nothing otherwise. An all-ASCII field is kept whole. |
| `HsdReader.AsciiCharsConcat` | st_render5.2_py/hsd_reader.py:93 | The decoding works byte by byte: decoding a concatenation concatenates the decodings, so the ASCII bytes are kept in order and only the others are dropped. |
| `HsdReader.LeadingNuls` | st_render5.2_py/hsd_reader.py:93 | Counts the maximal run of NULs at the front. |
| `HsdReader.TrailingNuls` | st_render5.2_py/hsd_reader.py:93 | Counts the maximal run of NULs at the back. |
| `HsdReader.StripNul` | st_render5.2_py/hsd_reader.py:93 | `strip('\x00')`: the result is the middle slice between the NUL runs. It neither starts nor ends with NUL. A NUL-free name is unchanged, and an all-NUL name becomes empty. |
| `HsdReader.LittleEndianRoundTrip` | st_render5.2_py/hsd_reader.py:109-110 | Little-endian decoding inverts little-endian encoding of an n-byte number. |
| `HsdReader.LittleEndianPair` | st_render5.2_py/hsd_reader.py:109 | `'<H'` of two bytes is b0 + 256*b1. |
| `HsdReader.PayloadOffset` | st_render5.2_py/hsd_reader.py:158-170 | The payload starts at absolute offset 1310 + len8 + len9 + len10. len8 is read at 1052; len9 and len10 are read where the preceding section ends. |
| `HsdReader.Decode` | st_render5.2_py/hsd_reader.py:62-201 | A decoded tile has width*height samples, 16-bit header numbers and no temperatures. Bands up to 6 get all six constants as 0.0. Success needs the file to reach the section-8 length. |
| `HsdReader.BinaryFile.Open` | st_render5.2_py/hsd_reader.py:85 | An opened file holds the file's bytes with the cursor at 0. |
| `HsdReader.BinaryFile.SeekTo` | st_render5.2_py/hsd_reader.py:90 | An absolute seek sets the cursor, even past the end. |
| `HsdReader.BinaryFile.SeekBy` | st_render5.2_py/hsd_reader.py:95 | A relative seek moves the cursor by delta. |
| `HsdReader.BinaryFile.Read` | st_render5.2_py/hsd_reader.py:93 | Returns `ReadAt` of the cursor and advances the cursor by the number of bytes returned. |
| `HsdReader.ReadU16` | st_render5.2_py/hsd_reader.py:109 | `struct.unpack('<H', read(2))`: the value at the cursor, or failure when fewer than two bytes remain. The cursor moves by what was read. |
| `HsdReader.ReadU32` | st_render5.2_py/hsd_reader.py:167 | `'<I'`: the same, for four bytes. |
| `HsdReader.ReadF64` | st_render5.2_py/hsd_reader.py:125 | `'<d'`: the same, for eight bytes. |
| `HsdReader.ReadFixedHeader` | st_render5.2_py/hsd_reader.py:90-141 | The seeks and reads up to the intercept. They fail on the first field the file is too short for, and otherwise give the fields at their absolute offsets, ending at offset 633. |
| `HsdReader.ReadConstants` | st_render5.2_py/hsd_reader.py:143-155 | Band > 6 reads c0..c2, c, H and k; otherwise all six are 0.0. Both branches end at the same offset (745). |
| `HsdReader.SkipSections` | st_render5.2_py/hsd_reader.py:158-170 | Reads the len8/len9/len10 section lengths and skips those sections. The cursor then sits at the payload offset. |
| `HsdReader.ReadPayload` | st_render5.2_py/hsd_reader.py:173-182 | Reads width*height samples from the cursor. With debug on, an empty image fails at `data[0]`. |
| `HsdReader.HsdRead` | st_render5.2_py/hsd_reader.py:85-201 | The byte-cursor walk computes exactly `Decode` of the file's bytes. |
| `HsdReader.DecodedFieldOffsets` | st_render5.2_py/hsd_reader.py:90-155 | Every header field of a decoded tile is the little-endian value at its absolute offset. For band > 6 this includes the six constants. |
| `HsdReader.DecodedSamplesInFileOrder` | st_render5.2_py/hsd_reader.py:173-179 | Sample i is the u16 at payload offset + 2i. A non-empty image decodes only when the file holds all its samples. |
| `HsdReader.PayloadInFileOrder` | st_render5.2_py/hsd_reader.py:178-179 | The same for the payload read from any start offset. |
| `HsdReader.BandNeverDecidesFailure` | st_render5.2_py/hsd_reader.py:143-155 | A file that reaches the section-8 length never fails inside the calibration block, whatever the band. |
| `HsdReader.PayloadBytes` | st_render5.2_py/hsd_reader.py:178-179 | The reference payload encoding has two bytes per sample. |
| `HsdReader.Samples` | st_render5.2_py/hsd_reader.py:179 | n samples from 2n bytes, where sample i is byte 2i plus 256 times byte 2i+1 (uint16, low byte first). |
| `HsdReader.DecodePayload` | st_render5.2_py/hsd_reader.py:173-182 | Fails iff a non-empty image needs more bytes than the file holds, or the image is empty with debug on. Otherwise the record has width*height samples, sample i read low byte first at the payload offset + 2i, and no temperatures. |
| `HsdReader.Encode` | st_render5.2_py/hsd_reader.py:90-179 | The reference encoder writes a 1314-byte header and then the samples. |
| `HsdReader.EncodedName` | st_render5.2_py/hsd_reader.py:93 | The 16 name bytes of an encoded tile decode back to its name. |
| `HsdReader.EncodedPayload` | st_render5.2_py/hsd_reader.py:179 | Sample decoding inverts sample encoding. |
| `HsdReader.EncodedFixedHeader` | st_render5.2_py/hsd_reader.py:90-141 | An encoded header decodes back to the tile's header fields. |
| `HsdReader.EncodedConstants` | st_render5.2_py/hsd_reader.py:143-155 | An encoded calibration block decodes back to the tile's constants. |
| `HsdReader.EncodedSections` | st_render5.2_py/hsd_reader.py:158-170 | The encoded section lengths put the payload at offset 1314. |
| `HsdReader.DecodeEncode` | st_render5.2_py/hsd_reader.py:62-201 | Round trip: decoding an encoded well-formed tile gives the tile back. The one exception is an empty image with debug on, which fails. |
| `HsdReader.EncodedParts` | st_render5.2_py/hsd_reader.py:62-201 | Every part that decoding reads (fixed header, constants, sections, payload) is in place in an encoded tile, and the decoded record is the tile itself. |
| `HsdReader.DecodeParts` | st_render5.2_py/hsd_reader.py:62-201 | When header, constants, sections and payload are each in place, the decoding is the record they form. |
| `HsdReader.DecodeSamples` | st_render5.2_py/hsd_reader.py:173-182 | A payload holding the encoding of d decodes to d. |
| `HsdReader.DecompressBz2` | st_render5.2_py/hsd_reader.py:33-59 | A path not ending in `.bz2` is used as is. Otherwise the DAT path is the path without `.bz2`, decompressed into only when it does not exist yet. |
| `HsdReader.DatPathOfBz2` | st_render5.2_py/hsd_reader.py:43-51 | Adding `.bz2` and then applying the rule gives the DAT path back. |
| `HsdReader.DatPathIsFixed` | st_render5.2_py/hsd_reader.py:43-44 | The rule maps a DAT path to itself. |
| `HsdReader.DatBytes` | st_render5.2_py/hsd_reader.py:78-85 | For a non-bz2 path, the bytes opened are the file's bytes, or the open fails when it is missing. |
| `HsdReader.ReadTile` | st_render5.2_py/hsd_reader.py:62-211 | `hsd_read(path)` gives a tile with width*height samples and no temperatures. |
| `HsdReader.HsdReadFile` | st_render5.2_py/hsd_reader.py:62-211 | The reading method computes `ReadTile`. |
| `Calibration.DirectTemperatures` | st_render5.2_py/calibration.py:68-70 | The per-pixel result has width*height entries: Tb of each sample, then 0.0 wherever the data ends early. |
| `Calibration.Calibrate` | st_render5.2_py/calibration.py:12-78 | Calibration succeeds iff four things hold: wl**5 does not overflow; the two divisions are by non-zero values; it is not an empty image with debug on; and the data fit width*height. The result then has width*height entries. OverflowError is raised iff wl**5 overflows, as it comes first; ZeroDivisionError iff there is no overflow and a divisor is zero. |
| `Calibration.BuildLookupTable` | st_render5.2_py/calibration.py:52-62 | The table has exactly the distinct raw values as keys, each mapped to its Tb. |
| `Calibration.FillTemperatures` | st_render5.2_py/calibration.py:68-70 | Filling the zeroed array: entry i is the table's value of sample i and the tail stays 0.0, or an index error when the data exceed width*height. |
| `Calibration.HsdCalibration` | st_render5.2_py/calibration.py:12-78 | The table-driven method computes `Calibrate`. On success only `temp` changes; on an exception the tile is unchanged. |
| `Calibration.EqualValuesEqualTemperatures` | st_render5.2_py/calibration.py:52-70 | Equal raw samples get equal temperatures. |
| `Calibration.OnlyRadiometryMatters` | st_render5.2_py/calibration.py:29-45 | The result depends only on the radiometric numbers, the pixel count and the samples. |
| `Calibration.UncalibratedBandOutcome` | st_render5.2_py/calibration.py:29-35 | A decoded tile of band 1 to 6 has k = 0.0. Its calibration raises OverflowError when wl**5 overflows, and ZeroDivisionError for any other finite wavelength. An infinite or NaN wavelength raises neither, and then only an empty image with debug on fails. |
| `Calibration.DecodedTileCalibrates` | st_render5.2_py/calibration.py:29-70 | A decoded tile whose wl**5 does not overflow and whose divisions are defined calibrates with Tb for every sample: no zero tail and no index error. |
| `Colorscale.CastU8` | st_render5.2_py/colorscale.py:83 | On [0, 256), `astype(np.uint8)` truncates to the byte below. Elsewhere the value is unspecified. |
| `Colorscale.Trunc` | st_render5.2_py/colorscale.py:46 | `int()` truncates toward zero on both signs. |
| `Colorscale.Stack` | st_render5.2_py/colorscale.py:96 | `np.stack(..., axis=-1)`: pixel i is the triple of the channels' entries i. |
| `Colorscale.BandOf` | st_render5.2_py/colorscale.py:81-93 | Every temperature lies in exactly one band of a descending threshold line. |
| `Colorscale.ExactlyOneBand` | st_render5.2_py/colorscale.py:81-93 | Such a band exists, and any two bands holding the temperature are the same band. |
| `Colorscale.Put` | st_render5.2_py/colorscale.py:81-93 | A masked assignment writes value(t) exactly where the mask holds and leaves the other entries alone. |
| `Colorscale.ShiftRight` | st_render5.2_py/colorscale.py:25 | `>>` never increases a value. |
| `Colorscale.ShiftRightBelow` | st_render5.2_py/colorscale.py:25 | A value below m*2^s shifts below m. |
| `Colorscale.ShiftRightMonotone` | st_render5.2_py/colorscale.py:25 | `>>` preserves order. |
| `Colorscale.BwScale` | st_render5.2_py/colorscale.py:7-30 | The grayscale pixel i is the gray triple of sample i's level. |
| `Colorscale.BwLevel` | st_render5.2_py/colorscale.py:19-25 | At a bit depth of 8 or less nothing is shifted and the level is the sample modulo 256, the uint8 wrap. The level never exceeds the shifted sample. |
| `Colorscale.BwWithinDepth` | st_render5.2_py/colorscale.py:18-25 | For samples within the bit depth, the level is the sample shifted right by bitNum-8, with no uint8 wrap. |
| `Colorscale.BwMonotone` | st_render5.2_py/colorscale.py:18-25 | Within the bit depth, brighter samples never get darker levels. |
| `Colorscale.BwEightBit` | st_render5.2_py/colorscale.py:19-22 | At 8 bits or fewer, a byte-sized sample is its own level. |
| `Colorscale.BdScaleValue` | st_render5.2_py/colorscale.py:33-62 | `bd_scale_value` always lies in [0, 256). |
| `Colorscale.BdLevel` | st_render5.2_py/colorscale.py:76-93 | The BD level is always a byte. It is 0 for missing data (t ≤ 0), above 303.15 K, and in (203.15, 209.15]. |
| `Colorscale.BdScaleMatchesValue` | st_render5.2_py/colorscale.py:33-93 | The array ramp agrees with `bd_scale_value` on valid temperatures. At t ≤ 0 the array ramp gives 0 where `bd_scale_value` gives 120. |
| `Colorscale.BdScale` | st_render5.2_py/colorscale.py:65-98 | Pixel i is the gray triple of the BD level of temperature i. |
| `Colorscale.Color2RLevel` | st_render5.2_py/colorscale.py:101-120 | Red values: 0 for missing data and above 303.15; 50 in (223.15, 243.15]; 0 in (203.15, 223.15]. A byte from 173.15 K up, unspecified below it. |
| `Colorscale.Color2GLevel` | st_render5.2_py/colorscale.py:123-144 | Green values: 0 for missing data, above 303.15, in (213.15, 223.15] and in (193.15, 203.15]. A byte from 173.15 K up, unspecified below it. |
| `Colorscale.Color2BLevel` | st_render5.2_py/colorscale.py:147-165 | Blue values: 0 for missing data, above 303.15 and in (183.15, 213.15]. A byte from 173.15 K up, unspecified below it. |
| `Colorscale.Color2R` | st_render5.2_py/colorscale.py:101-120 | The masked-assignment sequence produces the red level of every temperature. |
| `Colorscale.Color2G` | st_render5.2_py/colorscale.py:123-144 | The same for the green level. |
| `Colorscale.Color2B` | st_render5.2_py/colorscale.py:147-165 | The same for the blue level. |
| `Colorscale.Color2Scale` | st_render5.2_py/colorscale.py:168-184 | Pixel i is the triple of the three Color2 levels of temperature i. |
| `Colorscale.WvnrlRLevel` | st_render5.2_py/colorscale.py:187-208 | Red values: 0 for missing data; 127 above 273.15; 255 in (223.15, 233.15]. In (233.15, 243.15] the value is outside uint8, so unspecified. A byte above 243.15 and in [183.30625, 233.15]. |
| `Colorscale.WvnrlGLevel` | st_render5.2_py/colorscale.py:211-231 | Green values: 0 for missing data and above 273.15; 255 in (233.15, 243.15]. A byte from 203.15 K up, unspecified below it. |
| `Colorscale.WvnrlBLevel` | st_render5.2_py/colorscale.py:234-254 | Blue values: 0 for missing data; 140 above 273.15; 255 in (243.15, 253.15]. A byte from 203.15 K up, unspecified below it. |
| `Colorscale.WvnrlR` | st_render5.2_py/colorscale.py:187-208 | The full(128) start and the masked-assignment sequence produce the red level of every temperature. |
| `Colorscale.WvnrlG` | st_render5.2_py/colorscale.py:211-231 | The same for the green level. |
| `Colorscale.WvnrlB` | st_render5.2_py/colorscale.py:234-254 | The same for the blue level. |
| `Colorscale.WvnrlScale` | st_render5.2_py/colorscale.py:257-273 | Pixel i is the triple of the three WVNRL levels of temperature i. |
| `Colorscale.RampMasksPartition` | st_render5.2_py/colorscale.py:79-93 | The ramps' threshold lines descend. A valid temperature falls in the mask of its band and in no other WVNRL mask. |
| `SegmentMerger.TokenIndex` | st_render5.2_py/segment_merger.py:29 | `re.search`: the first position of a `_Sdd10` token at or after `from`, or none when there is no such token. |
| `SegmentMerger.ParseSegmentNumber` | st_render5.2_py/segment_merger.py:14-32 | None iff the path has no `_Sdd10` token. Otherwise the value is the two digits of the leftmost token. |
| `SegmentMerger.Replacement` | st_render5.2_py/segment_merger.py:46-53 | `'_S{:02d}10'.format(n)` is a six-character token whose digits read back as n. |
| `SegmentMerger.SlotsSkip` | st_render5.2_py/segment_merger.py:46 | Characters that start no `_Sdddd` slot do not change the number of fields the template gets. |
| `SegmentMerger.SlotsPositive` | st_render5.2_py/segment_merger.py:46 | The template gets a field iff some slot starts at or after the scan position. |
| `SegmentMerger.SlotsTwo` | st_render5.2_py/segment_merger.py:46 | The template gets two or more fields iff two slots that do not overlap occur. |
| `SegmentMerger.Template` | st_render5.2_py/segment_merger.py:46 | `re.sub` keeps the path's length, since each six-character slot becomes a six-character token. |
| `SegmentMerger.TemplateWithoutSlots` | st_render5.2_py/segment_merger.py:46 | `re.sub` leaves text without a slot unchanged. |
| `SegmentMerger.Candidate` | st_render5.2_py/segment_merger.py:46-53 | `base_pattern.format(n)` raises IndexError iff the template has two or more fields. Otherwise the candidate has the path's length, and a path without a slot is returned as is. |
| `SegmentMerger.TemplateUpToSlot` | st_render5.2_py/segment_merger.py:46 | `re.sub` keeps the text before the first `_Sdddd` slot, replaces the slot and continues after it. |
| `SegmentMerger.FilledParsesBack` | st_render5.2_py/segment_merger.py:29-53 | Filling the template of a path whose first slot is at q with n gives a path whose first `_Sdd10` token reads back as n. |
| `SegmentMerger.CandidateParsesBack` | st_render5.2_py/segment_merger.py:46-53 | For a path whose first slot is at q, the candidate for segment n exists iff no other slot follows, and then it parses back to segment n. |
| `SegmentMerger.Choice` | st_render5.2_py/segment_merger.py:56-62 | A segment contributes an existing path. That path is the candidate itself, or the candidate minus `.bz2` when the candidate is missing. It contributes nothing iff neither exists. |
| `SegmentMerger.Discovered` | st_render5.2_py/segment_merger.py:35-64 | Discovery of segments 1 to k raises IndexError iff k > 0 and the path has two or more slots. Otherwise it lists at most k paths. |
| `SegmentMerger.DiscoveredStep` | st_render5.2_py/segment_merger.py:52-62 | Each further segment is looked up at its filled template and adds at most its one path, and its number, at the end. |
| `SegmentMerger.DiscoveredInOrder` | st_render5.2_py/segment_merger.py:35-64 | When discovery does not raise, the paths found are one per existing segment n in 1..k, in increasing and distinct n. A segment is listed iff one of its paths exists. |
| `SegmentMerger.FindAllSegments` | st_render5.2_py/segment_merger.py:35-64 | The search loop over segments 1 to 10 computes `Discovered`, including the IndexError of the first `format` call. |
| `SegmentMerger.LoadStep` | st_render5.2_py/segment_merger.py:90-103 | A successful step appends exactly the tile just read. |
| `SegmentMerger.TileReaderShaped` | st_render5.2_py/segment_merger.py:94 | Every tile `hsd_read` returns has width*height samples. |
| `SegmentMerger.Loaded` | st_render5.2_py/segment_merger.py:90-103 | After k successful iterations, k tiles are loaded. A failure is an unreadable file or a width mismatch. |
| `SegmentMerger.LoadedTiles` | st_render5.2_py/segment_merger.py:90-103 | The loaded tiles are the files' reads in order, all as wide as the first. |
| `SegmentMerger.LoadedFailureStays` | st_render5.2_py/segment_merger.py:90-101 | An exception ends the loop: later files change nothing. |
| `SegmentMerger.Merge` | st_render5.2_py/segment_merger.py:67-139 | The no-segments ValueError is raised iff the file list is empty. A merged record has no temperatures. |
| `SegmentMerger.MergeSegments` | st_render5.2_py/segment_merger.py:67-139 | The merge loop computes `Merge` for any per-file reader. |
| `SegmentMerger.MergeOfNothing` | st_render5.2_py/segment_merger.py:79-80 | An empty segment list raises. |
| `SegmentMerger.MergedRecord` | st_render5.2_py/segment_merger.py:90-134 | A merge has one read tile per file. It takes its metadata from the first tile, the first tile's width, the sum of the heights, and the samples concatenated in order. Every tile is as wide as the first. |
| `SegmentMerger.MergedSampleLayout` | st_render5.2_py/segment_merger.py:112 | Sample t of tile j sits in the merged data right after all samples of tiles 0..j-1. |
| `SegmentMerger.MergedShape` | st_render5.2_py/segment_merger.py:103-112 | Tiles of one width w, each of w*height samples, concatenate to w*(total height) samples. |
| `SegmentMerger.MergedRecordShape` | st_render5.2_py/segment_merger.py:98-121 | A merged record has width*height samples, so it reshapes like a single tile. |
| `SegmentMerger.FirstMismatchReported` | st_render5.2_py/segment_merger.py:98-101 | A width error names the first segment (from 1) whose width differs from segment 1's. It reports that width and the expected one. All earlier files were read and matched. |
| `SegmentMerger.PlanRead` | st_render5.2_py/segment_merger.py:156-188 | Discovery aborts with IndexError iff three things hold: auto-merge is on, the path has a segment number, and the path has two or more slots. Merging happens iff auto-merge is on, the path has a segment number, and discovery found at least two segments. It then merges exactly the segments found. |
| `SegmentMerger.FullRead` | st_render5.2_py/segment_merger.py:142-188 | Every record `read_hsd_full` returns has width*height samples, whether it was read alone or merged. |
| `SegmentMerger.OneSegmentReadsOriginal` | st_render5.2_py/segment_merger.py:178-182 | When discovery finds exactly one segment, the result is reading the original path, not the path found. |
| `SegmentMerger.MultiSlotPathRaises` | st_render5.2_py/segment_merger.py:46-53 | A segmented path with two non-overlapping `_Sdddd` slots, such as one with a matching directory name, makes `read_hsd_full` raise IndexError whatever the file system holds. |
| `SegmentMerger.ReadHsdFull` | st_render5.2_py/segment_merger.py:142-188 | The method computes `FullRead`, passing on the IndexError of segment discovery. |
| `Cli.CommandOf` | st_render5.2_py/main.py:223-228 | A word is a command iff it is `hsdfile`, `goesncfile` or `rgbfile`. |
| `Cli.Next` | st_render5.2_py/main.py:229-254 | Each iteration advances the index and stays within argv. |
| `Cli.Words` | st_render5.2_py/main.py:220-254 | The positions the loop examines lie between its start and the end of argv. |
| `Cli.Convert` | st_render5.2_py/main.py:241-252 | Stored values have their key's type: an int for color, a float for gamma, text otherwise. Conversion fails iff `int()` or `float()` rejects the word. |
| `Cli.Scan` | st_render5.2_py/main.py:220-254 | A successful scan only adds stored keys, and a command once set stays set. |
| `Cli.ParseArgs` | st_render5.2_py/main.py:216-254 | The while loop over argv computes `Scan` from index 1. |
| `Cli.LastValueAt` | st_render5.2_py/main.py:229-252 | The last examined position where `key` stores its following word, or none when no position stores it. |
| `Cli.ScanStep` | st_render5.2_py/main.py:220-254 | A scan is one iteration followed by the scan of the rest. |
| `Cli.WordsStep` | st_render5.2_py/main.py:220-254 | The examined positions are this one followed by those after the step. |
| `Cli.LastCommandPrepend` | st_render5.2_py/main.py:223-228 | A later command word overrides an earlier one. |
| `Cli.LastValuePrepend` | st_render5.2_py/main.py:229-252 | A later store of a key overrides an earlier one. |
| `Cli.ScanWellTyped` | st_render5.2_py/main.py:241-252 | A successful scan stores only well-typed values. |
| `Cli.ScanCommand` | st_render5.2_py/main.py:223-228 | The command is the last command word examined, or none. |
| `Cli.ScanKeys` | st_render5.2_py/main.py:229-252 | A key is stored iff some examined position stores it. |
| `Cli.ScanKeeps` | st_render5.2_py/main.py:229-252 | A key no later position stores keeps its value. |
| `Cli.ScanLastValue` | st_render5.2_py/main.py:229-252 | The stored value is the conversion of the word after the key's last storing position. |
| `Cli.ScanFailure` | st_render5.2_py/main.py:241-252 | The scan raises iff some examined color/gamma word fails to convert. |
| `Cli.TrailingKeywordIgnored` | st_render5.2_py/main.py:229-250 | A keyword with no following word is skipped: argv with or without it scans alike. |
| `Cli.OutputPath` | st_render5.2_py/main.py:22-57 | `get_output_path` has four cases. Outpic and outdir together give the outdir joined with outpic's basename. Outpic alone is used as is. Outdir alone gives the outdir joined with the input's basename plus `.png`. Neither gives the input plus `.png`. |
| `Cli.RgbOutputPath` | st_render5.2_py/main.py:293-296 | Without outdir, the rgb output is outpic, defaulting to `rgb_composite.png`. |
| `Cli.EmptyNamesAreAbsent` | st_render5.2_py/main.py:34-49 | An empty outpic behaves as an absent one. |
| `Cli.NamedOutputIgnoresInput` | st_render5.2_py/main.py:34-42 | With outpic given, the input path plays no part. |
| `Cli.RgbOutputPathIsOutputPath` | st_render5.2_py/main.py:293-296 | The rgb rule is `get_output_path` with outpic defaulted to `rgb_composite.png`. This excludes an empty outpic, which `get_output_path` would treat as absent. |
| `Cli.TextArg` | st_render5.2_py/main.py:279-282 | `args.get(key)` is present iff the key was stored. |
| `Cli.Dispatch` | st_render5.2_py/main.py:256-306 | After parsing, the program either prints usage or starts a command. |
| `Cli.Invocation` | st_render5.2_py/main.py:206-254 | Help is shown iff argv has at most two words. Parsing raises iff a longer argv has a color/gamma word that fails to convert. |
| `Cli.RunCommandLine` | st_render5.2_py/main.py:206-306 | `main()` up to the command it starts computes `Invocation`. |
| `Cli.ExitStatus` | st_render5.2_py/main.py:206-321 | The exit status is 0 iff help was shown or a started command did not raise. Otherwise it is 1. |
| `Cli.UsageOfParsed` | st_render5.2_py/main.py:256-271 | Usage is printed iff there is no command, rgb lacks red/green/blue, or hsd/goes lacks file/color. |
| `Cli.UsageCases` | st_render5.2_py/main.py:256-271 | The same condition, stated on argv: the last command word and which keywords were supplied with a following word. |
| `Cli.HsdCommandOfParsed` | st_render5.2_py/main.py:277-284 | An hsd render takes exactly the stored file and color, and the outpic and outdir as `args.get` gives them. |
| `Cli.GoesCommandOfParsed` | st_render5.2_py/main.py:285-291 | A GOES render takes exactly the stored file and color, and the outpic and outdir as `args.get` gives them. |
| `Cli.RgbCommandOfParsed` | st_render5.2_py/main.py:292-306 | An rgb composite takes the stored red, green and blue files and the rgb output name. Its gamma is the stored one, or 2.2 when none was stored. |
| `Cli.HsdRenderArguments` | st_render5.2_py/main.py:277-284 | An hsd render is started only by `hsdfile` as the last command word. Its file is the word after the last storing `file`, and its color is `int()` of the word after the last storing `color`. |
| `Cli.ColourRamp` | st_render5.2_py/main.py:92-99 | Color 1, 2 and 3 select BD, Color2 and WVNRL. Every other value selects grayscale at the tile's bit depth. |
| `Cli.HsdRamp` | st_render5.2_py/main.py:84-102 | A colour ramp is used iff the band is above 3 and color is 1 to 3. Otherwise, and so always for bands 1 to 3, grayscale is used at the tile's bit depth. |
| `Cli.GoesRamp` | st_render5.2_py/main.py:146-153 | GOES uses grayscale iff color is not 1 to 3, and then at 14 bits. |
| `Cli.GoesRampIsHsdRampAt14Bits` | st_render5.2_py/main.py:146-153 | GOES picks the same ramp as an infrared HSD band, with grayscale at 14 bits. |
| `Cli.Pixels` | st_render5.2_py/main.py:84-102 | Grayscale gives one pixel per sample, and the other ramps give one per temperature. |
| `Cli.HsdRendering` | st_render5.2_py/main.py:60-102 | The render fails with a read error iff `hsd_read` fails. A calibration error happens only for a band above 3, and it is the error `hsd_calibration` raises. |
| `Cli.HsdRender` | st_render5.2_py/main.py:60-110 | `hsd_render` computes the output path and the `HsdRendering` chain: read with debug on, calibrate only for band > 3, then apply the ramp. |
| `Cli.InfraredPixels` | st_render5.2_py/main.py:92-99 | The colour switch computes the pixels of `ColourRamp`. |
| `Cli.RenderedImageFitsTile` | st_render5.2_py/main.py:108 | A rendered image has width*height pixels, so it reshapes to (height, width, 3). |
| `Cli.MidInfraredBandsOutcome` | st_render5.2_py/main.py:84-87 | Bands 4 to 6 carry zero constants, yet `hsd_render` calibrates them whatever the colour. It raises OverflowError when wl**5 overflows and ZeroDivisionError for any other finite wavelength. Only an infinite or NaN wavelength renders, and then only a non-empty tile. |
| `Cli.VisibleBandsIgnoreColor` | st_render5.2_py/main.py:100-102 | Bands 1 to 3 render the same grayscale image whatever the colour and the Planck model. |

## Left out

- Floating point is not modelled.
  - Temperatures are exact reals, so rounding, NaN and infinities do not
    appear.
  - Doubles read from the file stay opaque eight-byte values.
  - The Planck inversion, the logarithm and the precomputed constants are
    the parameter `PlanckModel`: whether wl**5 overflows, whether the two
    divisions are by non-zero values, and the temperature of a raw value.
    `Sound` fixes what Python float arithmetic implies. A zero Boltzmann
    constant with a finite, non-overflowing wavelength makes k*wl zero. An
    infinite or NaN wavelength makes no divisor zero. Only a finite
    wavelength can overflow.
  - `Calibration.Finite` reads the exponent bits of the stored double. The
    model does not compute which finite wavelengths overflow (those above
    about 1.6e67) or when k*wl underflows to zero for a non-zero k.
- `Calibration.HsdCalibration`: the tile is a value. The method returns
  the updated record, where the source assigns `hs_data.temp` in place.
- `Calibration.Calibrate`: a non-positive argument to the logarithm is the
  model's concern only through `tb`. The code emits no 0 K sentinel for it,
  and neither does the model.
- I/O and its side effects are left out:
  - the bz2 decompression writing the DAT file to disk (`DecompressBz2`
    only says whether it happens and where);
  - the `delete_dat`/`os.remove` step;
  - `os.makedirs` in `get_output_path`;
  - every `print` and the help text;
  - timing;
  - `PIL` image saving.
- The `FileSystem` functions stand for the outside world: file existence,
  file contents and bz2 decompression.
  - `os.path.basename`/`os.path.join` are the parameter `PathOps`.
  - `int()`/`float()` parsing is the parameter `Converters`.
- `SegmentMerger.MergeSegments` takes the per-file reader as a parameter.
  `ReadHsdFull` passes `hsd_read(path, debug=False)` (`TileReader`).
  The `delete_dat` argument it forwards is not modelled.
- `SegmentMerger.Candidate`: the template's only fields are the rewritten
  slots.
  - Other braces in the path, which `str.format` would also read as
    fields or escapes, are not modelled.
  - `\d` matches only ASCII digits here; Python also matches other Unicode
    digits.
- There is no model of `goes_read`, `goes_calibration`, `image_enhance`,
  `rgb_composite` or `create_rgb_composite`.
  - `goes_render` is modelled only as its ramp choice (`GoesRamp`).
  - The `rgbfile` command is modelled up to its arguments and its output
    path (`RgbOutputPath`).
- `HsdReader.Samples`: `np.frombuffer` reads the samples in the host's
  byte order. The model assumes a little-endian host; on a big-endian host
  every sample would be byte-swapped.
- `Colorscale.CastU8`: the numpy cast of a float outside [0, 256) to
  `uint8` is platform-dependent. The channel is then `Unspecified`, not a
  wrapped byte.

## Notes on the code

- `hsd_render` calibrates bands 4 to 6 although their constants are 0.0.
  For a finite wavelength whose fifth power does not overflow, it raises
  ZeroDivisionError (`MidInfraredBandsOutcome`).
- `bd_scale_value` gives 120 for t ≤ 0. `bd_scale` leaves such pixels at
  0, as its comment on missing (0 K) values says (`BdScaleMatchesValue`).
- A path with a second `_Sdddd` slot, for instance in a directory name,
  makes `read_hsd_full` raise IndexError (`MultiSlotPathRaises`).
