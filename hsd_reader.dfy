/** The decoder of one Himawari Standard Data (HSD) tile file.

    The source walks a fixed little-endian byte layout with absolute and
    relative seeks on an open file. Here the open file is a `BinaryFile`
    (the file's bytes and a cursor), the walk is the method `HsdRead`, and
    `Decode` states the same layout directly by absolute offsets; `HsdRead`
    is proved to compute `Decode`.

    Eight-byte doubles are never interpreted: an `F64` keeps its eight bytes. */
module HsdReader {
  import opened Basics

  /** An IEEE-754 double, kept as its eight little-endian bytes. */
  datatype F64 = F64(bytes: seq<byte>)

  /** +0.0, whose encoding is eight zero bytes: the value the source gives
      the radiometric constants of bands 1 to 6. */
  const ZERO_F64: F64 := F64([0, 0, 0, 0, 0, 0, 0, 0])

  /** One decoded tile (the source's `HSData` record). `temp` is filled in
      by calibration. */
  datatype HSData = HSData(
    satelliteName: string,
    width: nat,
    height: nat,
    band: nat,
    wavelength: F64,
    bitNum: nat,
    slope: F64,
    intc: F64,
    c0: F64,
    c1: F64,
    c2: F64,
    c: F64,
    h: F64,
    k: F64,
    data: seq<u16>,
    temp: Option<seq<real>>)

  /** The field whose read came up short. */
  datatype Field =
    | Width | Height | Band | Wavelength | BitNum | Slope | Intercept
    | C0 | C1 | C2 | LightSpeed | PlanckConstant | BoltzmannConstant
    | Len8 | Len9 | Len10 | Payload

  datatype HsdError =
    | MalformedHeader(field: Field)  // struct.unpack or np.frombuffer given too few bytes
    | EmptyPayload                   // the debug print of data[0] on a zero-sized image
    | CannotOpen                     // open() or bz2.open() of a missing file
    | CannotDecompress               // a bz2 stream that does not decompress

  // Absolute offsets of the fields, as the source's seeks and reads place them.
  const NAME_OFFSET: nat := 6
  const NAME_SIZE: nat := 16
  const WIDTH_OFFSET: nat := 287
  const HEIGHT_OFFSET: nat := 289
  const BAND_OFFSET: nat := 601
  const WAVELENGTH_OFFSET: nat := 603
  const BIT_NUM_OFFSET: nat := 611
  const SLOPE_OFFSET: nat := 617
  const INTC_OFFSET: nat := 625
  const C0_OFFSET: nat := 633
  const C1_OFFSET: nat := 641
  const C2_OFFSET: nat := 649
  const LIGHT_SPEED_OFFSET: nat := 681
  const PLANCK_OFFSET: nat := 689
  const BOLTZMANN_OFFSET: nat := 697
  /** Where the calibration block ends, on either branch. */
  const CALIBRATION_END: nat := 745
  const LEN8_OFFSET: nat := 1052
  /** Bands above this carry radiometric constants in the header. */
  const LAST_UNCALIBRATED_BAND: nat := 6

  function Pow256(n: nat): (p: nat)
    ensures p >= 1
  {
    if n == 0 then 1 else 256 * Pow256(n - 1)
  }

  /** The unsigned little-endian integer whose bytes are `bs`. */
  function LittleEndian(bs: seq<byte>): (v: nat)
    ensures v < Pow256(|bs|)
  {
    if bs == [] then 0 else bs[0] + 256 * LittleEndian(bs[1..])
  }

  /** The `n` little-endian bytes of `x`. */
  function ToLittleEndian(x: nat, n: nat): (bs: seq<byte>)
    requires x < Pow256(n)
    ensures |bs| == n
  {
    if n == 0 then [] else [x % 256] + ToLittleEndian(x / 256, n - 1)
  }

  lemma {:induction false} LittleEndianRoundTrip(x: nat, n: nat)
    requires x < Pow256(n)
    ensures LittleEndian(ToLittleEndian(x, n)) == x
  {
    if n > 0 {
      LittleEndianRoundTrip(x / 256, n - 1);
      var bs := ToLittleEndian(x, n);
      assert bs[1..] == ToLittleEndian(x / 256, n - 1);
    }
  }

  /** struct.unpack('<H') of the two bytes at `off`. */
  function U16At(b: seq<byte>, off: nat): u16
    requires off + 2 <= |b|
  {
    LittleEndian(b[off..off + 2])
  }

  /** struct.unpack('<I') of the four bytes at `off`. */
  function U32At(b: seq<byte>, off: nat): nat
    requires off + 4 <= |b|
  {
    LittleEndian(b[off..off + 4])
  }

  /** The eight bytes of the double at `off`. */
  function F64At(b: seq<byte>, off: nat): F64
    requires off + 8 <= |b|
  {
    F64(b[off..off + 8])
  }

  /** Each two-byte group read little-endian: low byte first. */
  lemma SamplePairs(bs: seq<byte>, n: nat)
    requires |bs| == 2 * n
    ensures forall i :: 0 <= i < n ==>
              LittleEndian(bs[2 * i..2 * i + 2]) == bs[2 * i] as int + 256 * bs[2 * i + 1] as int
  {
    forall i | 0 <= i < n
      ensures LittleEndian(bs[2 * i..2 * i + 2]) == bs[2 * i] as int + 256 * bs[2 * i + 1] as int
    {
      var pair := bs[2 * i..2 * i + 2];
      assert pair[1..][1..] == [];
    }
  }

  /** np.frombuffer(bs, dtype=np.uint16, count=n) on a little-endian host. */
  function Samples(bs: seq<byte>, n: nat): (s: seq<u16>)
    requires |bs| == 2 * n
    ensures |s| == n
    ensures forall i :: 0 <= i < n ==> s[i] as int == bs[2 * i] as int + 256 * bs[2 * i + 1] as int
  {
    SamplePairs(bs, n);
    seq(n, i requires 0 <= i < n => LittleEndian(bs[2 * i..2 * i + 2]) as u16)
  }

  /** The bytes that Python's `read(n)` returns at position `pos`: fewer than
      `n` at the end of the file, none past it. */
  function ReadAt(content: seq<byte>, pos: nat, n: nat): (chunk: seq<byte>)
    ensures |chunk| <= n
    ensures n > 0 ==> (|chunk| == n <==> pos + n <= |content|)
    ensures pos + n <= |content| ==> chunk == content[pos..pos + n]
  {
    if pos >= |content| then [] else content[pos..Min(pos + n, |content|)]
  }

  /** bytes.decode('ascii', errors='ignore'): bytes above 127 are dropped. */
  function AsciiChars(raw: seq<byte>): (s: string)
    ensures |s| <= |raw|
    ensures forall i :: 0 <= i < |s| ==> s[i] as int < 128
    ensures (forall i :: 0 <= i < |raw| ==> raw[i] < 128) ==>
              |s| == |raw| && forall i :: 0 <= i < |s| ==> s[i] as int == raw[i]
    ensures |raw| == 1 ==> s == if raw[0] < 128 then [raw[0] as char] else ""
  {
    if raw == [] then ""
    else (if raw[0] < 128 then [raw[0] as char] else []) + AsciiChars(raw[1..])
  }

  /** The decoding works byte by byte: the ASCII bytes of a field are kept
      in order, whatever surrounds them. */
  lemma {:induction false} AsciiCharsConcat(a: seq<byte>, b: seq<byte>)
    ensures AsciiChars(a + b) == AsciiChars(a) + AsciiChars(b)
  {
    if a == [] {
      assert a + b == b;
    } else {
      assert (a + b)[0] == a[0] && (a + b)[1..] == a[1..] + b;
      AsciiCharsConcat(a[1..], b);
    }
  }

  /** The number of NUL characters at the start of `s`. */
  function LeadingNuls(s: string): (k: nat)
    ensures k <= |s|
    ensures forall i :: 0 <= i < k ==> s[i] == '\0'
    ensures k < |s| ==> s[k] != '\0'
  {
    if s != [] && s[0] == '\0' then 1 + LeadingNuls(s[1..]) else 0
  }

  /** The number of NUL characters at the end of `s`. */
  function TrailingNuls(s: string): (k: nat)
    ensures k <= |s|
    ensures forall i :: |s| - k <= i < |s| ==> s[i] == '\0'
    ensures k < |s| ==> s[|s| - 1 - k] != '\0'
  {
    if s != [] && s[|s| - 1] == '\0' then 1 + TrailingNuls(s[..|s| - 1]) else 0
  }

  /** str.strip('\x00'): the longest middle part of `s` that neither starts
      nor ends with NUL. */
  function StripNul(s: string): (r: string)
    ensures r == [] || (r[0] != '\0' && r[|r| - 1] != '\0')
    ensures LeadingNuls(s) + |r| <= |s| && r == s[LeadingNuls(s)..LeadingNuls(s) + |r|]
    ensures forall i :: LeadingNuls(s) + |r| <= i < |s| ==> s[i] == '\0'
    ensures (forall i :: 0 <= i < |s| ==> s[i] != '\0') ==> r == s
    ensures (forall i :: 0 <= i < |s| ==> s[i] == '\0') ==> r == []
  {
    var a := LeadingNuls(s);
    var rest := s[a..];
    var r := rest[..|rest| - TrailingNuls(rest)];
    assert r == s[a..a + |r|];
    r
  }

  /** The satellite name as the source derives it from its 16 raw bytes. */
  function AsciiName(raw: seq<byte>): string
  {
    StripNul(AsciiChars(raw))
  }

  /** The fields that precede the calibration block. */
  datatype FixedHeader = FixedHeader(
    name: string,
    width: u16,
    height: u16,
    band: u16,
    wavelength: F64,
    bitNum: u16,
    slope: F64,
    intc: F64)

  /** The radiometric constants of the calibration block. */
  datatype Constants = Constants(c0: F64, c1: F64, c2: F64, c: F64, h: F64, k: F64)

  const ZERO_CONSTANTS: Constants :=
    Constants(ZERO_F64, ZERO_F64, ZERO_F64, ZERO_F64, ZERO_F64, ZERO_F64)

  /** The first fixed field that a file of |b| bytes is too short for. The
      name read and the unused one-byte read never fail by themselves. */
  function FixedHeaderShortField(b: seq<byte>): Option<Field>
  {
    if |b| < WIDTH_OFFSET + 2 then Some(Width)
    else if |b| < HEIGHT_OFFSET + 2 then Some(Height)
    else if |b| < BAND_OFFSET + 2 then Some(Band)
    else if |b| < WAVELENGTH_OFFSET + 8 then Some(Wavelength)
    else if |b| < BIT_NUM_OFFSET + 2 then Some(BitNum)
    else if |b| < SLOPE_OFFSET + 8 then Some(Slope)
    else if |b| < INTC_OFFSET + 8 then Some(Intercept)
    else None
  }

  function FixedHeaderAt(b: seq<byte>): FixedHeader
    requires |b| >= C0_OFFSET
  {
    FixedHeader(
      AsciiName(b[NAME_OFFSET..NAME_OFFSET + NAME_SIZE]),
      U16At(b, WIDTH_OFFSET),
      U16At(b, HEIGHT_OFFSET),
      U16At(b, BAND_OFFSET),
      F64At(b, WAVELENGTH_OFFSET),
      U16At(b, BIT_NUM_OFFSET),
      F64At(b, SLOPE_OFFSET),
      F64At(b, INTC_OFFSET))
  }

  /** The first constant that a file of |b| bytes is too short for; bands up
      to 6 skip the block without reading it. */
  function ConstantsShortField(b: seq<byte>, band: nat): Option<Field>
  {
    if band <= LAST_UNCALIBRATED_BAND then None
    else if |b| < C0_OFFSET + 8 then Some(C0)
    else if |b| < C1_OFFSET + 8 then Some(C1)
    else if |b| < C2_OFFSET + 8 then Some(C2)
    else if |b| < LIGHT_SPEED_OFFSET + 8 then Some(LightSpeed)
    else if |b| < PLANCK_OFFSET + 8 then Some(PlanckConstant)
    else if |b| < BOLTZMANN_OFFSET + 8 then Some(BoltzmannConstant)
    else None
  }

  function ConstantsAt(b: seq<byte>, band: nat): Constants
    requires ConstantsShortField(b, band).None?
  {
    if band <= LAST_UNCALIBRATED_BAND then ZERO_CONSTANTS
    else
      Constants(
        F64At(b, C0_OFFSET), F64At(b, C1_OFFSET), F64At(b, C2_OFFSET),
        F64At(b, LIGHT_SPEED_OFFSET), F64At(b, PLANCK_OFFSET), F64At(b, BOLTZMANN_OFFSET))
  }

  /** The first of the three length fields (len8, len9, len10) that the file
      is too short for. Each is read where the previous section ends. */
  function SectionsShortField(b: seq<byte>): Option<Field>
  {
    if |b| < LEN8_OFFSET + 2 then Some(Len8)
    else
      var len9At := LEN8_OFFSET + U16At(b, LEN8_OFFSET);
      if |b| < len9At + 2 then Some(Len9)
      else
        var len10At := len9At + U16At(b, len9At);
        if |b| < len10At + 4 then Some(Len10) else None
  }

  /** Where the sample payload starts: a 307-byte skip after the calibration
      block, the three length-prefixed sections, then a 254-byte skip. */
  function PayloadOffset(b: seq<byte>): (at: nat)
    requires SectionsShortField(b).None?
    ensures at == 1310 + U16At(b, LEN8_OFFSET)
                    + U16At(b, LEN8_OFFSET + U16At(b, LEN8_OFFSET))
                    + U32At(b, LEN8_OFFSET + U16At(b, LEN8_OFFSET)
                               + U16At(b, LEN8_OFFSET + U16At(b, LEN8_OFFSET)))
  {
    var len9At := LEN8_OFFSET + U16At(b, LEN8_OFFSET);
    var len10At := len9At + U16At(b, len9At);
    len10At + 4 + U32At(b, len10At) + 254
  }

  function Record(hd: FixedHeader, cs: Constants, data: seq<u16>): HSData
  {
    HSData(hd.name, hd.width, hd.height, hd.band, hd.wavelength, hd.bitNum, hd.slope, hd.intc,
           cs.c0, cs.c1, cs.c2, cs.c, cs.h, cs.k, data, None)
  }

  /** The last step: width*height samples at `at`, or a failure. */
  function DecodePayload(b: seq<byte>, debug: bool, hd: FixedHeader, cs: Constants, at: nat)
    : (r: Result<HSData, HsdError>)
    ensures r.Failure? <==>
              (hd.width * hd.height > 0 && |b| < at + 2 * hd.width * hd.height)
              || (debug && hd.width * hd.height == 0)
    ensures r.Success? ==>
              |r.value.data| == hd.width * hd.height
              && r.value.width == hd.width && r.value.height == hd.height && r.value.temp.None?
    ensures r.Success? ==> forall i :: 0 <= i < |r.value.data| ==>
              r.value.data[i] as int == b[at + 2 * i] as int + 256 * b[at + 2 * i + 1] as int
  {
    var n := hd.width * hd.height;
    if n > 0 && |b| < at + 2 * n then Failure(MalformedHeader(Payload))
    else if debug && n == 0 then Failure(EmptyPayload)
    else if n == 0 then Success(Record(hd, cs, []))
    else
      PayloadSamples(b, at, n);
      Success(Record(hd, cs, Samples(b[at..at + 2 * n], n)))
  }

  /** The samples of the payload slice, by their absolute byte offsets. */
  lemma PayloadSamples(b: seq<byte>, at: nat, n: nat)
    requires at + 2 * n <= |b|
    ensures var d := Samples(b[at..at + 2 * n], n);
      forall i :: 0 <= i < n ==> d[i] as int == b[at + 2 * i] as int + 256 * b[at + 2 * i + 1] as int
  {
    var payload := b[at..at + 2 * n];
    forall i | 0 <= i < n
      ensures payload[2 * i] == b[at + 2 * i] && payload[2 * i + 1] == b[at + 2 * i + 1]
    {
    }
  }

  /** The decoding of a whole container, stated by absolute offsets. */
  function Decode(b: seq<byte>, debug: bool): (r: Result<HSData, HsdError>)
    ensures r.Success? ==>
              |r.value.data| == r.value.width * r.value.height
              && r.value.width < 0x1_0000 && r.value.height < 0x1_0000
              && r.value.band < 0x1_0000 && r.value.bitNum < 0x1_0000
              && r.value.temp.None?
    ensures r.Success? && r.value.band <= LAST_UNCALIBRATED_BAND ==>
              r.value.c0 == r.value.c1 == r.value.c2 == ZERO_F64
              && r.value.c == r.value.h == r.value.k == ZERO_F64
    ensures r.Success? ==> |b| >= LEN8_OFFSET + 2
  {
    match FixedHeaderShortField(b)
    case Some(field) => Failure(MalformedHeader(field))
    case None =>
      var hd := FixedHeaderAt(b);
      match ConstantsShortField(b, hd.band)
      case Some(field) => Failure(MalformedHeader(field))
      case None =>
        match SectionsShortField(b)
        case Some(field) => Failure(MalformedHeader(field))
        case None => DecodePayload(b, debug, hd, ConstantsAt(b, hd.band), PayloadOffset(b))
  }

  /** An open binary file: its bytes and the position of the cursor. */
  class BinaryFile {
    const content: seq<byte>
    var pos: nat

    constructor Open(bytes: seq<byte>)
      ensures content == bytes && pos == 0
    {
      content := bytes;
      pos := 0;
    }

    /** fp.seek(offset): an absolute seek, allowed past the end. */
    method SeekTo(offset: nat)
      modifies this
      ensures pos == offset
    {
      pos := offset;
    }

    /** fp.seek(delta, 1): a relative seek; Python refuses a negative target. */
    method SeekBy(delta: int)
      requires pos + delta >= 0
      modifies this
      ensures pos == old(pos) + delta
    {
      pos := pos + delta;
    }

    /** fp.read(n). */
    method Read(n: nat) returns (chunk: seq<byte>)
      modifies this
      ensures chunk == ReadAt(content, old(pos), n)
      ensures pos == old(pos) + |chunk|
    {
      chunk := ReadAt(content, pos, n);
      pos := pos + |chunk|;
    }
  }

  /** struct.unpack('<H', fp.read(2)); None where unpack raises. */
  method ReadU16(f: BinaryFile) returns (v: Option<u16>)
    modifies f
    ensures v == if old(f.pos) + 2 <= |f.content| then Some(U16At(f.content, old(f.pos))) else None
    ensures f.pos == old(f.pos) + |ReadAt(f.content, old(f.pos), 2)|
  {
    var chunk := f.Read(2);
    if |chunk| == 2 {
      v := Some(LittleEndian(chunk) as u16);
    } else {
      v := None;
    }
  }

  /** struct.unpack('<I', fp.read(4)); None where unpack raises. */
  method ReadU32(f: BinaryFile) returns (v: Option<nat>)
    modifies f
    ensures v == if old(f.pos) + 4 <= |f.content| then Some(U32At(f.content, old(f.pos))) else None
    ensures f.pos == old(f.pos) + |ReadAt(f.content, old(f.pos), 4)|
  {
    var chunk := f.Read(4);
    if |chunk| == 4 {
      v := Some(LittleEndian(chunk));
    } else {
      v := None;
    }
  }

  /** struct.unpack('<d', fp.read(8)), keeping the eight bytes. */
  method ReadF64(f: BinaryFile) returns (v: Option<F64>)
    modifies f
    ensures v == if old(f.pos) + 8 <= |f.content| then Some(F64At(f.content, old(f.pos))) else None
    ensures f.pos == old(f.pos) + |ReadAt(f.content, old(f.pos), 8)|
  {
    var chunk := f.Read(8);
    if |chunk| == 8 {
      v := Some(F64(chunk));
    } else {
      v := None;
    }
  }

  /** The reads up to the calibration block: the name, the unused byte,
      width, height, band, wavelength, bit depth, slope and intercept. */
  method ReadFixedHeader(f: BinaryFile) returns (r: Result<FixedHeader, Field>)
    modifies f
    ensures FixedHeaderShortField(f.content).Some? ==>
              r == Failure(FixedHeaderShortField(f.content).value)
    ensures FixedHeaderShortField(f.content).None? ==>
              r == Success(FixedHeaderAt(f.content)) && f.pos == C0_OFFSET
  {
    ghost var b := f.content;
    f.SeekTo(NAME_OFFSET);
    var nameBytes := f.Read(NAME_SIZE);
    f.SeekBy(260);
    var unused := f.Read(1);
    f.SeekBy(4);
    var width := ReadU16(f);
    if width.None? {
      return Failure(Width);
    }
    assert |b| >= WIDTH_OFFSET + 2 && nameBytes == b[NAME_OFFSET..NAME_OFFSET + NAME_SIZE];
    var height := ReadU16(f);
    if height.None? {
      return Failure(Height);
    }
    f.SeekBy(41);
    f.SeekBy(269);
    var band := ReadU16(f);
    if band.None? {
      return Failure(Band);
    }
    var wavelength := ReadF64(f);
    if wavelength.None? {
      return Failure(Wavelength);
    }
    var bitNum := ReadU16(f);
    if bitNum.None? {
      return Failure(BitNum);
    }
    f.SeekBy(4);
    var slope := ReadF64(f);
    if slope.None? {
      return Failure(Slope);
    }
    var intc := ReadF64(f);
    if intc.None? {
      return Failure(Intercept);
    }
    r := Success(FixedHeader(AsciiName(nameBytes), width.value, height.value, band.value,
                             wavelength.value, bitNum.value, slope.value, intc.value));
  }

  /** The calibration block: six constants and two skips above band 6, a
      112-byte skip otherwise; both end at the same offset. */
  method ReadConstants(f: BinaryFile, band: nat) returns (r: Result<Constants, Field>)
    requires f.pos == C0_OFFSET
    modifies f
    ensures ConstantsShortField(f.content, band).Some? ==>
              r == Failure(ConstantsShortField(f.content, band).value)
    ensures ConstantsShortField(f.content, band).None? ==>
              r == Success(ConstantsAt(f.content, band)) && f.pos == CALIBRATION_END
  {
    if band > LAST_UNCALIBRATED_BAND {
      var c0 := ReadF64(f);
      if c0.None? {
        return Failure(C0);
      }
      var c1 := ReadF64(f);
      if c1.None? {
        return Failure(C1);
      }
      var c2 := ReadF64(f);
      if c2.None? {
        return Failure(C2);
      }
      f.SeekBy(24);
      var c := ReadF64(f);
      if c.None? {
        return Failure(LightSpeed);
      }
      var h := ReadF64(f);
      if h.None? {
        return Failure(PlanckConstant);
      }
      var k := ReadF64(f);
      if k.None? {
        return Failure(BoltzmannConstant);
      }
      f.SeekBy(40);
      r := Success(Constants(c0.value, c1.value, c2.value, c.value, h.value, k.value));
    } else {
      f.SeekBy(112);
      r := Success(ZERO_CONSTANTS);
    }
  }

  /** The skips and the three length-prefixed sections before the payload.
      The seeks by len8 - 2 and len9 - 2 go backwards when a length is below
      2, but never before the start of the file. */
  method SkipSections(f: BinaryFile) returns (short: Option<Field>)
    requires f.pos == CALIBRATION_END
    modifies f
    ensures short == SectionsShortField(f.content)
    ensures short.None? ==> f.pos == PayloadOffset(f.content)
  {
    f.SeekBy(1 + 47 + 258 + 1);
    var len8 := ReadU16(f);
    if len8.None? {
      return Some(Len8);
    }
    f.SeekBy(len8.value as int - 2);
    var len9 := ReadU16(f);
    if len9.None? {
      return Some(Len9);
    }
    f.SeekBy(len9.value as int - 2);
    var len10 := ReadU32(f);
    if len10.None? {
      return Some(Len10);
    }
    f.SeekBy(len10.value);
    f.SeekBy(254);
    short := None;
  }

  /** The sample payload: width*height little-endian 16-bit values. */
  method ReadPayload(f: BinaryFile, debug: bool, hd: FixedHeader, cs: Constants)
    returns (r: Result<HSData, HsdError>)
    modifies f
    ensures r == DecodePayload(f.content, debug, hd, cs, old(f.pos))
  {
    var n := hd.width * hd.height;
    var payload := f.Read(n * 2);
    if |payload| < n * 2 {
      return Failure(MalformedHeader(Payload));
    }
    var data := Samples(payload, n);
    if debug && n == 0 {
      return Failure(EmptyPayload);
    }
    if n == 0 {
      assert data == [];
    }
    r := Success(Record(hd, cs, data));
  }

  /** hsd_read on an open container: the cursor walk of the source. */
  method HsdRead(f: BinaryFile, debug: bool) returns (r: Result<HSData, HsdError>)
    modifies f
    ensures r == Decode(f.content, debug)
  {
    var hd := ReadFixedHeader(f);
    if hd.Failure? {
      return Failure(MalformedHeader(hd.error));
    }
    var cs := ReadConstants(f, hd.value.band);
    if cs.Failure? {
      return Failure(MalformedHeader(cs.error));
    }
    var short := SkipSections(f);
    if short.Some? {
      return Failure(MalformedHeader(short.value));
    }
    r := ReadPayload(f, debug, hd.value, cs.value);
  }

  // ---- Properties of the decoding -------------------------------------------

  /** Every fixed field is read at its absolute offset, little-endian. */
  lemma DecodedFieldOffsets(b: seq<byte>, debug: bool)
    requires Decode(b, debug).Success?
    ensures var t := Decode(b, debug).value;
      t.satelliteName == AsciiName(b[NAME_OFFSET..NAME_OFFSET + NAME_SIZE])
      && t.width == U16At(b, WIDTH_OFFSET) && t.height == U16At(b, HEIGHT_OFFSET)
      && t.band == U16At(b, BAND_OFFSET) && t.wavelength == F64At(b, WAVELENGTH_OFFSET)
      && t.bitNum == U16At(b, BIT_NUM_OFFSET)
      && t.slope == F64At(b, SLOPE_OFFSET) && t.intc == F64At(b, INTC_OFFSET)
    ensures var t := Decode(b, debug).value;
      t.band > LAST_UNCALIBRATED_BAND ==>
        t.c0 == F64At(b, C0_OFFSET) && t.c1 == F64At(b, C1_OFFSET) && t.c2 == F64At(b, C2_OFFSET)
        && t.c == F64At(b, LIGHT_SPEED_OFFSET) && t.h == F64At(b, PLANCK_OFFSET)
        && t.k == F64At(b, BOLTZMANN_OFFSET)
  {
  }

  /** The payload is width*height samples in file order, starting at the
      payload offset; a file too short for them is never decoded (a
      zero-sized image reads no bytes, wherever the file ends). */
  lemma DecodedSamplesInFileOrder(b: seq<byte>, debug: bool)
    requires Decode(b, debug).Success?
    ensures SectionsShortField(b).None?
    ensures |Decode(b, debug).value.data| > 0 ==>
              |b| >= PayloadOffset(b) + 2 * |Decode(b, debug).value.data|
    ensures var d := Decode(b, debug).value.data;
      forall i :: 0 <= i < |d| ==> d[i] == U16At(b, PayloadOffset(b) + 2 * i)
  {
    var hd := FixedHeaderAt(b);
    var at := PayloadOffset(b);
    var r := DecodePayload(b, debug, hd, ConstantsAt(b, hd.band), at);
    assert Decode(b, debug) == r;
    PayloadInFileOrder(b, debug, hd, ConstantsAt(b, hd.band), at);
  }

  lemma PayloadInFileOrder(b: seq<byte>, debug: bool, hd: FixedHeader, cs: Constants, at: nat)
    requires DecodePayload(b, debug, hd, cs, at).Success?
    ensures |DecodePayload(b, debug, hd, cs, at).value.data| > 0 ==>
              |b| >= at + 2 * |DecodePayload(b, debug, hd, cs, at).value.data|
    ensures var d := DecodePayload(b, debug, hd, cs, at).value.data;
      forall i :: 0 <= i < |d| ==> d[i] == U16At(b, at + 2 * i)
  {
    var d := DecodePayload(b, debug, hd, cs, at).value.data;
    forall i | 0 <= i < |d|
      ensures d[i] == U16At(b, at + 2 * i)
    {
      LittleEndianPair(b[at + 2 * i..at + 2 * i + 2]);
    }
  }

  /** Whether the file decodes never depends on the band: every file long
      enough for the first section length covers the calibration block, so
      neither branch of the block can come up short. */
  lemma BandNeverDecidesFailure(b: seq<byte>, band: nat)
    requires |b| >= LEN8_OFFSET + 2
    ensures ConstantsShortField(b, band).None?
  {
  }

  // ---- A reference encoding ---------------------------------------------------

  /** A tile that the container layout can carry: an ASCII name of at most
      16 characters without NUL, 16-bit numbers, eight-byte doubles, zero
      constants below band 7, and width*height samples. */
  predicate WellFormed(t: HSData)
  {
    |t.satelliteName| <= NAME_SIZE
    && (forall i :: 0 <= i < |t.satelliteName| ==> 0 < t.satelliteName[i] as int < 128)
    && t.width < 0x1_0000 && t.height < 0x1_0000 && t.band < 0x1_0000 && t.bitNum < 0x1_0000
    && |t.wavelength.bytes| == 8 && |t.slope.bytes| == 8 && |t.intc.bytes| == 8
    && |t.c0.bytes| == 8 && |t.c1.bytes| == 8 && |t.c2.bytes| == 8
    && |t.c.bytes| == 8 && |t.h.bytes| == 8 && |t.k.bytes| == 8
    && (t.band <= LAST_UNCALIBRATED_BAND ==>
          t.c0 == t.c1 == t.c2 == t.c == t.h == t.k == ZERO_F64)
    && |t.data| == t.width * t.height
    && t.temp.None?
  }

  /** Byte `j` (0 or 1) of the little-endian encoding of a 16-bit value. */
  function U16Byte(x: u16, j: nat): byte
  {
    if j == 0 then x % 256 else x / 256
  }

  lemma LittleEndianPair(bs: seq<byte>)
    requires |bs| == 2
    ensures LittleEndian(bs) == (bs[0] as int) + 256 * (bs[1] as int)
  {
    assert bs[1..][1..] == [];
  }

  lemma LittleEndianZeros(bs: seq<byte>)
    requires forall i :: 0 <= i < |bs| ==> bs[i] == 0
    ensures LittleEndian(bs) == 0
  {
    if bs != [] {
      LittleEndianZeros(bs[1..]);
    }
  }

  /** The size of the encoded header: the payload follows 2-byte sections
      8 and 9 and an empty section 10. */
  const ENCODED_PAYLOAD_OFFSET: nat := 1314

  /** Byte `i` of the encoded header of `t`; unused bytes are zero. */
  function HeaderByte(t: HSData, i: nat): byte
    requires WellFormed(t)
  {
    if NAME_OFFSET <= i < NAME_OFFSET + NAME_SIZE then
      (if i - NAME_OFFSET < |t.satelliteName| then t.satelliteName[i - NAME_OFFSET] as int else 0)
    else if WIDTH_OFFSET <= i < WIDTH_OFFSET + 2 then U16Byte(t.width, i - WIDTH_OFFSET)
    else if HEIGHT_OFFSET <= i < HEIGHT_OFFSET + 2 then U16Byte(t.height, i - HEIGHT_OFFSET)
    else if BAND_OFFSET <= i < BAND_OFFSET + 2 then U16Byte(t.band, i - BAND_OFFSET)
    else if WAVELENGTH_OFFSET <= i < WAVELENGTH_OFFSET + 8 then t.wavelength.bytes[i - WAVELENGTH_OFFSET]
    else if BIT_NUM_OFFSET <= i < BIT_NUM_OFFSET + 2 then U16Byte(t.bitNum, i - BIT_NUM_OFFSET)
    else if SLOPE_OFFSET <= i < SLOPE_OFFSET + 8 then t.slope.bytes[i - SLOPE_OFFSET]
    else if INTC_OFFSET <= i < INTC_OFFSET + 8 then t.intc.bytes[i - INTC_OFFSET]
    else if C0_OFFSET <= i < C0_OFFSET + 8 then t.c0.bytes[i - C0_OFFSET]
    else if C1_OFFSET <= i < C1_OFFSET + 8 then t.c1.bytes[i - C1_OFFSET]
    else if C2_OFFSET <= i < C2_OFFSET + 8 then t.c2.bytes[i - C2_OFFSET]
    else if LIGHT_SPEED_OFFSET <= i < LIGHT_SPEED_OFFSET + 8 then t.c.bytes[i - LIGHT_SPEED_OFFSET]
    else if PLANCK_OFFSET <= i < PLANCK_OFFSET + 8 then t.h.bytes[i - PLANCK_OFFSET]
    else if BOLTZMANN_OFFSET <= i < BOLTZMANN_OFFSET + 8 then t.k.bytes[i - BOLTZMANN_OFFSET]
    else if i == LEN8_OFFSET || i == LEN8_OFFSET + 2 then 2
    else 0
  }

  /** The samples as little-endian byte pairs. */
  function PayloadBytes(d: seq<u16>): (bs: seq<byte>)
    ensures |bs| == 2 * |d|
  {
    seq(2 * |d|, i requires 0 <= i < 2 * |d| => U16Byte(d[i / 2], i % 2))
  }

  /** A container file holding `t`. */
  function Encode(t: HSData): (b: seq<byte>)
    requires WellFormed(t)
    ensures |b| == ENCODED_PAYLOAD_OFFSET + 2 * |t.data|
  {
    seq(ENCODED_PAYLOAD_OFFSET, i requires 0 <= i < ENCODED_PAYLOAD_OFFSET => HeaderByte(t, i))
      + PayloadBytes(t.data)
  }

  lemma EncodedU16(t: HSData, off: nat, x: u16)
    requires WellFormed(t) && off + 2 <= ENCODED_PAYLOAD_OFFSET
    requires HeaderByte(t, off) == U16Byte(x, 0) && HeaderByte(t, off + 1) == U16Byte(x, 1)
    ensures U16At(Encode(t), off) == x
  {
    LittleEndianPair(Encode(t)[off..off + 2]);
  }

  lemma EncodedF64(t: HSData, off: nat, x: F64)
    requires WellFormed(t) && off + 8 <= ENCODED_PAYLOAD_OFFSET && |x.bytes| == 8
    requires forall j :: 0 <= j < 8 ==> HeaderByte(t, off + j) == x.bytes[j]
    ensures F64At(Encode(t), off) == x
  {
    var b := Encode(t);
    assert b[off..off + 8] == x.bytes;
  }

  /** Stripping the NUL padding after a NUL-free name gives the name back. */
  lemma StripPadding(s: string, name: string)
    requires |name| <= |s| && s[..|name|] == name
    requires forall i :: 0 <= i < |name| ==> name[i] != '\0'
    requires forall i :: |name| <= i < |s| ==> s[i] == '\0'
    ensures StripNul(s) == name
  {
    var r := StripNul(s);
    if name == [] {
      assert forall i :: 0 <= i < |s| ==> s[i] == '\0';
    } else {
      assert s[0] == name[0];
      assert LeadingNuls(s) == 0;
      assert s[|name| - 1] == name[|name| - 1];
      assert |r| >= |name|;
      assert r[|r| - 1] == s[|r| - 1];
      assert |r| == |name|;
      assert r == s[..|name|];
    }
  }

  lemma EncodedName(t: HSData)
    requires WellFormed(t)
    ensures AsciiName(Encode(t)[NAME_OFFSET..NAME_OFFSET + NAME_SIZE]) == t.satelliteName
  {
    var raw := Encode(t)[NAME_OFFSET..NAME_OFFSET + NAME_SIZE];
    assert forall i :: 0 <= i < |raw| ==> raw[i] == HeaderByte(t, NAME_OFFSET + i);
    var s := AsciiChars(raw);
    var name := t.satelliteName;
    assert s[..|name|] == name;
    StripPadding(s, name);
  }

  lemma EncodedPayload(d: seq<u16>)
    ensures Samples(PayloadBytes(d), |d|) == d
  {
    var bs := PayloadBytes(d);
    forall i | 0 <= i < |d|
      ensures LittleEndian(bs[2 * i..2 * i + 2]) == d[i]
    {
      assert (2 * i) / 2 == i && (2 * i + 1) / 2 == i;
      assert (2 * i) % 2 == 0 && (2 * i + 1) % 2 == 1;
      LittleEndianPair(bs[2 * i..2 * i + 2]);
    }
  }

  lemma EncodedFixedHeader(t: HSData)
    requires WellFormed(t)
    ensures FixedHeaderShortField(Encode(t)).None?
    ensures FixedHeaderAt(Encode(t)) ==
              FixedHeader(t.satelliteName, t.width, t.height, t.band, t.wavelength,
                          t.bitNum, t.slope, t.intc)
  {
    EncodedName(t);
    EncodedU16(t, WIDTH_OFFSET, t.width);
    EncodedU16(t, HEIGHT_OFFSET, t.height);
    EncodedU16(t, BAND_OFFSET, t.band);
    EncodedU16(t, BIT_NUM_OFFSET, t.bitNum);
    EncodedF64(t, WAVELENGTH_OFFSET, t.wavelength);
    EncodedF64(t, SLOPE_OFFSET, t.slope);
    EncodedF64(t, INTC_OFFSET, t.intc);
  }

  lemma EncodedConstants(t: HSData)
    requires WellFormed(t)
    ensures ConstantsShortField(Encode(t), t.band).None?
    ensures ConstantsAt(Encode(t), t.band) == Constants(t.c0, t.c1, t.c2, t.c, t.h, t.k)
  {
    if t.band > LAST_UNCALIBRATED_BAND {
      EncodedF64(t, C0_OFFSET, t.c0);
      EncodedF64(t, C1_OFFSET, t.c1);
      EncodedF64(t, C2_OFFSET, t.c2);
      EncodedF64(t, LIGHT_SPEED_OFFSET, t.c);
      EncodedF64(t, PLANCK_OFFSET, t.h);
      EncodedF64(t, BOLTZMANN_OFFSET, t.k);
    }
  }

  lemma EncodedSections(t: HSData)
    requires WellFormed(t)
    ensures SectionsShortField(Encode(t)).None?
    ensures PayloadOffset(Encode(t)) == ENCODED_PAYLOAD_OFFSET
  {
    var b := Encode(t);
    EncodedU16(t, LEN8_OFFSET, 2);
    EncodedU16(t, LEN8_OFFSET + 2, 2);
    LittleEndianZeros(b[LEN8_OFFSET + 4..LEN8_OFFSET + 8]);
  }

  lemma EncodedSamples(t: HSData)
    requires WellFormed(t)
    ensures var b := Encode(t);
      b[ENCODED_PAYLOAD_OFFSET..ENCODED_PAYLOAD_OFFSET + 2 * |t.data|] == PayloadBytes(t.data)
  {
  }

  /** Decoding an encoded tile gives the tile back; only the debug check on
      an empty image fails. */
  lemma DecodeEncode(t: HSData, debug: bool)
    requires WellFormed(t)
    ensures Decode(Encode(t), debug) ==
              if debug && |t.data| == 0 then Failure(EmptyPayload) else Success(t)
  {
    var hd := FixedHeader(t.satelliteName, t.width, t.height, t.band, t.wavelength, t.bitNum, t.slope, t.intc);
    var cs := Constants(t.c0, t.c1, t.c2, t.c, t.h, t.k);
    EncodedParts(t, hd, cs);
    DecodeParts(Encode(t), debug, hd, cs, t.data);
  }

  /** The encoding of `t` has every part that decoding reads in place. */
  lemma EncodedParts(t: HSData, hd: FixedHeader, cs: Constants)
    requires WellFormed(t)
    requires hd == FixedHeader(t.satelliteName, t.width, t.height, t.band, t.wavelength, t.bitNum, t.slope, t.intc)
    requires cs == Constants(t.c0, t.c1, t.c2, t.c, t.h, t.k)
    ensures var b := Encode(t);
      && FixedHeaderShortField(b).None? && FixedHeaderAt(b) == hd
      && ConstantsShortField(b, hd.band).None? && ConstantsAt(b, hd.band) == cs
      && SectionsShortField(b).None? && PayloadOffset(b) == ENCODED_PAYLOAD_OFFSET
      && |t.data| == hd.width * hd.height && ENCODED_PAYLOAD_OFFSET + 2 * |t.data| <= |b|
      && b[ENCODED_PAYLOAD_OFFSET..ENCODED_PAYLOAD_OFFSET + 2 * |t.data|] == PayloadBytes(t.data)
    ensures Record(hd, cs, t.data) == t
  {
    EncodedFixedHeader(t);
    EncodedConstants(t);
    EncodedSections(t);
    EncodedSamples(t);
  }

  /** Decode of a file whose header fields and sections are all present
      and whose payload encodes `d`. */
  lemma DecodeParts(b: seq<byte>, debug: bool, hd: FixedHeader, cs: Constants, d: seq<u16>)
    requires FixedHeaderShortField(b).None? && FixedHeaderAt(b) == hd
    requires ConstantsShortField(b, hd.band).None? && ConstantsAt(b, hd.band) == cs
    requires SectionsShortField(b).None? && PayloadOffset(b) == ENCODED_PAYLOAD_OFFSET
    requires |d| == hd.width * hd.height && ENCODED_PAYLOAD_OFFSET + 2 * |d| <= |b|
    requires b[ENCODED_PAYLOAD_OFFSET..ENCODED_PAYLOAD_OFFSET + 2 * |d|] == PayloadBytes(d)
    ensures Decode(b, debug) ==
              if debug && |d| == 0 then Failure(EmptyPayload) else Success(Record(hd, cs, d))
  {
    DecodeSamples(b, debug, hd, cs, ENCODED_PAYLOAD_OFFSET, d);
  }

  lemma DecodeSamples(b: seq<byte>, debug: bool, hd: FixedHeader, cs: Constants, at: nat, d: seq<u16>)
    requires |d| == hd.width * hd.height && at + 2 * |d| <= |b|
    requires b[at..at + 2 * |d|] == PayloadBytes(d)
    ensures DecodePayload(b, debug, hd, cs, at) ==
              if debug && |d| == 0 then Failure(EmptyPayload) else Success(Record(hd, cs, d))
  {
    EncodedPayload(d);
    if |d| == 0 {
      assert d == [];
    }
  }

  // ---- The file behind a path ---------------------------------------------------

  const BZ2_SUFFIX: string := ".bz2"

  /** What decompress_bz2 does with a path: the DAT path it returns, and
      whether it first decompresses the bz2 file into it. */
  datatype Bz2Plan = Bz2Plan(datPath: string, decompress: bool)

  /** A path not ending in ".bz2" is used as it is. Otherwise the DAT path
      is the path without its last four characters, and the decompression
      runs only when no file exists there yet. */
  function DecompressBz2(path: string, present: string -> bool): (p: Bz2Plan)
    ensures !EndsWith(path, BZ2_SUFFIX) ==> p == Bz2Plan(path, false)
    ensures EndsWith(path, BZ2_SUFFIX) ==>
              p.datPath + BZ2_SUFFIX == path && p.decompress == !present(p.datPath)
  {
    if !EndsWith(path, BZ2_SUFFIX) then Bz2Plan(path, false)
    else
      var dat := path[..|path| - |BZ2_SUFFIX|];
      assert dat + BZ2_SUFFIX == path;
      Bz2Plan(dat, !present(dat))
  }

  /** Appending ".bz2" and then taking the DAT path gives the path back. */
  lemma {:induction false} DatPathOfBz2(dat: string, present: string -> bool)
    ensures DecompressBz2(dat + BZ2_SUFFIX, present).datPath == dat
    ensures DecompressBz2(dat + BZ2_SUFFIX, present).decompress == !present(dat)
  {
    var path := dat + BZ2_SUFFIX;
    assert path[|path| - |BZ2_SUFFIX|..] == BZ2_SUFFIX;
    assert path[..|path| - |BZ2_SUFFIX|] == dat;
  }

  /** A DAT path, one not ending in ".bz2", is a fixed point of the rule. */
  lemma DatPathIsFixed(path: string, present: string -> bool)
    requires !EndsWith(path, BZ2_SUFFIX)
    ensures DecompressBz2(DecompressBz2(path, present).datPath, present) == Bz2Plan(path, false)
  {
  }

  /** The files visible to the reader: which paths exist, what they hold,
      and bz2 decompression of a file's bytes (None for a corrupt stream). */
  datatype FileSystem = FileSystem(
    present: string -> bool,
    content: string -> seq<byte>,
    bunzip: seq<byte> -> Option<seq<byte>>)

  /** The bytes hsd_read opens for `path`: the DAT file, decompressed from
      the bz2 file first when it does not exist yet. */
  function DatBytes(fs: FileSystem, path: string): (r: Result<seq<byte>, HsdError>)
    ensures !EndsWith(path, BZ2_SUFFIX) ==>
              r == if fs.present(path) then Success(fs.content(path)) else Failure(CannotOpen)
  {
    var plan := DecompressBz2(path, fs.present);
    if plan.decompress then
      if !fs.present(path) then Failure(CannotOpen)
      else
        match fs.bunzip(fs.content(path))
        case None => Failure(CannotDecompress)
        case Some(bytes) => Success(bytes)
    else if !fs.present(plan.datPath) then Failure(CannotOpen)
    else Success(fs.content(plan.datPath))
  }

  /** hsd_read(path): the decoding of the file behind the path. */
  function ReadTile(fs: FileSystem, path: string, debug: bool): (r: Result<HSData, HsdError>)
    ensures r.Success? ==> |r.value.data| == r.value.width * r.value.height && r.value.temp.None?
  {
    match DatBytes(fs, path)
    case Failure(e) => Failure(e)
    case Success(bytes) => Decode(bytes, debug)
  }

  /** hsd_read: resolve the path, open the file and walk it. */
  method HsdReadFile(fs: FileSystem, path: string, debug: bool) returns (r: Result<HSData, HsdError>)
    ensures r == ReadTile(fs, path, debug)
  {
    var bytes := DatBytes(fs, path);
    if bytes.Failure? {
      return Failure(bytes.error);
    }
    var f := new BinaryFile.Open(bytes.value);
    r := HsdRead(f, debug);
  }
}
