/** The colour ramps that turn raw counts or brightness temperatures (in
    kelvin) into RGB pixels.

    Each temperature ramp of the source allocates a result array and
    overwrites it through a sequence of masked assignments, one per band of
    the temperature line. The bands of one channel are right-open intervals
    between descending thresholds; `InBand` states them once, and
    `BandOf` proves that every temperature lies in exactly one of them.
    The per-element value of each channel is stated separately as a level
    function, and each method is proved to produce it pixel by pixel.

    A numpy cast of a float to uint8 is modelled only on [0, 256), where it
    truncates; anywhere else the channel is `Unspecified`. */
module Colorscale {
  import opened Basics

  /** One 8-bit channel value, or a cast whose result the model leaves open. */
  datatype Channel = Byte(value: byte) | Unspecified

  datatype Rgb = Rgb(r: Channel, g: Channel, b: Channel)

  /** .astype(np.uint8) of a float. */
  function CastU8(x: real): (c: Channel)
    ensures 0.0 <= x < 256.0 ==> c.Byte? && c.value as real <= x < c.value as real + 1.0
    ensures !(0.0 <= x < 256.0) ==> c == Unspecified
  {
    if 0.0 <= x < 256.0 then Byte(x.Floor) else Unspecified
  }

  /** Python's int() of a float: truncation toward zero. */
  function Trunc(x: real): (n: int)
    ensures x >= 0.0 ==> n == x.Floor
    ensures x < 0.0 ==> n == -((-x).Floor)
  {
    if x >= 0.0 then x.Floor else -((-x).Floor)
  }

  /** The pixel of a grey value: three equal channels. */
  function Gray(c: Channel): Rgb
  {
    Rgb(c, c, c)
  }

  /** np.stack([r, g, b], axis=-1). */
  function Stack(r: seq<Channel>, g: seq<Channel>, b: seq<Channel>): (rgb: seq<Rgb>)
    requires |r| == |g| == |b|
    ensures |rgb| == |r|
    ensures forall i :: 0 <= i < |r| ==> rgb[i] == Rgb(r[i], g[i], b[i])
  {
    seq(|r|, i requires 0 <= i < |r| => Rgb(r[i], g[i], b[i]))
  }

  // ---- Bands of the temperature line ----------------------------------------------

  /** Thresholds in strictly descending order. */
  predicate Descending(th: seq<real>)
  {
    forall i, j :: 0 <= i < j < |th| ==> th[i] > th[j]
  }

  /** Band k of descending thresholds: band 0 lies above th[0], band k lies in
      (th[k], th[k-1]], and the last band, |th|, lies at or below the last
      threshold. */
  predicate InBand(th: seq<real>, k: nat, t: real)
    requires k <= |th|
  {
    (k == 0 || t <= th[k - 1]) && (k == |th| || t > th[k])
  }

  /** The one band that holds `t`. */
  function BandOf(th: seq<real>, t: real): (k: nat)
    requires Descending(th)
    ensures k <= |th| && InBand(th, k, t)
    ensures forall j :: 0 <= j <= |th| && InBand(th, j, t) ==> j == k
  {
    if th == [] then 0
    else if t > th[0] then
      forall j | 0 < j <= |th|
        ensures !InBand(th, j, t)
      {
        assert th[j - 1] <= th[0];
      }
      0
    else
      var k' := BandOf(th[1..], t);
      forall j | 0 < j <= |th| && InBand(th, j, t)
        ensures j == k' + 1
      {
        assert InBand(th[1..], j - 1, t);
      }
      k' + 1
  }

  /** Every temperature lies in exactly one band: the masks of a channel
      are pairwise disjoint and together cover the whole line. */
  lemma {:induction false} ExactlyOneBand(th: seq<real>, t: real, j: nat, k: nat)
    requires Descending(th) && j <= |th| && k <= |th|
    ensures exists m :: 0 <= m <= |th| && InBand(th, m, t)
    ensures InBand(th, j, t) && InBand(th, k, t) ==> j == k
  {
    var m := BandOf(th, t);
    assert InBand(th, m, t);
  }

  /** A source mask: a positive temperature (valid_mask) in band k. */
  function Mask(th: seq<real>, k: nat): real -> bool
    requires k <= |th|
  {
    t => t > 0.0 && InBand(th, k, t)
  }

  /** result[mask] = value(temp[mask]): overwrite the entries whose
      temperature the mask selects and keep the others. */
  method Put(result: array<Channel>, temps: seq<real>, mask: real -> bool, value: real -> Channel)
    requires result.Length == |temps|
    modifies result
    ensures forall i :: 0 <= i < |temps| ==>
              result[i] == if mask(temps[i]) then value(temps[i]) else old(result[i])
  {
    forall i | 0 <= i < |temps| && mask(temps[i]) {
      result[i] := value(temps[i]);
    }
  }

  // ---- bw_scale ------------------------------------------------------------------------

  /** The shift that brings a bit depth above 8 down to 8 bits. */
  function BwShift(bitNum: nat): nat
  {
    if bitNum > 8 then bitNum - 8 else 0
  }

  /** v >> s: s halvings, rounding down. */
  function ShiftRight(v: nat, s: nat): (r: nat)
    ensures r <= v
  {
    if s == 0 then v else ShiftRight(v / 2, s - 1)
  }

  lemma {:induction false} ShiftRightBelow(v: nat, s: nat, m: nat)
    requires v < m * Pow2(s)
    ensures ShiftRight(v, s) < m
  {
    if s > 0 {
      ShiftRightBelow(v / 2, s - 1, m);
    }
  }

  lemma {:induction false} ShiftRightMonotone(v: nat, w: nat, s: nat)
    requires v <= w
    ensures ShiftRight(v, s) <= ShiftRight(w, s)
  {
    if s > 0 {
      ShiftRightMonotone(v / 2, w / 2, s - 1);
    }
  }

  /** (v >> shift).astype(np.uint8): an integer cast keeps the low 8 bits. */
  function BwLevel(v: u16, bitNum: nat): (r: byte)
    ensures bitNum <= 8 ==> r as int == v as int % 256
    ensures r as int <= ShiftRight(v as int, BwShift(bitNum))
  {
    ShiftRight(v, BwShift(bitNum)) % 256
  }

  /** bw_scale: the grey level of each sample in all three channels. */
  function BwScale(data: seq<u16>, bitNum: nat): (rgb: seq<Rgb>)
    ensures |rgb| == |data|
    ensures forall i :: 0 <= i < |data| ==> rgb[i] == Gray(Byte(BwLevel(data[i], bitNum)))
  {
    seq(|data|, i requires 0 <= i < |data| => Gray(Byte(BwLevel(data[i], bitNum))))
  }

  /** A sample that fits the bit depth never wraps: the grey level is the
      sample's top 8 bits. */
  lemma BwWithinDepth(v: u16, bitNum: nat)
    requires bitNum >= 8 && v < Pow2(bitNum)
    ensures BwLevel(v, bitNum) == ShiftRight(v, bitNum - 8)
  {
    Pow2Add(bitNum - 8, 8);
    assert Pow2(8) == 256;
    ShiftRightBelow(v, bitNum - 8, 256);
  }

  /** Within the bit depth, brighter samples never give darker grey. */
  lemma BwMonotone(v: u16, w: u16, bitNum: nat)
    requires bitNum >= 8 && v <= w < Pow2(bitNum)
    ensures BwLevel(v, bitNum) <= BwLevel(w, bitNum)
  {
    BwWithinDepth(v, bitNum);
    BwWithinDepth(w, bitNum);
    ShiftRightMonotone(v, w, bitNum - 8);
  }

  /** At a bit depth of 8 or less nothing is shifted, so 8-bit samples pass
      through unchanged. */
  lemma BwEightBit(v: u16, bitNum: nat)
    requires bitNum <= 8 && v < 256
    ensures BwLevel(v, bitNum) == v
  {
  }

  // ---- BD ----------------------------------------------------------------------------------

  const BD_EDGES: seq<real> := [303.15, 282.15, 242.15, 231.15, 219.15, 209.15, 203.15, 197.15, 192.15]

  /** bd_scale_value: the single-value form of the BD ramp. */
  function BdScaleValue(t: real): (v: int)
    ensures 0 <= v < 256
  {
    if t > 303.15 then 0
    else if t > 282.15 then Trunc((303.15 - t) * 12.0)
    else if t > 242.15 then Trunc((282.15 - t) * 2.0 + 100.0)
    else if t > 231.15 then 80
    else if t > 219.15 then 130
    else if t > 209.15 then 190
    else if t > 203.15 then 0
    else if t > 197.15 then 255
    else if t > 192.15 then 170
    else 120
  }

  /** One element of bd_scale: black for a missing (non-positive)
      temperature, otherwise the ramp's value, which always fits a byte. */
  function BdLevel(t: real): (c: Channel)
    ensures c.Byte?
    ensures t <= 0.0 ==> c == Byte(0)
    ensures t > 303.15 || 203.15 < t <= 209.15 ==> c == Byte(0)
  {
    if t <= 0.0 then Byte(0)
    else if t > 303.15 then Byte(0)
    else if t > 282.15 then CastU8((303.15 - t) * 12.0)
    else if t > 242.15 then CastU8((282.15 - t) * 2.0 + 100.0)
    else if t > 231.15 then Byte(80)
    else if t > 219.15 then Byte(130)
    else if t > 209.15 then Byte(190)
    else if t > 203.15 then Byte(0)
    else if t > 197.15 then Byte(255)
    else if t > 192.15 then Byte(170)
    else Byte(120)
  }

  /** The array ramp and the single-value one agree on every positive
      temperature; on a missing one the array ramp gives 0 and the single
      value 120. */
  lemma BdScaleMatchesValue(t: real)
    ensures t > 0.0 ==> BdLevel(t) == Byte(BdScaleValue(t))
    ensures t <= 0.0 ==> BdLevel(t) == Byte(0) && BdScaleValue(t) == 120
  {
  }

  /** bd_scale: ten masked writes into a zeroed array, then three equal
      channels. */
  method BdScale(temps: seq<real>) returns (rgb: seq<Rgb>)
    ensures |rgb| == |temps|
    ensures forall i :: 0 <= i < |temps| ==> rgb[i] == Gray(BdLevel(temps[i]))
  {
    var result := new Channel[|temps|](_ => Byte(0));
    Put(result, temps, Mask(BD_EDGES, 0), _ => Byte(0));
    Put(result, temps, Mask(BD_EDGES, 1), t => CastU8((303.15 - t) * 12.0));
    Put(result, temps, Mask(BD_EDGES, 2), t => CastU8((282.15 - t) * 2.0 + 100.0));
    Put(result, temps, Mask(BD_EDGES, 3), _ => Byte(80));
    Put(result, temps, Mask(BD_EDGES, 4), _ => Byte(130));
    Put(result, temps, Mask(BD_EDGES, 5), _ => Byte(190));
    Put(result, temps, Mask(BD_EDGES, 6), _ => Byte(0));
    Put(result, temps, Mask(BD_EDGES, 7), _ => Byte(255));
    Put(result, temps, Mask(BD_EDGES, 8), _ => Byte(170));
    Put(result, temps, Mask(BD_EDGES, 9), _ => Byte(120));
    rgb := Stack(result[..], result[..], result[..]);
  }

  // ---- Color2 ------------------------------------------------------------------------------

  const COLOR2_R_EDGES: seq<real> := [303.15, 243.15, 223.15, 203.15, 193.15, 183.15]
  const COLOR2_G_EDGES: seq<real> := [303.15, 243.15, 223.15, 213.15, 203.15, 193.15, 183.15]
  const COLOR2_B_EDGES: seq<real> := [303.15, 243.15, 223.15, 213.15, 183.15]

  /** One element of color2_r. The ramp fits a byte from 173.15 K up;
      below that the last band's value is negative. */
  function Color2RLevel(t: real): (c: Channel)
    ensures t <= 0.0 || t > 303.15 ==> c == Byte(0)
    ensures 223.15 < t <= 243.15 ==> c == Byte(50)
    ensures 203.15 < t <= 223.15 ==> c == Byte(0)
    ensures t >= 173.15 ==> c.Byte?
    ensures 0.0 < t < 173.15 ==> c == Unspecified
  {
    if t <= 0.0 then Byte(0)
    else if t > 303.15 then Byte(0)
    else if t > 243.15 then CastU8((303.15 - t) * 4.0)
    else if t > 223.15 then Byte(50)
    else if t > 203.15 then Byte(0)
    else if t > 193.15 then CastU8((203.15 - t) * 15.0 + 100.0)
    else if t > 183.15 then CastU8((t - 183.15) * 25.0)
    else CastU8((t - 173.15) * 25.0)
  }

  /** One element of color2_g. */
  function Color2GLevel(t: real): (c: Channel)
    ensures t <= 0.0 || t > 303.15 ==> c == Byte(0)
    ensures 213.15 < t <= 223.15 ==> c == Byte(0)
    ensures 193.15 < t <= 203.15 ==> c == Byte(0)
    ensures t >= 173.15 ==> c.Byte?
    ensures 0.0 < t < 173.15 ==> c == Unspecified
  {
    if t <= 0.0 then Byte(0)
    else if t > 303.15 then Byte(0)
    else if t > 243.15 then CastU8((303.15 - t) * 4.0)
    else if t > 223.15 then CastU8((t - 223.15) * 6.0 + 120.0)
    else if t > 213.15 then Byte(0)
    else if t > 203.15 then CastU8((213.15 - t) * 15.0 + 100.0)
    else if t > 193.15 then Byte(0)
    else if t > 183.15 then CastU8((t - 183.15) * 25.0)
    else CastU8((t - 173.15) * 25.0)
  }

  /** One element of color2_b. */
  function Color2BLevel(t: real): (c: Channel)
    ensures t <= 0.0 || t > 303.15 ==> c == Byte(0)
    ensures 183.15 < t <= 213.15 ==> c == Byte(0)
    ensures t >= 173.15 ==> c.Byte?
    ensures 0.0 < t < 173.15 ==> c == Unspecified
  {
    if t <= 0.0 then Byte(0)
    else if t > 303.15 then Byte(0)
    else if t > 243.15 then CastU8((303.15 - t) * 4.0)
    else if t > 223.15 then CastU8((t - 223.15) * 6.0 + 120.0)
    else if t > 213.15 then CastU8((223.15 - t) * 15.0 + 100.0)
    else if t > 183.15 then Byte(0)
    else CastU8((t - 173.15) * 25.0)
  }

  /** color2_r: seven masked writes into a zeroed array. */
  method Color2R(temps: seq<real>) returns (r: seq<Channel>)
    ensures |r| == |temps|
    ensures forall i :: 0 <= i < |temps| ==> r[i] == Color2RLevel(temps[i])
  {
    var result := new Channel[|temps|](_ => Byte(0));
    Put(result, temps, Mask(COLOR2_R_EDGES, 0), _ => Byte(0));
    Put(result, temps, Mask(COLOR2_R_EDGES, 1), t => CastU8((303.15 - t) * 4.0));
    Put(result, temps, Mask(COLOR2_R_EDGES, 2), _ => Byte(50));
    Put(result, temps, Mask(COLOR2_R_EDGES, 3), _ => Byte(0));
    Put(result, temps, Mask(COLOR2_R_EDGES, 4), t => CastU8((203.15 - t) * 15.0 + 100.0));
    Put(result, temps, Mask(COLOR2_R_EDGES, 5), t => CastU8((t - 183.15) * 25.0));
    Put(result, temps, Mask(COLOR2_R_EDGES, 6), t => CastU8((t - 173.15) * 25.0));
    r := result[..];
  }

  /** color2_g: eight masked writes into a zeroed array. */
  method Color2G(temps: seq<real>) returns (g: seq<Channel>)
    ensures |g| == |temps|
    ensures forall i :: 0 <= i < |temps| ==> g[i] == Color2GLevel(temps[i])
  {
    var result := new Channel[|temps|](_ => Byte(0));
    Put(result, temps, Mask(COLOR2_G_EDGES, 0), _ => Byte(0));
    Put(result, temps, Mask(COLOR2_G_EDGES, 1), t => CastU8((303.15 - t) * 4.0));
    Put(result, temps, Mask(COLOR2_G_EDGES, 2), t => CastU8((t - 223.15) * 6.0 + 120.0));
    Put(result, temps, Mask(COLOR2_G_EDGES, 3), _ => Byte(0));
    Put(result, temps, Mask(COLOR2_G_EDGES, 4), t => CastU8((213.15 - t) * 15.0 + 100.0));
    Put(result, temps, Mask(COLOR2_G_EDGES, 5), _ => Byte(0));
    Put(result, temps, Mask(COLOR2_G_EDGES, 6), t => CastU8((t - 183.15) * 25.0));
    Put(result, temps, Mask(COLOR2_G_EDGES, 7), t => CastU8((t - 173.15) * 25.0));
    g := result[..];
  }

  /** color2_b: six masked writes into a zeroed array. */
  method Color2B(temps: seq<real>) returns (b: seq<Channel>)
    ensures |b| == |temps|
    ensures forall i :: 0 <= i < |temps| ==> b[i] == Color2BLevel(temps[i])
  {
    var result := new Channel[|temps|](_ => Byte(0));
    Put(result, temps, Mask(COLOR2_B_EDGES, 0), _ => Byte(0));
    Put(result, temps, Mask(COLOR2_B_EDGES, 1), t => CastU8((303.15 - t) * 4.0));
    Put(result, temps, Mask(COLOR2_B_EDGES, 2), t => CastU8((t - 223.15) * 6.0 + 120.0));
    Put(result, temps, Mask(COLOR2_B_EDGES, 3), t => CastU8((223.15 - t) * 15.0 + 100.0));
    Put(result, temps, Mask(COLOR2_B_EDGES, 4), _ => Byte(0));
    Put(result, temps, Mask(COLOR2_B_EDGES, 5), t => CastU8((t - 173.15) * 25.0));
    b := result[..];
  }

  /** color2_scale: the three channels stacked in R, G, B order. */
  method Color2Scale(temps: seq<real>) returns (rgb: seq<Rgb>)
    ensures |rgb| == |temps|
    ensures forall i :: 0 <= i < |temps| ==>
              rgb[i] == Rgb(Color2RLevel(temps[i]), Color2GLevel(temps[i]), Color2BLevel(temps[i]))
  {
    var r := Color2R(temps);
    var g := Color2G(temps);
    var b := Color2B(temps);
    rgb := Stack(r, g, b);
  }

  // ---- WVNRL ---------------------------------------------------------------------------------

  const WVNRL_EDGES: seq<real> := [273.15, 263.15, 253.15, 243.15, 233.15, 223.15]

  /** One element of wvnrl_r. On (233.15, 243.15] the source's expression
      (127 + 243.15 - t) * 12.8 lies between 1625.6 and 1753.6, outside the
      uint8 range; below 183.30625 K the last band's value is negative. */
  function WvnrlRLevel(t: real): (c: Channel)
    ensures t <= 0.0 ==> c == Byte(0)
    ensures t > 273.15 ==> c == Byte(127)
    ensures 223.15 < t <= 233.15 ==> c == Byte(255)
    ensures 243.15 < t ==> c.Byte?
    ensures 233.15 < t <= 243.15 ==> c == Unspecified
    ensures 183.30625 <= t <= 233.15 ==> c.Byte?
  {
    if t <= 0.0 then Byte(0)
    else if t > 273.15 then Byte(127)
    else if t > 263.15 then CastU8((t - 263.15) * 10.8 + 20.0)
    else if t > 253.15 then CastU8(20.0 + (263.15 - t) * 3.0)
    else if t > 243.15 then CastU8(50.0 + (253.15 - t) * 7.8)
    else if t > 233.15 then CastU8((127.0 + 243.15 - t) * 12.8)
    else if t > 223.15 then Byte(255)
    else CastU8(127.0 + (t - 203.15) * 6.4)
  }

  /** One element of wvnrl_g. */
  function WvnrlGLevel(t: real): (c: Channel)
    ensures t <= 0.0 || t > 273.15 ==> c == Byte(0)
    ensures 233.15 < t <= 243.15 ==> c == Byte(255)
    ensures t >= 203.15 ==> c.Byte?
    ensures 0.0 < t < 203.15 ==> c == Unspecified
  {
    if t <= 0.0 then Byte(0)
    else if t > 273.15 then Byte(0)
    else if t > 263.15 then CastU8((273.15 - t) * 10.0)
    else if t > 253.15 then CastU8(100.0 + (263.15 - t) * 5.0)
    else if t > 243.15 then CastU8(150.0 + (253.15 - t) * 10.5)
    else if t > 233.15 then Byte(255)
    else if t > 223.15 then CastU8(180.0 + (t - 223.15) * 7.5)
    else CastU8((t - 203.15) * 9.0)
  }

  /** One element of wvnrl_b. */
  function WvnrlBLevel(t: real): (c: Channel)
    ensures t <= 0.0 ==> c == Byte(0)
    ensures t > 273.15 ==> c == Byte(140)
    ensures 243.15 < t <= 253.15 ==> c == Byte(255)
    ensures t >= 203.15 ==> c.Byte?
    ensures 0.0 < t < 203.15 ==> c == Unspecified
  {
    if t <= 0.0 then Byte(0)
    else if t > 273.15 then Byte(140)
    else if t > 263.15 then CastU8(140.0 + (273.15 - t) * 9.0)
    else if t > 253.15 then CastU8(230.0 + (263.15 - t) * 2.5)
    else if t > 243.15 then Byte(255)
    else if t > 233.15 then CastU8(127.0 + (t - 233.15) * 12.8)
    else if t > 223.15 then CastU8(100.0 + (t - 223.15) * 2.8)
    else CastU8((t - 203.15) * 5.0)
  }

  /** wvnrl_r: a fill of 128, black for missing temperatures, then seven
      masked writes. The seven masks cover every positive temperature, so
      no pixel keeps the fill. */
  method WvnrlR(temps: seq<real>) returns (r: seq<Channel>)
    ensures |r| == |temps|
    ensures forall i :: 0 <= i < |temps| ==> r[i] == WvnrlRLevel(temps[i])
  {
    var result := new Channel[|temps|](_ => Byte(128));
    Put(result, temps, t => !(t > 0.0), _ => Byte(0));
    Put(result, temps, Mask(WVNRL_EDGES, 0), _ => Byte(127));
    Put(result, temps, Mask(WVNRL_EDGES, 1), t => CastU8((t - 263.15) * 10.8 + 20.0));
    Put(result, temps, Mask(WVNRL_EDGES, 2), t => CastU8(20.0 + (263.15 - t) * 3.0));
    Put(result, temps, Mask(WVNRL_EDGES, 3), t => CastU8(50.0 + (253.15 - t) * 7.8));
    Put(result, temps, Mask(WVNRL_EDGES, 4), t => CastU8((127.0 + 243.15 - t) * 12.8));
    Put(result, temps, Mask(WVNRL_EDGES, 5), _ => Byte(255));
    Put(result, temps, Mask(WVNRL_EDGES, 6), t => CastU8(127.0 + (t - 203.15) * 6.4));
    r := result[..];
  }

  /** wvnrl_g: seven masked writes into a zeroed array. */
  method WvnrlG(temps: seq<real>) returns (g: seq<Channel>)
    ensures |g| == |temps|
    ensures forall i :: 0 <= i < |temps| ==> g[i] == WvnrlGLevel(temps[i])
  {
    var result := new Channel[|temps|](_ => Byte(0));
    Put(result, temps, Mask(WVNRL_EDGES, 0), _ => Byte(0));
    Put(result, temps, Mask(WVNRL_EDGES, 1), t => CastU8((273.15 - t) * 10.0));
    Put(result, temps, Mask(WVNRL_EDGES, 2), t => CastU8(100.0 + (263.15 - t) * 5.0));
    Put(result, temps, Mask(WVNRL_EDGES, 3), t => CastU8(150.0 + (253.15 - t) * 10.5));
    Put(result, temps, Mask(WVNRL_EDGES, 4), _ => Byte(255));
    Put(result, temps, Mask(WVNRL_EDGES, 5), t => CastU8(180.0 + (t - 223.15) * 7.5));
    Put(result, temps, Mask(WVNRL_EDGES, 6), t => CastU8((t - 203.15) * 9.0));
    g := result[..];
  }

  /** wvnrl_b: seven masked writes into a zeroed array. */
  method WvnrlB(temps: seq<real>) returns (b: seq<Channel>)
    ensures |b| == |temps|
    ensures forall i :: 0 <= i < |temps| ==> b[i] == WvnrlBLevel(temps[i])
  {
    var result := new Channel[|temps|](_ => Byte(0));
    Put(result, temps, Mask(WVNRL_EDGES, 0), _ => Byte(140));
    Put(result, temps, Mask(WVNRL_EDGES, 1), t => CastU8(140.0 + (273.15 - t) * 9.0));
    Put(result, temps, Mask(WVNRL_EDGES, 2), t => CastU8(230.0 + (263.15 - t) * 2.5));
    Put(result, temps, Mask(WVNRL_EDGES, 3), _ => Byte(255));
    Put(result, temps, Mask(WVNRL_EDGES, 4), t => CastU8(127.0 + (t - 233.15) * 12.8));
    Put(result, temps, Mask(WVNRL_EDGES, 5), t => CastU8(100.0 + (t - 223.15) * 2.8));
    Put(result, temps, Mask(WVNRL_EDGES, 6), t => CastU8((t - 203.15) * 5.0));
    b := result[..];
  }

  /** wvnrl_scale: the three channels stacked in R, G, B order. */
  method WvnrlScale(temps: seq<real>) returns (rgb: seq<Rgb>)
    ensures |rgb| == |temps|
    ensures forall i :: 0 <= i < |temps| ==>
              rgb[i] == Rgb(WvnrlRLevel(temps[i]), WvnrlGLevel(temps[i]), WvnrlBLevel(temps[i]))
  {
    var r := WvnrlR(temps);
    var g := WvnrlG(temps);
    var b := WvnrlB(temps);
    rgb := Stack(r, g, b);
  }

  // ---- The ramps' bands partition the temperature line ---------------------------------------

  /** The threshold lists of every ramp are strictly descending, so each
      positive temperature is selected by exactly one mask of each channel,
      and the masks of wvnrl_r leave no positive temperature to the fill. */
  lemma RampMasksPartition(t: real)
    requires t > 0.0
    ensures Descending(BD_EDGES) && Descending(COLOR2_R_EDGES) && Descending(COLOR2_G_EDGES)
    ensures Descending(COLOR2_B_EDGES) && Descending(WVNRL_EDGES)
    ensures Mask(BD_EDGES, BandOf(BD_EDGES, t))(t)
    ensures Mask(WVNRL_EDGES, BandOf(WVNRL_EDGES, t))(t)
    ensures forall k :: 0 <= k <= |WVNRL_EDGES| && Mask(WVNRL_EDGES, k)(t) ==> k == BandOf(WVNRL_EDGES, t)
  {
  }
}
