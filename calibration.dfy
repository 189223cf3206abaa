/** Brightness-temperature calibration of a decoded HSD tile.

    The source computes the Planck inversion once per distinct raw value,
    keeps the results in a lookup table, and then fills a zeroed array of
    width*height temperatures pixel by pixel. The inversion itself is
    floating-point work and stays abstract here: a `PlanckModel` says
    whether wl**5 overflows, whether its two precomputed divisions are by
    non-zero values, and gives the temperature of one raw value. What is proved is the memoisation:
    the table-driven output is the direct per-pixel evaluation. */
module Calibration {
  import opened Basics
  import opened HsdReader

  /** The numbers of a tile that the inversion uses; the samples are not
      among them. */
  datatype Radiometry = Radiometry(wavelength: F64, slope: F64, intc: F64, c: F64, h: F64, k: F64)

  function RadiometryOf(t: HSData): Radiometry
  {
    Radiometry(t.wavelength, t.slope, t.intc, t.c, t.h, t.k)
  }

  /** The Planck inversion, with wl = wavelength*1e-6. `overflows` tells
      whether wl**5 raises OverflowError, which depends on the wavelength
      alone; `divisorsNonzero` tells whether k*wl and then wl**5 are
      non-zero, so that the two divisions before the loops raise no
      ZeroDivisionError; `tb` is the temperature of one raw value
      (hc/(k wl)) / ln(2hc^2/wl^5 / (slope*v + intc) + 1). */
  datatype PlanckModel = PlanckModel(
    overflows: F64 -> bool,
    divisorsNonzero: Radiometry -> bool,
    tb: (Radiometry, u16) -> real)

  /** An IEEE 754 double, stored little-endian, is finite unless its eleven
      exponent bits (the low seven of byte 7, the high four of byte 6) are
      all ones. */
  predicate Finite(w: F64)
  {
    |w.bytes| != 8 || !(w.bytes[7] % 128 == 127 && w.bytes[6] / 16 == 15)
  }

  /** What Python float arithmetic fixes about the model: with k == 0.0
      and a finite wavelength whose fifth power does not overflow, k*wl is
      zero; an infinite or NaN wavelength makes k*wl and wl**5 infinite or
      NaN, never zero; and inf**5 does not raise, so only a finite
      wavelength can overflow. */
  ghost predicate Sound(pm: PlanckModel)
  {
    (forall r: Radiometry ::
       r.k == ZERO_F64 && Finite(r.wavelength) && !pm.overflows(r.wavelength) ==> !pm.divisorsNonzero(r))
    && (forall r: Radiometry :: !Finite(r.wavelength) ==> pm.divisorsNonzero(r))
    && (forall w: F64 :: pm.overflows(w) ==> Finite(w))
  }

  datatype CalibrationError =
    | Overflow                  // wl ** 5 out of the float range
    | ZeroDivision              // float division by k*wl or wl**5 == 0.0
    | EmptyData                 // the debug print of data[0] on empty data
    | IndexOutOfRange(index: nat) // a sample beyond width*height

  /** The set of raw values that occur in `data`. */
  function Values(data: seq<u16>): set<u16>
  {
    set i | 0 <= i < |data| :: data[i]
  }

  /** The temperatures per-pixel evaluation gives: Tb of each sample, and
      0.0 where the data ends before width*height. */
  function DirectTemperatures(data: seq<u16>, xy: nat, rad: Radiometry, pm: PlanckModel): (out: seq<real>)
    requires |data| <= xy
    ensures |out| == xy
    ensures forall i :: 0 <= i < |data| ==> out[i] == pm.tb(rad, data[i])
    ensures forall i :: |data| <= i < xy ==> out[i] == 0.0
  {
    seq(xy, i requires 0 <= i < xy => if i < |data| then pm.tb(rad, data[i]) else 0.0)
  }

  /** hsd_calibration's result in terms of the tile: the first exception
      the source raises, or the temperature array. */
  function Calibrate(t: HSData, pm: PlanckModel, debug: bool): (r: Result<seq<real>, CalibrationError>)
    ensures r.Success? ==> |r.value| == t.width * t.height
    ensures r.Success? <==>
              !pm.overflows(t.wavelength) && pm.divisorsNonzero(RadiometryOf(t))
              && !(debug && |t.data| == 0) && |t.data| <= t.width * t.height
    ensures r == Failure(Overflow) <==> pm.overflows(t.wavelength)
    ensures r == Failure(ZeroDivision) <==>
              !pm.overflows(t.wavelength) && !pm.divisorsNonzero(RadiometryOf(t))
  {
    var xy := t.width * t.height;
    if pm.overflows(t.wavelength) then Failure(Overflow)
    else if !pm.divisorsNonzero(RadiometryOf(t)) then Failure(ZeroDivision)
    else if debug && |t.data| == 0 then Failure(EmptyData)
    else if |t.data| > xy then Failure(IndexOutOfRange(xy))
    else Success(DirectTemperatures(t.data, xy, RadiometryOf(t), pm))
  }

  /** The loop over np.unique(data): one entry per distinct raw value. */
  method BuildLookupTable(data: seq<u16>, rad: Radiometry, pm: PlanckModel)
    returns (lut: map<u16, real>)
    ensures lut.Keys == Values(data)
    ensures forall v :: v in lut ==> lut[v] == pm.tb(rad, v)
  {
    lut := map[];
    var pending := Values(data);
    while pending != {}
      invariant lut.Keys !! pending
      invariant lut.Keys + pending == Values(data)
      invariant forall v :: v in lut ==> lut[v] == pm.tb(rad, v)
      decreases |pending|
    {
      var v :| v in pending;
      lut := lut[v := pm.tb(rad, v)];
      pending := pending - {v};
    }
  }

  /** The loop over enumerate(data) into np.zeros(xy). */
  method FillTemperatures(data: seq<u16>, lut: map<u16, real>, xy: nat)
    returns (r: Result<seq<real>, CalibrationError>)
    requires Values(data) <= lut.Keys
    ensures |data| > xy ==> r == Failure(IndexOutOfRange(xy))
    ensures |data| <= xy ==>
              r.Success? && |r.value| == xy
              && (forall i :: 0 <= i < |data| ==> r.value[i] == lut[data[i]])
              && (forall i :: |data| <= i < xy ==> r.value[i] == 0.0)
  {
    var out := new real[xy](_ => 0.0);
    for i := 0 to |data|
      invariant i <= xy
      invariant forall j :: 0 <= j < i ==> out[j] == lut[data[j]]
      invariant forall j :: i <= j < xy ==> out[j] == 0.0
    {
      if i == xy {
        return Failure(IndexOutOfRange(xy));
      }
      assert data[i] in Values(data);
      out[i] := lut[data[i]];
    }
    r := Success(out[..]);
  }

  /** hsd_calibration: the table-driven evaluation, whose result is
      assigned to the tile's `temp` field. Only `temp` changes, and only
      when no exception is raised. */
  method HsdCalibration(t: HSData, pm: PlanckModel, debug: bool)
    returns (r: Result<seq<real>, CalibrationError>, updated: HSData)
    ensures r == Calibrate(t, pm, debug)
    ensures r.Success? ==> updated == t.(temp := Some(r.value))
    ensures r.Failure? ==> updated == t
  {
    updated := t;
    if pm.overflows(t.wavelength) {
      return Failure(Overflow), t;
    }
    var rad := RadiometryOf(t);
    if !pm.divisorsNonzero(rad) {
      return Failure(ZeroDivision), t;
    }
    var xy := t.width * t.height;
    if debug && |t.data| == 0 {
      return Failure(EmptyData), t;
    }
    var lut := BuildLookupTable(t.data, rad, pm);
    r := FillTemperatures(t.data, lut, xy);
    if r.Success? {
      assert r.value == DirectTemperatures(t.data, xy, rad, pm);
      updated := t.(temp := Some(r.value));
    }
  }

  // ---- Properties --------------------------------------------------------------

  /** Equal raw values give equal temperatures. */
  lemma EqualValuesEqualTemperatures(t: HSData, pm: PlanckModel, debug: bool, i: nat, j: nat)
    requires Calibrate(t, pm, debug).Success?
    requires i < |t.data| && j < |t.data| && t.data[i] == t.data[j]
    ensures Calibrate(t, pm, debug).value[i] == Calibrate(t, pm, debug).value[j]
  {
  }

  /** The result depends on the tile only through its radiometric numbers,
      its size and its samples: the name, band and bit depth play no part. */
  lemma OnlyRadiometryMatters(t: HSData, u: HSData, pm: PlanckModel, debug: bool)
    requires RadiometryOf(t) == RadiometryOf(u)
    requires t.width * t.height == u.width * u.height && t.data == u.data
    ensures Calibrate(t, pm, debug) == Calibrate(u, pm, debug)
  {
  }

  /** A tile of bands 1 to 6 decodes with k == 0.0. Calibrating it raises
      OverflowError when wl**5 overflows, and otherwise ZeroDivisionError
      for a finite wavelength; only an infinite or NaN wavelength lets it
      go through, where the debug print of data[0] is the one exception
      left. */
  lemma UncalibratedBandOutcome(b: seq<byte>, decodeDebug: bool, pm: PlanckModel, debug: bool)
    requires Sound(pm)
    requires Decode(b, decodeDebug).Success? && Decode(b, decodeDebug).value.band <= LAST_UNCALIBRATED_BAND
    ensures var t := Decode(b, decodeDebug).value;
      pm.overflows(t.wavelength) ==> Calibrate(t, pm, debug) == Failure(Overflow)
    ensures var t := Decode(b, decodeDebug).value;
      Finite(t.wavelength) && !pm.overflows(t.wavelength) ==> Calibrate(t, pm, debug) == Failure(ZeroDivision)
    ensures var t := Decode(b, decodeDebug).value;
      !Finite(t.wavelength) ==> (Calibrate(t, pm, debug).Success? <==> !(debug && |t.data| == 0))
  {
    var t := Decode(b, decodeDebug).value;
    assert RadiometryOf(t).k == ZERO_F64;
  }

  /** A decoded tile has exactly width*height samples, so when wl**5 does
      not overflow and its constants allow the divisions every pixel gets Tb of its sample, with
      no zero tail and no index error. */
  lemma DecodedTileCalibrates(b: seq<byte>, pm: PlanckModel)
    requires Decode(b, true).Success?
    requires !pm.overflows(Decode(b, true).value.wavelength)
    requires pm.divisorsNonzero(RadiometryOf(Decode(b, true).value))
    ensures var t := Decode(b, true).value;
      Calibrate(t, pm, true).Success?
      && forall i :: 0 <= i < |t.data| ==>
           Calibrate(t, pm, true).value[i] == pm.tb(RadiometryOf(t), t.data[i])
  {
  }
}
