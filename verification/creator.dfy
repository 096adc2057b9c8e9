/**
  Construction of the archive writer (`HDF5Creator.__init__` in
  Starfish/grid_tools/base_interfaces.py): the parameter axes it will walk,
  the wavelength window it will keep, and the final wavelength grid the
  stored spectra are sampled on.
 */
module Creator {
  import opened Errors
  import opened Seqs
  import opened RawGrid

  /** An instrument: resolution (FWHM, km/s), wavelength coverage and
      oversampling (pixels per FWHM). */
  datatype Instrument = Instrument(fwhm: real, wlRange: (real, real), oversampling: real)

  /** A closed wavelength interval. */
  datatype Window = Window(lo: real, hi: real)

  /** The wavelength range both the library and the instrument cover:
      `(max(native[0], inst_min), min(native[-1], inst_max))`, where a missing
      instrument stands for `(-inf, inf)`. */
  function ImposedRange(native: seq<real>, instrument: Option<Instrument>): (r: (real, real))
    requires |native| > 0
    ensures native[0] <= r.0 && r.1 <= native[|native| - 1]
    ensures instrument.None? ==> r == (native[0], native[|native| - 1])
    ensures instrument.Some? ==>
      && instrument.value.wlRange.0 <= r.0 && (r.0 == native[0] || r.0 == instrument.value.wlRange.0)
      && r.1 <= instrument.value.wlRange.1 && (r.1 == native[|native| - 1] || r.1 == instrument.value.wlRange.1)
  {
    var last := native[|native| - 1];
    match instrument
    case None => (native[0], last)
    case Some(inst) =>
      (if native[0] >= inst.wlRange.0 then native[0] else inst.wlRange.0,
       if last <= inst.wlRange.1 then last else inst.wlRange.1)
  }

  /** Lower end of the requested range, widened by the buffer; no range
      stands for `(0, inf)`. */
  function RequestedLow(wlRange: Option<(real, real)>, buffer: real): real {
    (if wlRange.None? then 0.0 else wlRange.value.0) - buffer
  }

  /** Upper end of the requested range, widened by the buffer; `None` is
      `+inf`. */
  function RequestedHigh(wlRange: Option<(real, real)>, buffer: real): Option<real> {
    if wlRange.None? then None else Some(wlRange.value.1 + buffer)
  }

  /** The wavelength window: the buffered request clipped to the imposed
      range. It fails exactly when the two intervals do not meet. */
  function WavelengthWindow(native: seq<real>, instrument: Option<Instrument>,
                            wlRange: Option<(real, real)>, buffer: real): (r: Result<Window>)
    requires |native| > 0
    ensures var (imin, imax) := ImposedRange(native, instrument);
      var lo := RequestedLow(wlRange, buffer);
      var hi := RequestedHigh(wlRange, buffer);
      && (r.Err? <==>
            imax < imin || imax < lo || (hi.Some? && (hi.value < lo || hi.value < imin)))
      && (r.Err? ==> r.error == EmptyWindow)
      && (r.Ok? ==>
            && imin <= r.value.lo <= r.value.hi <= imax
            && lo <= r.value.lo && (r.value.lo == lo || r.value.lo == imin)
            && (hi.None? ==> r.value.hi == imax)
            && (hi.Some? ==> r.value.hi <= hi.value && (r.value.hi == hi.value || r.value.hi == imax)))
  {
    var (imin, imax) := ImposedRange(native, instrument);
    var lo0 := RequestedLow(wlRange, buffer);
    var lo := if lo0 < imin then imin else lo0;
    // With no range the maximum is `inf + buffer`, which always exceeds imax.
    var hi := match RequestedHigh(wlRange, buffer)
              case None => imax
              case Some(h) => if h > imax then imax else h;
    if hi < lo then Err(EmptyWindow) else Ok(Window(lo, hi))
  }

  /** The open interval `(lo, hi)` as a mask. */
  function Inside(w: Window): real -> bool {
    x => w.lo < x < w.hi
  }

  /** The writer once constructed: what it will walk and where it will sample. */
  datatype Creator = Creator(
    name: string,
    air: bool,
    points: seq<seq<real>>,
    window: Window,
    wlFinal: seq<real>,
    dvFinal: real)

  /** `HDF5Creator.__init__`. `dvNative` is `calculate_dv(wl_native)` and
      `logLamGrid(dv, lo, hi)` is `create_log_lam_grid` followed by
      `calculate_dv_dict`; both are computed outside this model. Errors come in
      the source's order: axis restriction, then the native grid, then the
      window. */
  function NewCreator(grid: RawGrid, instrument: Option<Instrument>,
                      wlRange: Option<(real, real)>, ranges: Option<seq<(real, real)>>,
                      buffer: real, dvNative: real,
                      logLamGrid: (real, real, real) -> (seq<real>, real)): (r: Result<Creator>)
    ensures var axes := RestrictAxes(grid.points, ranges);
      && (axes.Err? ==> r == Err(axes.error))
      && (axes.Ok? && |grid.wl| == 0 ==> r == Err(IndexOutOfRange))
      && (axes.Ok? && |grid.wl| > 0 ==>
            (r.Ok? <==> && WavelengthWindow(grid.wl, instrument, wlRange, buffer).Ok?
                        && (instrument.Some? ==> instrument.value.oversampling != 0.0)))
      && (r.Ok? ==>
            && |grid.wl| > 0
            && r.value.points == axes.value
            && r.value.window == WavelengthWindow(grid.wl, instrument, wlRange, buffer).value
            && r.value.name == grid.name && r.value.air == grid.air)
    ensures r.Ok? && instrument.None? ==>
      && r.value.wlFinal == Filter(grid.wl, Inside(r.value.window))
      && r.value.dvFinal == dvNative
    ensures r.Ok? && instrument.Some? ==>
      instrument.value.oversampling != 0.0 &&
      (r.value.wlFinal, r.value.dvFinal) ==
        logLamGrid(instrument.value.fwhm / instrument.value.oversampling,
                   r.value.window.lo, r.value.window.hi)
    ensures instrument.Some? && instrument.value.oversampling == 0.0 &&
            RestrictAxes(grid.points, ranges).Ok? && |grid.wl| > 0 &&
            WavelengthWindow(grid.wl, instrument, wlRange, buffer).Ok? ==>
      r == Err(DivisionByZero)
  {
    match RestrictAxes(grid.points, ranges)
    case Err(e) => Err(e)
    case Ok(points) =>
      if |grid.wl| == 0 then Err(IndexOutOfRange)
      else
        match WavelengthWindow(grid.wl, instrument, wlRange, buffer)
        case Err(e) => Err(e)
        case Ok(w) =>
          match instrument
          case None => Ok(Creator(grid.name, grid.air, points, w, Filter(grid.wl, Inside(w)), dvNative))
          case Some(inst) =>
            if inst.oversampling == 0.0 then Err(DivisionByZero)
            else
              var (wl, dv) := logLamGrid(inst.fwhm / inst.oversampling, w.lo, w.hi);
              Ok(Creator(grid.name, grid.air, points, w, wl, dv))
  }

  /** Without an instrument the final grid is exactly the native samples
      strictly inside the window, in order, at the native spacing. */
  lemma NoInstrumentFinalGrid(grid: RawGrid, wlRange: Option<(real, real)>,
                              ranges: Option<seq<(real, real)>>, buffer: real, dvNative: real,
                              logLamGrid: (real, real, real) -> (seq<real>, real), c: Creator)
    requires StrictlyIncreasing(grid.wl)
    requires NewCreator(grid, None, wlRange, ranges, buffer, dvNative, logLamGrid) == Ok(c)
    ensures StrictlyIncreasing(c.wlFinal)
    ensures forall x :: x in c.wlFinal <==> x in grid.wl && c.window.lo < x < c.window.hi
    ensures c.dvFinal == dvNative
  {
    FilterIncreasing(grid.wl, Inside(c.window));
  }

  /** The window checks against an instrument covering `(1e4, 4e4)` and a
      library covering at least that much, for any buffer up to 5000. */
  lemma InstrumentWindowExamples(native: seq<real>, buffer: real)
    requires |native| > 0 && native[0] <= 10000.0 && native[|native| - 1] >= 40000.0
    requires 0.0 <= buffer <= 5000.0
    ensures var inst := Some(Instrument(45.0, (10000.0, 40000.0), 4.0));
      && WavelengthWindow(native, inst, Some((20000.0, 3000.0)), buffer).Err?
      && WavelengthWindow(native, inst, Some((2000.0, 3000.0)), buffer).Err?
      && WavelengthWindow(native, inst, Some((40000.0, 24000.0)), buffer).Err?
      && WavelengthWindow(native, inst, Some((50000.0, 60000.0)), buffer).Err?
      && WavelengthWindow(native, inst, Some((5000.0, 20000.0)), buffer) == Ok(Window(10000.0, 20000.0 + buffer))
      && WavelengthWindow(native, inst, Some((10000.0, 20000.0)), buffer) == Ok(Window(10000.0, 20000.0 + buffer))
      && WavelengthWindow(native, inst, Some((10000.0, 40000.0)), buffer) == Ok(Window(10000.0, 40000.0))
      && WavelengthWindow(native, inst, Some((20000.0, 40000.0)), buffer) == Ok(Window(20000.0 - buffer, 40000.0))
      && WavelengthWindow(native, inst, Some((20000.0, 60000.0)), buffer) == Ok(Window(20000.0 - buffer, 40000.0))
  {
  }
}
