/** The enumerations and settings records shared by the whole renderer, with the default
    values their constructors give. */
module Structs {
  import opened ComplexNumbers

  /** `mtype`: the dynamical map selected for the fractal */
  datatype MType = LogisticMap | CircleMap | GaussMap | CustomMap | UnknownMap

  /** `rxtype`: which bifurcation parameter one step of the sequence uses */
  datatype RxType = A | B | C

  /** `coloring_mode` */
  datatype ColoringMode = Binary | Linear | UnknownMode

  /** `fractalsettings_t` */
  datatype FractalSettings = FractalSettings(
    mapType: MType,
    x0: Complex,
    minRa: real, maxRa: real,
    minRb: real, maxRb: real,
    minRc: real, maxRc: real)

  /** `imagesettings_t` */
  datatype ImageSettings = ImageSettings(width: nat, height: nat, name: string)

  /** `colorsettings_t` */
  datatype ColorSettings = ColorSettings(
    mode: ColoringMode,
    negPaletteName: string,
    posPaletteName: string,
    drawCrosshair: bool)

  /** `rendersettings_t` */
  datatype RenderSettings = RenderSettings(
    maxIter: nat,
    transientIter: nat,
    maxSectorSize: nat,
    maxThreads: nat,
    saveExpMatrix: bool,
    loadExpMatrix: bool,
    skipColoring: bool,
    lowerPosClamp: real,
    upperPosClamp: real,
    lowerNegClamp: real,
    upperNegClamp: real,
    matrixOutFilename: string,
    matrixInFilename: string)

  /** `consolesettings_t`: integer flags, 0 meaning off */
  datatype ConsoleSettings = ConsoleSettings(
    verboseOutput: int,
    coloredOutput: int,
    suppressWarnings: int,
    suppressErrors: int)

  const DefaultFractal: FractalSettings :=
    FractalSettings(LogisticMap, Complex(0.5, 0.0), 0.0, 4.0, 0.0, 4.0, 0.0, 0.0)

  const DefaultImage: ImageSettings := ImageSettings(1000, 1000, "fractal")

  const DefaultColor: ColorSettings := ColorSettings(Linear, "npalette", "ppalette", false)

  const DefaultRender: RenderSettings :=
    RenderSettings(2000, 200, 64, 1, false, false, false,
                   0.0, 10000.0, -10000.0, 0.0,
                   "exponent_matrix", "exponent_matrix")

  const DefaultConsole: ConsoleSettings := ConsoleSettings(0, 0, 0, 0)

  /** The default parameter ranges are ordered, the seed x0 = 0.5 + 0i is the critical
      point of the logistic map, and each clamp pair is ordered with the positive pair at
      or above 0 and the negative pair at or below 0. */
  lemma DefaultsOrdered()
    ensures DefaultFractal.minRa <= DefaultFractal.maxRa
    ensures DefaultFractal.minRb <= DefaultFractal.maxRb
    ensures DefaultFractal.minRc <= DefaultFractal.maxRc
    ensures DefaultFractal.x0 == Real(0.5)
    ensures 0.0 <= DefaultRender.lowerPosClamp <= DefaultRender.upperPosClamp
    ensures DefaultRender.lowerNegClamp <= DefaultRender.upperNegClamp <= 0.0
    ensures DefaultRender.maxSectorSize > 0 && DefaultRender.transientIter < DefaultRender.maxIter
    ensures DefaultRender.matrixOutFilename == DefaultRender.matrixInFilename
  {
  }
}
