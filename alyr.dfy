/** The renderer's process-wide state (`alyr::internals`): the settings records, the rx
    sequence and the two palettes, updated in place by the option parser and the palette
    loader and read by `render`. */
module Alyr {
  import opened Wrappers
  import opened ComplexNumbers
  import opened Png
  import opened Structs
  import opened OptionTables
  import opened ParseOptions
  import opened Palettes
  import opened LongDouble
  import opened Rendering

  class Internals {
    var fsettings: FractalSettings
    var isettings: ImageSettings
    var csettings: ColorSettings
    var rsettings: RenderSettings
    var consettings: ConsoleSettings
    var rxSequence: seq<RxType>
    var npalette: seq<Rgb>
    var ppalette: seq<Rgb>

    /** The settings the option parser may write. */
    function Snapshot(): Settings
      reads this
    {
      Settings(fsettings, isettings, csettings, rsettings, consettings, rxSequence)
    }

    /** The state at start-up: every record at its defaults, the rx sequence A, B, and
        both palettes empty until they are loaded. */
    constructor ()
      ensures Snapshot() == Settings(DefaultFractal, DefaultImage, DefaultColor, DefaultRender, DefaultConsole, [A, B])
      ensures npalette == [] && ppalette == []
    {
      fsettings := DefaultFractal;
      isettings := DefaultImage;
      csettings := DefaultColor;
      rsettings := DefaultRender;
      consettings := DefaultConsole;
      rxSequence := [A, B];
      npalette := [];
      ppalette := [];
    }

    /** The body of the `parse_options` loop for the front element: either it returns a
        code, having written nothing, or it writes the option's setting and reports how
        many elements to erase. */
    method ParseFront(options: seq<string>, conv: Conversions) returns (stop: bool, code: int, pop: nat)
      requires |options| > 0
      modifies this
      ensures stop ==> StepOf(options, old(Snapshot()), conv) == Stop(code) && Snapshot() == old(Snapshot())
      ensures !stop ==> StepOf(options, old(Snapshot()), conv) == Continue(Snapshot(), pop)
      ensures npalette == old(npalette) && ppalette == old(ppalette)
    {
      var frontElement := options[0];
      var currentOption := Unknown;
      var found := FlagTable(frontElement);
      if found.Some? {
        currentOption := found.value;
      }
      assert currentOption == Classify(frontElement);
      var elementsToPop := PopCount(currentOption);
      stop, code, pop := false, 0, elementsToPop;

      match currentOption
      case PrintHelp =>
        return true, 1, 0;
      case EnableVerbose =>
        consettings := consettings.(verboseOutput := 1);
      case SkipColoring =>
        rsettings := rsettings.(skipColoring := true);
      case SetMap =>
        if |options| < 2 { return true, 2, 0; }
        var tmpMapStr := options[1];
        if tmpMapStr !in MapNames { return true, 2, 0; }
        fsettings := fsettings.(mapType := MapNames[tmpMapStr]);
      case SetSequence =>
        stop, code := ParseSequenceOption(options, conv);
      case SetColoringMode =>
        if |options| < 2 { return true, 2, 0; }
        var tmpCmodeStr := options[1];
        if tmpCmodeStr !in ColoringModeNames { return true, 2, 0; }
        csettings := csettings.(mode := ColoringModeNames[tmpCmodeStr]);
      case EnableCrosshair =>
        csettings := csettings.(drawCrosshair := true);
      case Unknown =>
        return true, -1, 0;
      case SetOutputImageFilename | SaveLyapExpMatrix | LoadLyapExpMatrix | SetNpaletteFilename | SetPpaletteFilename =>
        stop, code := ParseNameOption(options, currentOption, conv);
      case SetWidth | SetHeight | SetSectorSize | SetMaxThreads | SetMaxIterations | SetTransientIterations =>
        stop, code := ParseSizeOption(options, currentOption, conv);
      case SetX0Re | SetX0Im | SetMinRa | SetMaxRa | SetMinRb | SetMaxRb | SetMinRc | SetMaxRc | SetLowPosClamp | SetUppPosClamp | SetLowNegClamp | SetUppNegClamp =>
        stop, code := ParseRealOption(options, currentOption, conv);
    }

    /** `--sequence`: the argument must match `^[ABC]+$`; the rx sequence is then
        rebuilt letter by letter. */
    method ParseSequenceOption(options: seq<string>, conv: Conversions) returns (stop: bool, code: int)
      requires |options| > 0 && Classify(options[0]) == SetSequence
      modifies this
      ensures stop ==> StepOf(options, old(Snapshot()), conv) == Stop(code) && Snapshot() == old(Snapshot())
      ensures !stop ==> StepOf(options, old(Snapshot()), conv) == Continue(Snapshot(), 2)
      ensures npalette == old(npalette) && ppalette == old(ppalette)
    {
      stop, code := false, 0;
      if |options| < 2 { return true, 2; }
      var tmpSeq := options[1];
      if !IsRxSequence(tmpSeq) { return true, 2; }
      var rx: seq<RxType> := [];
      var k := 0;
      while k < |tmpSeq|
        invariant 0 <= k <= |tmpSeq|
        invariant rx == Translate(tmpSeq[..k])
      {
        assert tmpSeq[..k + 1][..k] == tmpSeq[..k];
        match tmpSeq[k] {
          case 'B' => rx := rx + [B];
          case 'C' => rx := rx + [C];
          case _ => rx := rx + [A];
        }
        k := k + 1;
      }
      assert tmpSeq[..k] == tmpSeq;
      rxSequence := rx;
    }

    /** The options whose value is the next element itself. */
    method ParseNameOption(options: seq<string>, currentOption: CmdOption, conv: Conversions) returns (stop: bool, code: int)
      requires |options| > 0 && currentOption == Classify(options[0])
      requires currentOption == SetOutputImageFilename || currentOption == SaveLyapExpMatrix || currentOption == LoadLyapExpMatrix || currentOption == SetNpaletteFilename || currentOption == SetPpaletteFilename
      modifies this
      ensures stop ==> StepOf(options, old(Snapshot()), conv) == Stop(code) && Snapshot() == old(Snapshot())
      ensures !stop ==> StepOf(options, old(Snapshot()), conv) == Continue(Snapshot(), 2)
      ensures npalette == old(npalette) && ppalette == old(ppalette)
    {
      stop, code := false, 0;
      match currentOption
      case SetOutputImageFilename =>
        if |options| < 2 { return true, 2; }
        isettings := isettings.(name := options[1]);
      case SaveLyapExpMatrix =>
        if |options| < 2 { return true, 2; }
        rsettings := rsettings.(saveExpMatrix := true, matrixOutFilename := options[1]);
      case LoadLyapExpMatrix =>
        if |options| < 2 { return true, 2; }
        rsettings := rsettings.(loadExpMatrix := true, matrixInFilename := options[1]);
      case SetNpaletteFilename =>
        if |options| < 2 { return true, 2; }
        csettings := csettings.(negPaletteName := options[1]);
      case SetPpaletteFilename =>
        if |options| < 2 { return true, 2; }
        csettings := csettings.(posPaletteName := options[1]);
      case _ =>
        assert false;
    }

    /** The options whose value goes through `string_to_st`. */
    method ParseSizeOption(options: seq<string>, currentOption: CmdOption, conv: Conversions) returns (stop: bool, code: int)
      requires |options| > 0 && currentOption == Classify(options[0])
      requires currentOption == SetWidth || currentOption == SetHeight || currentOption == SetSectorSize || currentOption == SetMaxThreads || currentOption == SetMaxIterations || currentOption == SetTransientIterations
      modifies this
      ensures stop ==> StepOf(options, old(Snapshot()), conv) == Stop(code) && Snapshot() == old(Snapshot())
      ensures !stop ==> StepOf(options, old(Snapshot()), conv) == Continue(Snapshot(), 2)
      ensures npalette == old(npalette) && ppalette == old(ppalette)
    {
      stop, code := false, 0;
      match currentOption
      case SetWidth =>
        var c, tmpWidth := StringToSt(options, 1, conv, 0);
        if c != 0 { return true, 2; }
        isettings := isettings.(width := tmpWidth);
      case SetHeight =>
        var c, tmpHeight := StringToSt(options, 1, conv, 0);
        if c != 0 { return true, 2; }
        isettings := isettings.(height := tmpHeight);
      case SetSectorSize =>
        var c, tmpSecsize := StringToSt(options, 1, conv, 0);
        if c != 0 { return true, 2; }
        rsettings := rsettings.(maxSectorSize := tmpSecsize);
      case SetMaxThreads =>
        var c, tmpMaxThreads := StringToSt(options, 1, conv, 0);
        if c != 0 { return true, 2; }
        rsettings := rsettings.(maxThreads := tmpMaxThreads);
      case SetMaxIterations =>
        var c, tmpMaxIter := StringToSt(options, 1, conv, 0);
        if c != 0 { return true, 2; }
        rsettings := rsettings.(maxIter := tmpMaxIter);
      case SetTransientIterations =>
        var c, tmpTransientIter := StringToSt(options, 1, conv, 0);
        if c != 0 { return true, 2; }
        rsettings := rsettings.(transientIter := tmpTransientIter);
      case _ =>
        assert false;
    }

    /** The options whose value goes through `string_to_ld`. */
    method ParseRealOption(options: seq<string>, currentOption: CmdOption, conv: Conversions) returns (stop: bool, code: int)
      requires |options| > 0 && currentOption == Classify(options[0])
      requires currentOption == SetX0Re || currentOption == SetX0Im || currentOption == SetMinRa || currentOption == SetMaxRa || currentOption == SetMinRb || currentOption == SetMaxRb || currentOption == SetMinRc || currentOption == SetMaxRc || currentOption == SetLowPosClamp || currentOption == SetUppPosClamp || currentOption == SetLowNegClamp || currentOption == SetUppNegClamp
      modifies this
      ensures stop ==> StepOf(options, old(Snapshot()), conv) == Stop(code) && Snapshot() == old(Snapshot())
      ensures !stop ==> StepOf(options, old(Snapshot()), conv) == Continue(Snapshot(), 2)
      ensures npalette == old(npalette) && ppalette == old(ppalette)
    {
      stop, code := false, 0;
      match currentOption
      case SetX0Re =>
        var c, tmpReal := StringToLd(options, 1, conv, 0.0);
        if c != 0 { return true, 2; }
        fsettings := fsettings.(x0 := Complex(tmpReal, fsettings.x0.im));
      case SetX0Im =>
        var c, tmpImag := StringToLd(options, 1, conv, 0.0);
        if c != 0 { return true, 2; }
        fsettings := fsettings.(x0 := Complex(fsettings.x0.re, tmpImag));
      case SetMinRa =>
        var c, tmpMin := StringToLd(options, 1, conv, 0.0);
        if c != 0 { return true, 2; }
        fsettings := fsettings.(minRa := tmpMin);
      case SetMaxRa =>
        var c, tmpMax := StringToLd(options, 1, conv, 0.0);
        if c != 0 { return true, 2; }
        fsettings := fsettings.(maxRa := tmpMax);
      case SetMinRb =>
        var c, tmpMin := StringToLd(options, 1, conv, 0.0);
        if c != 0 { return true, 2; }
        fsettings := fsettings.(minRb := tmpMin);
      case SetMaxRb =>
        var c, tmpMax := StringToLd(options, 1, conv, 0.0);
        if c != 0 { return true, 2; }
        fsettings := fsettings.(maxRb := tmpMax);
      case SetMinRc =>
        var c, tmpMin := StringToLd(options, 1, conv, 0.0);
        if c != 0 { return true, 2; }
        fsettings := fsettings.(minRc := tmpMin);
      case SetMaxRc =>
        var c, tmpMax := StringToLd(options, 1, conv, 0.0);
        if c != 0 { return true, 2; }
        fsettings := fsettings.(maxRc := tmpMax);
      case SetLowPosClamp =>
        var c, tmpLow := StringToLd(options, 1, conv, 0.0);
        if c != 0 { return true, 2; }
        rsettings := rsettings.(lowerPosClamp := tmpLow);
      case SetUppPosClamp =>
        var c, tmpUpp := StringToLd(options, 1, conv, 0.0);
        if c != 0 { return true, 2; }
        rsettings := rsettings.(upperPosClamp := tmpUpp);
      case SetLowNegClamp =>
        var c, tmpLow := StringToLd(options, 1, conv, 0.0);
        if c != 0 { return true, 2; }
        rsettings := rsettings.(lowerNegClamp := tmpLow);
      case SetUppNegClamp =>
        var c, tmpUpp := StringToLd(options, 1, conv, 0.0);
        if c != 0 { return true, 2; }
        rsettings := rsettings.(upperNegClamp := tmpUpp);
      case _ =>
        assert false;
    }

    /** `parse_options`: handles and erases front elements until the list is empty
        (returning 0) or an element stops the parse with its code. Code and settings are
        those of `Parse`; the palettes are not touched. */
    method ParseOptions(options: seq<string>, conv: Conversions) returns (code: int)
      modifies this
      ensures (code, Snapshot()) == Parse(options, old(Snapshot()), conv)
      ensures npalette == old(npalette) && ppalette == old(ppalette)
    {
      var rest := options;
      while |rest| > 0
        invariant Parse(options, old(Snapshot()), conv) == Parse(rest, Snapshot(), conv)
        invariant npalette == old(npalette) && ppalette == old(ppalette)
        decreases |rest|
      {
        var stop, c, elementsToPop := ParseFront(rest, conv);
        if stop {
          return c;
        }
        rest := rest[elementsToPop..];
      }
      return 0;
    }

    /** `load_palettes`: both palettes cleared, then each loaded from its file or set to
        its fallback; the return value is 2 after a malformed line, else 1 after a
        missing file, else 0. The settings are not touched. */
    method LoadPalettes(files: TextFiles, parse: string -> LineRead) returns (ret: int)
      modifies this
      ensures npalette == LoadedPalette(csettings.negPaletteName, files, parse, NegativeFallback)
      ensures ppalette == LoadedPalette(csettings.posPaletteName, files, parse, PositiveFallback)
      ensures ret == ReturnCode(csettings.negPaletteName, csettings.posPaletteName, files, parse)
      ensures Snapshot() == old(Snapshot())
    {
      ret := 0;
      npalette := [];
      ppalette := [];
      npalette, ret := LoadPalette(csettings.negPaletteName, files, parse, NegativeFallback, ret);
      ppalette, ret := LoadPalette(csettings.posPaletteName, files, parse, PositiveFallback, ret);
    }


    /** `render`, reading the settings and palettes of the process-wide state; see
        `RenderImage`. */
    method Render(exponent: (nat, nat) -> Exp) returns (ok: bool, img: array2<Rgb>)
      requires rsettings.maxSectorSize > 0 || isettings.height == 0
      requires |npalette| > 0 && |ppalette| > 0
      ensures ok <==> Renders(isettings.width, isettings.height, exponent, csettings.mode, rsettings, npalette, ppalette)
      ensures ok ==> fresh(img) && img.Length0 == isettings.height && img.Length1 == isettings.width
      ensures ok ==> forall y, x :: 0 <= y < img.Length0 && 0 <= x < img.Length1 ==>
                img[y, x] == FinalPixel(isettings.width, isettings.height, exponent, csettings.mode, rsettings,
                                        npalette, ppalette, csettings.drawCrosshair, x, y)
    {
      ok, img := RenderImage(isettings.width, isettings.height, rsettings, csettings.mode, csettings.drawCrosshair,
                             npalette, ppalette, exponent);
    }
  }
}
