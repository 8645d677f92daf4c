/** The command-line option parser: the conversion wrappers, the extraction of n numbers,
    and the specification of one parsing step and of a whole parse over the settings it
    may write. The loop that applies it to the process-wide settings is
    `Alyr.Internals.ParseOptions`. */
module ParseOptions {
  import opened Wrappers
  import opened ComplexNumbers
  import opened Structs
  import opened OptionTables

  /** The library conversions `stoull`, `stold` and `stoi`, kept abstract: each either
      yields a value or fails (throws). */
  datatype Conversions = Conversions(
    toSize: string -> Option<nat>,
    toLongDouble: string -> Option<real>,
    toInt: string -> Option<int>)

  /** Everything the parser may write: the four settings records, the console flags and
      the rx sequence. */
  datatype Settings = Settings(
    fractal: FractalSettings,
    image: ImageSettings,
    color: ColorSettings,
    render: RenderSettings,
    console: ConsoleSettings,
    rxSequence: seq<RxType>)

  // ----------------------------------------------------------------------------------
  // Conversion wrappers

  /** `string_to_st(str, ull)`, `string_to_ld(str, ld)`, `string_to_int(str, i)`: 1 and the
      out-parameter unchanged when the conversion fails, 0 and the converted value when it
      succeeds. */
  method StringToValue<T>(str: string, convert: string -> Option<T>, current: T) returns (code: int, value: T)
    ensures convert(str).None? ==> code == 1 && value == current
    ensures convert(str).Some? ==> code == 0 && value == convert(str).value
  {
    var tmp := convert(str);
    if tmp.None? {
      return 1, current;
    }
    return 0, tmp.value;
  }

  /** The iterator forms of the three wrappers: 2 and the out-parameter unchanged when the
      iterator is at `end()`, otherwise the single-string form on the element it points to. */
  method StringToValueAt<T>(vec: seq<string>, it: nat, convert: string -> Option<T>, current: T)
    returns (code: int, value: T)
    requires it <= |vec|
    ensures it == |vec| ==> code == 2 && value == current
    ensures it < |vec| && convert(vec[it]).None? ==> code == 1 && value == current
    ensures it < |vec| && convert(vec[it]).Some? ==> code == 0 && value == convert(vec[it]).value
  {
    if it == |vec| {
      return 2, current;
    }
    code, value := StringToValue(vec[it], convert, current);
  }

  /** `string_to_st(vec, it, ull)`, through `stoull` */
  method StringToSt(vec: seq<string>, it: nat, conv: Conversions, ull: nat) returns (code: int, result: nat)
    requires it <= |vec|
    ensures code == 0 <==> it < |vec| && conv.toSize(vec[it]).Some?
    ensures code == 0 ==> result == conv.toSize(vec[it]).value
    ensures code != 0 ==> result == ull && code == (if it == |vec| then 2 else 1)
  {
    code, result := StringToValueAt(vec, it, conv.toSize, ull);
  }

  /** `string_to_ld(vec, it, ld)`, through `stold` */
  method StringToLd(vec: seq<string>, it: nat, conv: Conversions, ld: real) returns (code: int, result: real)
    requires it <= |vec|
    ensures code == 0 <==> it < |vec| && conv.toLongDouble(vec[it]).Some?
    ensures code == 0 ==> result == conv.toLongDouble(vec[it]).value
    ensures code != 0 ==> result == ld && code == (if it == |vec| then 2 else 1)
  {
    code, result := StringToValueAt(vec, it, conv.toLongDouble, ld);
  }

  /** `string_to_int(vec, it, i)`, through `stoi` */
  method StringToInt(vec: seq<string>, it: nat, conv: Conversions, i: int) returns (code: int, result: int)
    requires it <= |vec|
    ensures code == 0 <==> it < |vec| && conv.toInt(vec[it]).Some?
    ensures code == 0 ==> result == conv.toInt(vec[it]).value
    ensures code != 0 ==> result == i && code == (if it == |vec| then 2 else 1)
  {
    code, result := StringToValueAt(vec, it, conv.toInt, i);
  }

  /** Every string of `strs` converts. */
  ghost predicate AllConvert(strs: seq<string>, convert: string -> Option<real>)
  {
    forall i :: 0 <= i < |strs| ==> convert(strs[i]).Some?
  }

  /** The converted values of `strs`, in order. */
  ghost function Converted(strs: seq<string>, convert: string -> Option<real>): seq<real>
    requires AllConvert(strs, convert)
  {
    seq(|strs|, i requires 0 <= i < |strs| => convert(strs[i]).value)
  }

  /** `extract_n_numbers_from_vec`: 1 when fewer than n strings are given, 2 when one of the
      first n does not convert (the output is then untouched), otherwise 0 with the output
      set to the n converted values in order. */
  method ExtractNNumbers(stringvec: seq<string>, n: nat, convert: string -> Option<real>, extracted: seq<real>)
    returns (code: int, result: seq<real>)
    ensures |stringvec| < n ==> code == 1 && result == extracted
    ensures |stringvec| >= n ==> (code == 0 <==> AllConvert(stringvec[..n], convert))
    ensures |stringvec| >= n && code != 0 ==> code == 2 && result == extracted
    ensures code == 0 ==> |stringvec| >= n && result == Converted(stringvec[..n], convert)
  {
    if |stringvec| < n {
      return 1, extracted;
    }
    var tmp: seq<real> := [];
    var i := 0;
    while i < n
      invariant 0 <= i <= n
      invariant AllConvert(stringvec[..i], convert)
      invariant tmp == Converted(stringvec[..i], convert)
    {
      var c, v := StringToValue(stringvec[i], convert, 0.0);
      tmp := tmp + [v];
      if c != 0 {
        assert !AllConvert(stringvec[..n], convert) by {
          assert stringvec[..n][i] == stringvec[i];
        }
        return 2, extracted;
      }
      assert stringvec[..i + 1] == stringvec[..i] + [stringvec[i]];
      i := i + 1;
    }
    assert stringvec[..n] == stringvec[..i];
    return 0, tmp;
  }

  // ----------------------------------------------------------------------------------
  // The rx sequence

  /** The regular expression `^[ABC]+$`: non-empty, and only the letters A, B and C. */
  predicate IsRxSequence(str: string)
  {
    |str| > 0 && forall i :: 0 <= i < |str| ==> str[i] == 'A' || str[i] == 'B' || str[i] == 'C'
  }

  /** The switch on one letter; its `default:` label shares the case of 'A'. */
  function RxOf(c: char): RxType
  {
    match c
    case 'B' => B
    case 'C' => C
    case _ => A
  }

  /** The letter naming a sequence element. */
  function LetterOf(r: RxType): char
  {
    match r
    case A => 'A'
    case B => 'B'
    case C => 'C'
  }

  /** The rx sequence built by pushing back one element per letter. */
  function Translate(str: string): seq<RxType>
  {
    if |str| == 0 then [] else Translate(str[..|str| - 1]) + [RxOf(str[|str| - 1])]
  }

  /** The translation is letter for letter: same length, element i from letter i. */
  lemma {:induction false} TranslateLetters(str: string)
    ensures |Translate(str)| == |str|
    ensures forall i :: 0 <= i < |str| ==> Translate(str)[i] == RxOf(str[i])
  {
    if |str| > 0 {
      var init := str[..|str| - 1];
      TranslateLetters(init);
      forall i | 0 <= i < |str| - 1
        ensures Translate(str)[i] == RxOf(str[i])
      {
        assert init[i] == str[i];
      }
    }
  }

  /** On an accepted sequence the translation loses nothing: reading the letters back
      gives the argument string. */
  lemma TranslateRoundTrip(str: string)
    requires IsRxSequence(str)
    ensures |Translate(str)| == |str|
    ensures forall i :: 0 <= i < |str| ==> LetterOf(Translate(str)[i]) == str[i]
  {
    TranslateLetters(str);
  }

  // ----------------------------------------------------------------------------------
  // One parsing step and the whole parse

  /** The outcome of handling the front element: either the settings after it and the
      number of elements to erase, or a return code. */
  datatype Step = Continue(next: Settings, pop: nat) | Stop(code: int)

  /** The option a front element names; `unknown` when it is not a flag. */
  function Classify(flag: string): CmdOption
  {
    match FlagTable(flag)
    case Some(o) => o
    case None => Unknown
  }

  /** The second element, when there is one. */
  function StringArg(options: seq<string>): Option<string>
  {
    if |options| < 2 then None else Some(options[1])
  }

  /** The second element converted by `stoull`; `None` when absent or not convertible. */
  function SizeArg(options: seq<string>, conv: Conversions): Option<nat>
  {
    if |options| < 2 then None else conv.toSize(options[1])
  }

  /** The second element converted by `stold`; `None` when absent or not convertible. */
  function RealArg(options: seq<string>, conv: Conversions): Option<real>
  {
    if |options| < 2 then None else conv.toLongDouble(options[1])
  }

  /** The map named by the second element; `None` when absent or not in the table. */
  function MapArg(options: seq<string>): Option<MType>
  {
    if |options| < 2 || options[1] !in MapNames then None else Some(MapNames[options[1]])
  }

  /** The colouring mode named by the second element; `None` when absent or unknown. */
  function ColoringModeArg(options: seq<string>): Option<ColoringMode>
  {
    if |options| < 2 || options[1] !in ColoringModeNames then None
    else Some(ColoringModeNames[options[1]])
  }

  /** The translated sequence of the second element; `None` when absent or not `^[ABC]+$`. */
  function SequenceArg(options: seq<string>): Option<seq<RxType>>
  {
    if |options| < 2 || !IsRxSequence(options[1]) then None else Some(Translate(options[1]))
  }

  /** An option with a value: return code 2 without a value, else one setting written and
      two elements erased. */
  function WithValue<T>(arg: Option<T>, update: T -> Settings): Step
  {
    match arg
    case None => Stop(2)
    case Some(v) => Continue(update(v), 2)
  }

  /** The body of the parsing loop for the front element of a non-empty list. A step
      that goes on erases exactly the table's pop count, never more than the list holds;
      a step that stops returns -1 (unrecognised), 1 (help) or 2 (error). */
  function StepOf(options: seq<string>, s: Settings, conv: Conversions): (r: Step)
    requires |options| > 0
    ensures r.Continue? ==> r.pop == PopCount(Classify(options[0])) && 1 <= r.pop <= |options|
    ensures r.Stop? ==> r.code == -1 || r.code == 1 || r.code == 2
  {
    match Classify(options[0])
    case PrintHelp => Stop(1)
    case EnableVerbose => Continue(s.(console := s.console.(verboseOutput := 1)), 1)
    case SetWidth => WithValue(SizeArg(options, conv), (w: nat) => s.(image := s.image.(width := w)))
    case SetHeight => WithValue(SizeArg(options, conv), (h: nat) => s.(image := s.image.(height := h)))
    case SetOutputImageFilename =>
      WithValue(StringArg(options), (n: string) => s.(image := s.image.(name := n)))
    case SaveLyapExpMatrix =>
      WithValue(StringArg(options),
        (n: string) => s.(render := s.render.(saveExpMatrix := true, matrixOutFilename := n)))
    case LoadLyapExpMatrix =>
      WithValue(StringArg(options),
        (n: string) => s.(render := s.render.(loadExpMatrix := true, matrixInFilename := n)))
    case SkipColoring => Continue(s.(render := s.render.(skipColoring := true)), 1)
    case SetSectorSize =>
      WithValue(SizeArg(options, conv), (v: nat) => s.(render := s.render.(maxSectorSize := v)))
    case SetMaxThreads =>
      WithValue(SizeArg(options, conv), (v: nat) => s.(render := s.render.(maxThreads := v)))
    case SetMap => WithValue(MapArg(options), (m: MType) => s.(fractal := s.fractal.(mapType := m)))
    case SetSequence => WithValue(SequenceArg(options), (rx: seq<RxType>) => s.(rxSequence := rx))
    case SetX0Re =>
      WithValue(RealArg(options, conv),
        (v: real) => s.(fractal := s.fractal.(x0 := Complex(v, s.fractal.x0.im))))
    case SetX0Im =>
      WithValue(RealArg(options, conv),
        (v: real) => s.(fractal := s.fractal.(x0 := Complex(s.fractal.x0.re, v))))
    case SetMinRa => WithValue(RealArg(options, conv), (v: real) => s.(fractal := s.fractal.(minRa := v)))
    case SetMaxRa => WithValue(RealArg(options, conv), (v: real) => s.(fractal := s.fractal.(maxRa := v)))
    case SetMinRb => WithValue(RealArg(options, conv), (v: real) => s.(fractal := s.fractal.(minRb := v)))
    case SetMaxRb => WithValue(RealArg(options, conv), (v: real) => s.(fractal := s.fractal.(maxRb := v)))
    case SetMinRc => WithValue(RealArg(options, conv), (v: real) => s.(fractal := s.fractal.(minRc := v)))
    case SetMaxRc => WithValue(RealArg(options, conv), (v: real) => s.(fractal := s.fractal.(maxRc := v)))
    case SetMaxIterations =>
      WithValue(SizeArg(options, conv), (v: nat) => s.(render := s.render.(maxIter := v)))
    case SetTransientIterations =>
      WithValue(SizeArg(options, conv), (v: nat) => s.(render := s.render.(transientIter := v)))
    case SetLowPosClamp =>
      WithValue(RealArg(options, conv), (v: real) => s.(render := s.render.(lowerPosClamp := v)))
    case SetUppPosClamp =>
      WithValue(RealArg(options, conv), (v: real) => s.(render := s.render.(upperPosClamp := v)))
    case SetLowNegClamp =>
      WithValue(RealArg(options, conv), (v: real) => s.(render := s.render.(lowerNegClamp := v)))
    case SetUppNegClamp =>
      WithValue(RealArg(options, conv), (v: real) => s.(render := s.render.(upperNegClamp := v)))
    case SetNpaletteFilename =>
      WithValue(StringArg(options), (n: string) => s.(color := s.color.(negPaletteName := n)))
    case SetPpaletteFilename =>
      WithValue(StringArg(options), (n: string) => s.(color := s.color.(posPaletteName := n)))
    case SetColoringMode =>
      WithValue(ColoringModeArg(options), (m: ColoringMode) => s.(color := s.color.(mode := m)))
    case EnableCrosshair => Continue(s.(color := s.color.(drawCrosshair := true)), 1)
    case Unknown => Stop(-1)
  }

  /** `parse_options`: handle the front element until the list is empty (return code 0)
      or a step stops. The settings returned are those in force when the loop ended:
      whatever earlier options wrote stays written. */
  function Parse(options: seq<string>, s: Settings, conv: Conversions): (r: (int, Settings))
    ensures r.0 == -1 || r.0 == 0 || r.0 == 1 || r.0 == 2
    decreases |options|
  {
    if |options| == 0 then (0, s)
    else
      match StepOf(options, s, conv)
      case Stop(code) => (code, s)
      case Continue(next, pop) => Parse(options[pop..], next, conv)
  }

  /** An unrecognised front element returns -1 at once, and help returns 1 at once,
      without looking at the rest of the list and with nothing written. */
  lemma ParseStopsAtFront(options: seq<string>, s: Settings, conv: Conversions)
    requires |options| > 0
    ensures Classify(options[0]) == Unknown ==> Parse(options, s, conv) == (-1, s)
    ensures Classify(options[0]) == PrintHelp ==> Parse(options, s, conv) == (1, s)
  {
  }

  /** An option that needs a value but is the last element returns 2 before anything
      is erased or written. */
  lemma MissingValue(flag: string, s: Settings, conv: Conversions)
    requires !IsSwitch(Classify(flag))
    ensures StepOf([flag], s, conv) == Stop(2)
    ensures Parse([flag], s, conv) == (2, s)
  {
  }

  /** `--sequence` goes on iff its argument matches `^[ABC]+$`; the rx sequence then
      becomes the letter-for-letter translation and nothing else changes. Any other
      argument stops parsing with 2 and the settings untouched. */
  lemma SequenceStep(options: seq<string>, s: Settings, conv: Conversions)
    requires |options| >= 2 && Classify(options[0]) == SetSequence
    ensures StepOf(options, s, conv).Continue? <==> IsRxSequence(options[1])
    ensures StepOf(options, s, conv).Continue? ==>
              StepOf(options, s, conv).next == s.(rxSequence := Translate(options[1]))
              && |Translate(options[1])| == |options[1]|
    ensures !IsRxSequence(options[1]) ==> StepOf(options, s, conv) == Stop(2) && Parse(options, s, conv) == (2, s)
  {
    TranslateLetters(options[1]);
  }

  /** `--map` and `--coloring-mode` go on iff the name is in their table, and then set
      the setting from the table and nothing else; an unknown name stops parsing with 2
      and the settings untouched. */
  lemma NamedValueSteps(options: seq<string>, s: Settings, conv: Conversions)
    requires |options| >= 2
    ensures Classify(options[0]) == SetMap ==>
              (StepOf(options, s, conv).Continue? <==> options[1] in MapNames)
              && (options[1] in MapNames ==>
                    StepOf(options, s, conv).next == s.(fractal := s.fractal.(mapType := MapNames[options[1]])))
    ensures Classify(options[0]) == SetColoringMode ==>
              (StepOf(options, s, conv).Continue? <==> options[1] in ColoringModeNames)
              && (options[1] in ColoringModeNames ==>
                    StepOf(options, s, conv).next == s.(color := s.color.(mode := ColoringModeNames[options[1]])))
    ensures Classify(options[0]) == SetMap && options[1] !in MapNames ==>
              StepOf(options, s, conv) == Stop(2) && Parse(options, s, conv) == (2, s)
    ensures Classify(options[0]) == SetColoringMode && options[1] !in ColoringModeNames ==>
              StepOf(options, s, conv) == Stop(2) && Parse(options, s, conv) == (2, s)
  {
  }

  /** A step that goes on reads nothing beyond the elements it erases. */
  lemma StepOnPrefix(a: seq<string>, b: seq<string>, s: Settings, conv: Conversions)
    requires |a| > 0 && StepOf(a, s, conv).Continue?
    ensures StepOf(a + b, s, conv) == StepOf(a, s, conv)
  {
    assert (a + b)[0] == a[0];
    if |a| >= 2 {
      assert (a + b)[1] == a[1];
    }
  }

  /** Parsing is sequential composition: when a list parses to the end with code 0, a
      list that extends it parses as the extension run on the settings the first part
      left. So settings are last-write-wins, and a later failing option rolls nothing
      back. */
  lemma {:induction false} ParseConcat(a: seq<string>, b: seq<string>, s: Settings, conv: Conversions)
    requires Parse(a, s, conv).0 == 0
    ensures Parse(a + b, s, conv) == Parse(b, Parse(a, s, conv).1, conv)
    decreases |a|
  {
    if |a| > 0 {
      StepOnPrefix(a, b, s, conv);
      var step := StepOf(a, s, conv);
      assert (a + b)[step.pop..] == a[step.pop..] + b;
      ParseConcat(a[step.pop..], b, step.next, conv);
    } else {
      assert a + b == b;
    }
  }

  /** Last write wins: of two width options, the second one's value is kept. */
  lemma LastWidthWins(x: string, y: string, s: Settings, conv: Conversions)
    requires conv.toSize(x).Some? && conv.toSize(y).Some?
    ensures Parse(["-w", x, "--width", y], s, conv) == (0, s.(image := s.image.(width := conv.toSize(y).value)))
  {
    var a := ["-w", x];
    var b := ["--width", y];
    assert a + b == ["-w", x, "--width", y];
    var mid := s.(image := s.image.(width := conv.toSize(x).value));
    assert Parse(a[2..], mid, conv) == (0, mid);
    assert Parse(a, s, conv) == (0, mid);
    ParseConcat(a, b, s, conv);
    assert Parse(b[2..], mid.(image := mid.image.(width := conv.toSize(y).value)), conv).0 == 0;
  }
}
