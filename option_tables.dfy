/** The command-line option enumeration and the four constant lookup tables the option
    parser consults. */
module OptionTables {
  import opened Wrappers
  import opened Structs

  /** `cmdline_option` */
  datatype CmdOption =
    | PrintHelp
    | EnableVerbose
    | SetWidth
    | SetHeight
    | SetOutputImageFilename
    | SaveLyapExpMatrix
    | LoadLyapExpMatrix
    | SkipColoring
    | SetSectorSize
    | SetMaxThreads
    | SetMap
    | SetSequence
    | SetX0Re
    | SetX0Im
    | SetMinRa
    | SetMaxRa
    | SetMinRb
    | SetMaxRb
    | SetMinRc
    | SetMaxRc
    | SetMaxIterations
    | SetTransientIterations
    | SetLowPosClamp
    | SetUppPosClamp
    | SetLowNegClamp
    | SetUppNegClamp
    | SetNpaletteFilename
    | SetPpaletteFilename
    | SetColoringMode
    | EnableCrosshair
    | Unknown

  /** `map_cmdlineopt_num_elem_to_pop`: how many list elements an option consumes. The
      table has an entry for every option, `unknown` included, so this lookup is total. */
  function PopCount(o: CmdOption): (n: nat)
    ensures n == (if IsSwitch(o) then 1 else 2)
  {
    match o
    case PrintHelp => 1
    case EnableVerbose => 1
    case SetWidth => 2
    case SetHeight => 2
    case SetOutputImageFilename => 2
    case SaveLyapExpMatrix => 2
    case LoadLyapExpMatrix => 2
    case SkipColoring => 1
    case SetSectorSize => 2
    case SetMaxThreads => 2
    case SetMap => 2
    case SetSequence => 2
    case SetX0Re => 2
    case SetX0Im => 2
    case SetMinRa => 2
    case SetMaxRa => 2
    case SetMinRb => 2
    case SetMaxRb => 2
    case SetMinRc => 2
    case SetMaxRc => 2
    case SetMaxIterations => 2
    case SetTransientIterations => 2
    case SetLowPosClamp => 2
    case SetUppPosClamp => 2
    case SetLowNegClamp => 2
    case SetUppNegClamp => 2
    case SetNpaletteFilename => 2
    case SetPpaletteFilename => 2
    case SetColoringMode => 2
    case EnableCrosshair => 1
    case Unknown => 1
  }

  /** `map_str_to_cmdlineopt`, with `contains` and `at` folded into one lookup: `None` for
      a string that is not a flag. Spellings are case-sensitive. */
  function FlagTable(flag: string): Option<CmdOption>
  {
    match flag
    case "-H" => Some(PrintHelp)
    case "--help" => Some(PrintHelp)
    case "-v" => Some(EnableVerbose)
    case "--verbose" => Some(EnableVerbose)
    case "-w" => Some(SetWidth)
    case "--width" => Some(SetWidth)
    case "-h" => Some(SetHeight)
    case "--height" => Some(SetHeight)
    case "-o" => Some(SetOutputImageFilename)
    case "--output-image-filename" => Some(SetOutputImageFilename)
    case "-sm" => Some(SaveLyapExpMatrix)
    case "--save" => Some(SaveLyapExpMatrix)
    case "--save-matrix" => Some(SaveLyapExpMatrix)
    case "-lm" => Some(LoadLyapExpMatrix)
    case "--load" => Some(LoadLyapExpMatrix)
    case "--load-matrix" => Some(LoadLyapExpMatrix)
    case "--skip" => Some(SkipColoring)
    case "--skip-coloring" => Some(SkipColoring)
    case "-S" => Some(SetSectorSize)
    case "--sector-size" => Some(SetSectorSize)
    case "-T" => Some(SetMaxThreads)
    case "--max-threads" => Some(SetMaxThreads)
    case "-m" => Some(SetMap)
    case "--map" => Some(SetMap)
    case "-s" => Some(SetSequence)
    case "-seq" => Some(SetSequence)
    case "--sequence" => Some(SetSequence)
    case "-xr" => Some(SetX0Re)
    case "--x0-re" => Some(SetX0Re)
    case "--real" => Some(SetX0Re)
    case "-xi" => Some(SetX0Im)
    case "--x0-im" => Some(SetX0Im)
    case "--imag" => Some(SetX0Im)
    case "-mra" => Some(SetMinRa)
    case "--min-ra" => Some(SetMinRa)
    case "-Mra" => Some(SetMaxRa)
    case "--max-ra" => Some(SetMaxRa)
    case "-mrb" => Some(SetMinRb)
    case "--min-rb" => Some(SetMinRb)
    case "-Mrb" => Some(SetMaxRb)
    case "--max-rb" => Some(SetMaxRb)
    case "-mrc" => Some(SetMinRc)
    case "--min-rc" => Some(SetMinRc)
    case "-Mrc" => Some(SetMaxRc)
    case "--max-rc" => Some(SetMaxRc)
    case "-t" => Some(SetMaxIterations)
    case "--max-iter" => Some(SetMaxIterations)
    case "-tt" => Some(SetTransientIterations)
    case "--transient-iter" => Some(SetTransientIterations)
    case "-lpc" => Some(SetLowPosClamp)
    case "--low-pos-clamp" => Some(SetLowPosClamp)
    case "-upc" => Some(SetUppPosClamp)
    case "--upp-pos-clamp" => Some(SetUppPosClamp)
    case "-lnc" => Some(SetLowNegClamp)
    case "--low-neg-clamp" => Some(SetLowNegClamp)
    case "-unc" => Some(SetUppNegClamp)
    case "--upp-neg-clamp" => Some(SetUppNegClamp)
    case "-np" => Some(SetNpaletteFilename)
    case "--npalette-filename" => Some(SetNpaletteFilename)
    case "-pp" => Some(SetPpaletteFilename)
    case "--ppalette-filename" => Some(SetPpaletteFilename)
    case "-c" => Some(SetColoringMode)
    case "--coloring-mode" => Some(SetColoringMode)
    case "-C" => Some(EnableCrosshair)
    case "--crosshair" => Some(EnableCrosshair)
    case _ => None
  }

  /** `map_string_to_mtype` */
  const MapNames: map<string, MType> := map[
    "logmap" := LogisticMap,
    "circmap" := CircleMap,
    "gaussmap" := GaussMap,
    "custom" := CustomMap
  ]

  /** `map_string_to_coloring_mode` */
  const ColoringModeNames: map<string, ColoringMode> := map[
    "binary" := Binary,
    "linear" := Linear
  ]

  /** The options that consume nothing but their own flag. */
  predicate IsSwitch(o: CmdOption)
  {
    o.PrintHelp? || o.EnableVerbose? || o.SkipColoring? || o.EnableCrosshair? || o.Unknown?
  }

  /** No flag spelling maps to `unknown`: only a string missing from the table is
      unrecognised. */
  lemma NoFlagIsUnknown(flag: string)
    ensures FlagTable(flag) != Some(Unknown)
  {
  }

  /** The save, load and sequence options each have several spellings naming one option. */
  lemma FlagAliases()
    ensures FlagTable("-sm") == FlagTable("--save") == FlagTable("--save-matrix") == Some(SaveLyapExpMatrix)
    ensures FlagTable("-lm") == FlagTable("--load") == FlagTable("--load-matrix") == Some(LoadLyapExpMatrix)
    ensures FlagTable("-s") == FlagTable("-seq") == FlagTable("--sequence") == Some(SetSequence)
  {
  }

  /** Lookup distinguishes case: `-H` is help and `-h` height, `-C` the crosshair and `-c`
      the colouring mode. */
  lemma FlagCaseSensitive()
    ensures FlagTable("-H") == Some(PrintHelp) && FlagTable("-h") == Some(SetHeight)
    ensures FlagTable("-C") == Some(EnableCrosshair) && FlagTable("-c") == Some(SetColoringMode)
    ensures FlagTable("-S") == Some(SetSectorSize) && FlagTable("-s") == Some(SetSequence)
  {
  }

  /** Long flags are matched exactly as spelled: an upper-cased one is not a flag. */
  lemma LongFlagCaseSensitive()
    ensures FlagTable("--help") == Some(PrintHelp) && FlagTable("--HELP") == None
  {
  }

  /** The map names are exactly logmap, circmap, gaussmap and custom, and the colouring
      modes exactly binary and linear; neither table yields an `unknown` value. */
  lemma NameTables()
    ensures MapNames.Keys == {"logmap", "circmap", "gaussmap", "custom"}
    ensures ColoringModeNames.Keys == {"binary", "linear"}
    ensures forall k :: k in MapNames ==> MapNames[k] != UnknownMap
    ensures forall k :: k in ColoringModeNames ==> ColoringModeNames[k] != UnknownMode
  {
  }
}
