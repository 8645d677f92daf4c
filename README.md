# alyr — a Dafny model of the Lyapunov-fractal renderer's core

alyr renders Lyapunov fractals. Each pixel is mapped to a pair of bifurcation
parameters. An external calculator turns that pair into a Lyapunov exponent
(`long double`). The exponents are then coloured with two palettes, one for
negative and one for positive exponents.

This project models the parts of alyr that decide what ends up in the image and
in its files:

- **`render`** (`render.dfy`, `sectors.dfy`, `statistics.dfy`, `crosshair.dfy`).
  - The image is cut into sectors of at most `max_sector_size` pixels per side.
  - Phase one fills the exponent matrix sector by sector.
  - The statistical pass sorts every exponent into one of five bins: finite `>= 0`,
    finite `< 0`, NaN, `+inf` or `-inf`.
  - `max_pos` and `min_neg` are read from the backs of the sorted sign lists.
  - Phase two colours the image sector by sector.
  - Finally the crosshair is inverted into the centre rows and columns.
  - The thread pool runs the sector jobs in parallel. The model runs them as
    sequential loops over the sector list. Since the sectors are disjoint, the
    outcome is the same.
- **`block_renderer`** (`block_renderer.dfy`): binary and linear colouring of one
  sector.
  - Exponents are `Fin(real) | PosInf | NegInf | NaN` (`long_double.dfy`).
  - Comparisons follow IEEE 754, so NaN is neither `>= 0` nor `< 0`.
- **The exponent-matrix file format** (`matrix_codec.dfy`):
  - three little-endian 8-byte header words (rows, columns, element size);
  - then 16-byte cells, row-major;
  - `save_lyap_exp_matrix` and `load_lyap_exp_matrix` over a file system modelled
    as a map from names to byte strings.
- **The option parser** (`parse_options.dfy`, `option_tables.dfy`, `alyr.dfy`):
  - the front-consuming loop with return codes -1, 0, 1 and 2;
  - the `string_to_*` wrappers and `extract_n_numbers_from_vec`;
  - the option, map-name and colouring-mode tables.
- **`load_palettes`** (`palettes.dfy`, `alyr.dfy`).
- **The logistic map and its derivative** (`maps.dfy`, over `complex_numbers.dfy`).
- **The settings records and their defaults** (`structs.dfy`).

The process-wide state of `alyr::internals` is the class `Alyr.Internals`. Its
fields are the five settings records, the rx sequence and the two palettes.
`ParseOptions`, `LoadPalettes` and `Render` are its methods. Each is proved
against a pure specification function:
- `ParseOptions.Parse`;
- `Palettes.LoadedPalette` and `Palettes.ReturnCode`;
- `Rendering.Renders` and `Rendering.FinalPixel`.

The properties of each specification function are proved as lemmas beside it.

Where the C++ behaviour is undefined or the program aborts, the model returns a
failure value instead:
- a failing `assert` in `block_renderer`;
- `.back()` on an empty sign list.

In linear mode a pixel's normalised exponent is scaled to a palette position `f`
between entries `lo = floor(f)` and `hi = ceil(f)`. The code
(`code/rendering/block_renderer.cpp:70-81`) weights the lower entry by `f - lo` and
the upper entry by `hi - f`. So when `f` is integral both weights are 0 and the pixel
is black (`BlockRenderer.OnEntryIsBlack`). Otherwise each channel lies between the
two entries' channels (`BlockRenderer.BetweenEntries`).

## Model

| member | source | states |
|---|---|---|
| Sectors.MakeSectors | code/rendering/render.cpp:29-39 | For S > 0 the sector loop builds exactly the row-major grid `Grid(W, H, S)`: bands of rows from the top, each cut left to right. With no rows it builds no sector, whatever S is. |
| Sectors.AppendBand | code/rendering/render.cpp:30-37 | The inner loop appends the sectors of one band, left to right, with `end = start + min(S, W - start)`. |
| Sectors.GridWellFormed | code/rendering/render.cpp:33-34 | Every sector lies inside the image, and each side is between 1 and S pixels. |
| Sectors.BandWellFormed | code/rendering/render.cpp:30-36 | The sectors of one band lie in the image, start at its row, and start at or right of the band's first column. |
| Sectors.GridFromWellFormed | code/rendering/render.cpp:29-38 | Every sector of the bands from row i down lies inside the image and measures between 1 and S pixels per side. |
| Sectors.GridPartitionsImage | code/rendering/render.cpp:29-39 | For S > 0 every pixel of the image lies in exactly one sector, and no pixel outside the image lies in any sector. |
| Sectors.GridFromCoverage | code/rendering/render.cpp:29-39 | The bands from row i down cover each pixel of those rows exactly once. |
| Sectors.BandCoverage | code/rendering/render.cpp:30-37 | A band covers each pixel of its rows, right of its first column, exactly once. |
| Sectors.CoverageConcat | code/rendering/render.cpp:36 | Coverage by two appended sector lists is the sum of their coverages. |
| Sectors.GridCount | code/rendering/render.cpp:29-39 | There are ceil(W/S) * ceil(H/S) sectors. |
| Sectors.BandCount | code/rendering/render.cpp:30-37 | A band from column j holds ceil((W - j)/S) sectors. |
| Sectors.GridFromCount | code/rendering/render.cpp:29-38 | The bands from row i hold ceil(W/S) * ceil((H - i)/S) sectors. |
| Sectors.StepsIsCeiling | code/rendering/render.cpp:29-30 | The number of S-steps that cross a length a is ceil(a/S). |
| Sectors.GridStarts | code/rendering/render.cpp:29-32 | Every sector's start column and start row are multiples of S. |
| Sectors.GridFromStarts | code/rendering/render.cpp:29-32 | From a row that is a multiple of S, every sector starts at a column and a row that are multiples of S. |
| Sectors.BandStarts | code/rendering/render.cpp:30-32 | In a band starting at a multiple of S, every start column is a multiple of S and every start row is the band's row. |
| Rendering.FillSector | code/rendering/render.cpp:64-74 | The block exponent calculator writes the exponent of every pixel of its sector and changes no other cell. |
| Rendering.ComputeExponents | code/rendering/render.cpp:57-84 | Phase one: a pixel covered by some sector holds its exponent, and every other cell keeps its value. |
| Rendering.ComputeMatrix | code/rendering/render.cpp:21-39 | After the zero-filled matrix is allocated and phase one has run, every cell holds its pixel's exponent. |
| Rendering.CoveredBySome | code/rendering/render.cpp:58-75 | A pixel with positive coverage lies in some sector of the list. |
| Rendering.CoverageSnoc | code/rendering/render.cpp:58 | Appending a sector adds exactly that sector's pixels to what the list covers. |
| Rendering.RowsOfComputed | code/rendering/render.cpp:99-101 | A matrix holding the calculator's exponents, read row by row, is the calculator's matrix. |
| Rendering.StatisticalPass | code/rendering/render.cpp:93-127 | It finds both extremes exactly when both sign lists are non-empty; they are then `MaxPos` and `MinNeg` of the image's bins. |
| Rendering.ColorSectors | code/rendering/render.cpp:141-169 | Phase two succeeds exactly when every sector colours. Then every covered pixel holds its colour. Uncovered pixels never change. |
| Rendering.GridColors | code/rendering/render.cpp:141-160 | Over the grid, every sector colours exactly when every pixel of the image does. |
| Rendering.ColorImage | code/rendering/render.cpp:133-176 | The result is a W x H image. If colouring succeeds, each pixel is its colour, inverted by the crosshair when that is enabled. |
| Rendering.RenderImage | code/rendering/render.cpp:12-179 | `render` completes exactly when `Renders` holds: both sign lists are non-empty and no colouring assertion fails. Then each pixel is `FinalPixel`. |
| Rendering.RendersIffGridColors | code/rendering/render.cpp:122-169 | Once `max_pos` and `min_neg` exist, `render` completes exactly when every sector of the grid colours. |
| Rendering.NoRowsNoStats | code/rendering/render.cpp:99-127 | An image with no rows has no exponent, so neither `max_pos` nor `min_neg` exists and `render` cannot complete. |
| Rendering.RenderedImageNotEmpty | code/rendering/render.cpp:122-127 | An image with a finite non-negative exponent has at least one row and one column, so drawing the crosshair stays inside it. |
| Rendering.DefaultClampsRender | code/rendering/block_renderer.cpp:43-55 | At the default clamps, with exponents of both signs and `max_pos > 0`, no pixel's normalisation assertion fails, in any mode. |
| Rendering.ExponentRows | code/rendering/render.cpp:25 | The exponent matrix has H rows of W cells. |
| Rendering.Rows | code/rendering/render.cpp:99-100 | Reading the array row by row gives its dimensions and its cells. |
| Statistics.BinExponents | code/rendering/render.cpp:99-116 | The pass over the rows gives the bins of the exponents in row-major order. |
| Statistics.FileRow | code/rendering/render.cpp:100-115 | The inner loop files one row's exponents, left to right. |
| Statistics.StatsOfSnoc | code/rendering/render.cpp:101-114 | One more exponent is filed into exactly the bin its IEEE tests select. |
| Statistics.BinsPartition | code/rendering/render.cpp:99-116 | The five bin sizes add up to the number of exponents. Positive-bin entries are `>= 0` and negative-bin magnitudes `> 0`. |
| Statistics.PositivesMembers | code/rendering/render.cpp:101-103 | `v` is in the positive bin iff `Fin(v)` occurs and `v >= 0`. |
| Statistics.NegMagnitudesMembers | code/rendering/render.cpp:101-105 | `-u` is in the negative bin iff `Fin(u)` occurs and `u < 0`. |
| Statistics.MatrixBins | code/rendering/render.cpp:99-116 | Over an H x W matrix the bin sizes add up to W * H. |
| Statistics.FlattenLength | code/rendering/render.cpp:99-100 | Reading an H x W matrix row-major gives H * W exponents. |
| Statistics.FlattenHolds | code/rendering/render.cpp:99-101 | Every cell of the matrix is visited by the pass. |
| Statistics.Sort | code/rendering/render.cpp:122-123 | `sort` yields a sorted permutation of its input. |
| Statistics.Insert | code/rendering/render.cpp:122-123 | Inserting into a sorted list keeps it sorted and adds exactly that element. |
| Statistics.InsertBelow | code/rendering/render.cpp:122-123 | A value below the inserted element and below the whole list can head the result and keep it sorted. |
| Statistics.Largest | code/rendering/render.cpp:126-127 | `.back()` of the sorted list is its maximum and a member of it. It is absent exactly when the list is empty. |
| Statistics.LastIsMaximum | code/rendering/render.cpp:122-127 | The last element of a sorted permutation of a list is a member of it and bounds it from above. |
| Statistics.MaxPosIsMaximum | code/rendering/render.cpp:126 | `max_pos` is the largest finite non-negative exponent. It is absent iff every finite exponent is negative. |
| Statistics.MinNegIsMinimum | code/rendering/render.cpp:127 | `min_neg` is the smallest finite negative exponent, and is `< 0`. It is absent iff no finite exponent is negative. |
| Statistics.NoNegatives | code/rendering/render.cpp:104-105 | The negative bin is empty iff no finite exponent is negative. |
| Statistics.LargestMagnitude | code/rendering/render.cpp:127 | The largest magnitude in the negative bin, negated, occurs among the exponents and is below every finite negative one. |
| Crosshair.InvertColor | code/rendering/render.cpp:183-185 | Each channel of the inverted pixel is 255 minus the original channel. |
| Crosshair.InvertInvolution | code/rendering/render.cpp:183-185 | Inverting twice restores the pixel. |
| Crosshair.DrawCrosshair | code/rendering/render.cpp:188-208 | A pixel in exactly one centre band (column W/2, plus W/2-1 for even W; likewise rows) is inverted. Every other pixel, including those in both bands, is unchanged. |
| Crosshair.CrosshairInvolution | code/rendering/render.cpp:188-208 | Crossing a pixel twice restores it, so drawing the crosshair twice restores the image. |
| BlockRenderer.ColorSector | code/rendering/block_renderer.cpp:11-86 | `block_renderer` succeeds iff every pixel of the sector has a colour. Then each sector pixel holds it. No pixel outside the sector changes. |
| BlockRenderer.PixelColor | code/rendering/block_renderer.cpp:16-82 | Binary mode, any unknown mode and a non-finite exponent give the sign colour. For a finite exponent in linear mode, a colour exists iff the normalised value exists. |
| BlockRenderer.Normalised | code/rendering/block_renderer.cpp:43-55 | The clamped exponent divided by its sign's factor, present only when it lies in [0, 1], as the assertion demands. |
| BlockRenderer.NormalisedDefined | code/rendering/block_renderer.cpp:43-55 | Under ordered clamps bracketing the extremes, the normalised value of any exponent between `min_neg` and `max_pos` lies in [0, 1]. |
| BlockRenderer.ColorIds | code/rendering/block_renderer.cpp:61-67 | `lower_id = floor(f)` and `upper_id = ceil(f) mod size` satisfy `0 <= lower_id <= upper_id < size`. |
| BlockRenderer.InterpolationWeights | code/rendering/block_renderer.cpp:70-71 | The weights are non-negative. Both are 0 at an integral `f`; otherwise they sum to 1. |
| BlockRenderer.OnEntryIsBlack | code/rendering/block_renderer.cpp:65-81 | When `f` is integral the pixel is (0, 0, 0). |
| BlockRenderer.BetweenEntries | code/rendering/block_renderer.cpp:70-81 | When `f` is not integral, each channel lies between the two blended entries' channels. |
| BlockRenderer.MixBetween | code/rendering/block_renderer.cpp:77-81 | A truncated blend with weights summing to 1 lies between its two channels. |
| BlockRenderer.MixBound | code/rendering/block_renderer.cpp:77-81 | A blend with weights summing to at most 1 stays within [0, 255]. |
| BlockRenderer.Clamp | code/rendering/block_renderer.cpp:47-48 | `std::clamp` lands in [lo, hi] when lo <= hi, and returns a value already in range unchanged. |
| BlockRenderer.Ceil | code/rendering/block_renderer.cpp:66 | `ceil(x)` is the least integer `>= x`. |
| BlockRenderer.DivideInUnit | code/rendering/block_renderer.cpp:52 | A clamped positive exponent at most its factor normalises into [0, 1]. |
| BlockRenderer.DivideNegativeInUnit | code/rendering/block_renderer.cpp:53 | A clamped negative exponent at least its factor normalises into [0, 1]. |
| LongDouble.SignTest | code/rendering/block_renderer.cpp:20-35 | NaN is neither `>= 0` nor `< 0`, so it takes the negative palette. Every other value is exactly one of the two. |
| MatrixCodec.SaveLyapExpMatrix | code/parsing_saving_loading/save_load_lyap_exp_matr.cpp:6-37 | If the file cannot be opened: returns 1, nothing written. Otherwise returns 0 and `name.expbin` holds the header and then the cells row-major. |
| MatrixCodec.WriteRows | code/parsing_saving_loading/save_load_lyap_exp_matr.cpp:27-31 | The write loop appends the body: every row's first `cols` cells, row-major. |
| MatrixCodec.WriteRow | code/parsing_saving_loading/save_load_lyap_exp_matr.cpp:28-30 | The inner write loop appends one row's first `cols` cells. |
| MatrixCodec.LoadLyapExpMatrix | code/parsing_saving_loading/save_load_lyap_exp_matr.cpp:40-81 | `load` returns `Deserialize` of the file `name.expbin`. The length test is the exact one; see Findings and Left out for the wrapped test the source writes. |
| MatrixCodec.ReadCells | code/parsing_saving_loading/save_load_lyap_exp_matr.cpp:68-75 | The read loop fills `rows` x `cols` cells row-major from the body. |
| MatrixCodec.Deserialize | code/parsing_saving_loading/save_load_lyap_exp_matr.cpp:40-81 | Empty matrix when the file cannot be opened, is under 24 bytes, or its length is not 24 + rows * cols * 16 as an exact integer (the corrected length test). Otherwise `rows` rows of `cols` cells. |
| MatrixCodec.RoundTrip | code/parsing_saving_loading/save_load_lyap_exp_matr.cpp:6-81 | For a non-empty rectangular matrix, loading what was saved gives back the matrix, cell for cell. |
| MatrixCodec.SaveLoadSameFile | code/parsing_saving_loading/save_load_lyap_exp_matr.cpp:7-43 | After a successful save, a load of the same name returns the saved matrix. |
| MatrixCodec.SerializeLayout | code/parsing_saving_loading/save_load_lyap_exp_matr.cpp:15-31 | The saved file is 24 + R * C * 16 bytes long; its header words decode to R, C and 16. |
| MatrixCodec.DecodeBodyInverse | code/parsing_saving_loading/save_load_lyap_exp_matr.cpp:68-75 | Reading the body of a rectangular matrix back row-major returns the matrix. |
| MatrixCodec.BodyAt | code/parsing_saving_loading/save_load_lyap_exp_matr.cpp:27-31 | Cell (y, x) occupies bytes `(y * C + x) * 16` onwards of the body. |
| MatrixCodec.RowBytesAt | code/parsing_saving_loading/save_load_lyap_exp_matr.cpp:28-30 | Cell x occupies bytes `x * 16` onwards of its row's bytes. |
| MatrixCodec.RowBytes | code/parsing_saving_loading/save_load_lyap_exp_matr.cpp:28-30 | A row of n cells occupies n * 16 bytes. |
| MatrixCodec.BodyLength | code/parsing_saving_loading/save_load_lyap_exp_matr.cpp:27-31 | The body of R rows of C cells occupies R * C * 16 bytes. |
| MatrixCodec.RowBytesSnoc | code/parsing_saving_loading/save_load_lyap_exp_matr.cpp:29 | Writing one more cell appends its 16 bytes. |
| MatrixCodec.BodySnoc | code/parsing_saving_loading/save_load_lyap_exp_matr.cpp:27-31 | Writing one more row appends its bytes. |
| MatrixCodec.DecodeEncodeLE | code/parsing_saving_loading/save_load_lyap_exp_matr.cpp:22-62 | A k-byte little-endian word decodes to the number it encodes. |
| MatrixCodec.EncodeWord | code/parsing_saving_loading/save_load_lyap_exp_matr.cpp:22-24 | A `size_t` is written as 8 bytes that read back as the same value. |
| MatrixCodec.Header | code/parsing_saving_loading/save_load_lyap_exp_matr.cpp:22-24 | The header written before the body is 24 bytes: three 8-byte words. |
| MatrixCodec.HeaderFields | code/parsing_saving_loading/save_load_lyap_exp_matr.cpp:22-62 | Reading a written header gives back rows, cols and 16. |
| MatrixCodec.CellInBounds | code/parsing_saving_loading/save_load_lyap_exp_matr.cpp:71-73 | Cell (y, x) of a rows x cols matrix ends within rows * cols * 16 bytes. |
| MatrixCodec.SizeMatchesBoundsReads | code/parsing_saving_loading/save_load_lyap_exp_matr.cpp:65-75 | With the exact length check, every cell the read loop reads lies inside the file. |
| MatrixCodec.WrappedSizeCheckAcceptsTruncatedFile | code/parsing_saving_loading/save_load_lyap_exp_matr.cpp:65 | The check as written, in 64-bit arithmetic, accepts a 24-byte file whose header claims rows * cols * 16 = 2^64 body bytes. |
| MatrixCodec.EncodeLE | code/parsing_saving_loading/save_load_lyap_exp_matr.cpp:22-24 | A little-endian word is k bytes long. |
| OptionTables.PopCount | code/parsing_saving_loading/parse_options.hpp:61-101 | Every option, `unknown` included, erases 1 element when it is a switch and 2 otherwise. |
| OptionTables.NoFlagIsUnknown | code/parsing_saving_loading/parse_options.hpp:103-179 | No flag spelling maps to `unknown`. |
| OptionTables.FlagAliases | code/parsing_saving_loading/parse_options.hpp:116-132 | `-sm`, `--save` and `--save-matrix` name one option; likewise the load and sequence spellings. |
| OptionTables.FlagCaseSensitive | code/parsing_saving_loading/parse_options.hpp:104-178 | `-H` is help and `-h` height; `-C` crosshair and `-c` colouring mode; `-S` sector size and `-s` sequence. |
| OptionTables.LongFlagCaseSensitive | code/parsing_saving_loading/parse_options.hpp:104-105 | `--help` is recognised and `--HELP` is not. |
| OptionTables.NameTables | code/parsing_saving_loading/parse_options.hpp:181-191 | The map names are exactly logmap, circmap, gaussmap and custom, and the modes exactly binary and linear. Neither table yields an unknown value. |
| ParseOptions.StringToValue | code/parsing_saving_loading/parse_options.cpp:9-54 | Returns 1 with the out-parameter unchanged on a failed conversion. Returns 0 with the converted value on success. |
| ParseOptions.StringToValueAt | code/parsing_saving_loading/parse_options.cpp:23-58 | Returns 2 with the out-parameter unchanged at `end()`; otherwise behaves as the single-string form. |
| ParseOptions.StringToSt | code/parsing_saving_loading/parse_options.cpp:23-24 | The `stoull` wrapper on an iterator: code 2, 1 or 0 as above. |
| ParseOptions.StringToLd | code/parsing_saving_loading/parse_options.cpp:40-41 | The `stold` wrapper on an iterator: code 2, 1 or 0 as above. |
| ParseOptions.StringToInt | code/parsing_saving_loading/parse_options.cpp:57-58 | The `stoi` wrapper on an iterator: code 2, 1 or 0 as above. |
| ParseOptions.ExtractNNumbers | code/parsing_saving_loading/parse_options.cpp:60-75 | Returns 1 with fewer than n strings, and 2 with the output untouched when one of the first n fails. Otherwise returns 0 with the n converted values in order. |
| ParseOptions.StepOf | code/parsing_saving_loading/parse_options.cpp:88-445 | Handling one front element either stops with -1, 1 or 2, or erases exactly the option's pop count. |
| ParseOptions.Parse | code/parsing_saving_loading/parse_options.cpp:84-449 | The return code is -1, 0, 1 or 2. |
| ParseOptions.ParseStopsAtFront | code/parsing_saving_loading/parse_options.cpp:93-440 | An unrecognised front element returns -1 at once, and help returns 1 at once, writing nothing. |
| ParseOptions.MissingValue | code/parsing_saving_loading/parse_options.cpp:113-118 | An option needing a value but given none returns 2 before anything is erased or written. |
| ParseOptions.SequenceStep | code/parsing_saving_loading/parse_options.cpp:215-240 | `--sequence` goes on iff its argument matches `^[ABC]+$`. The rx sequence then becomes its letter-for-letter translation, and nothing else changes. Any other argument makes `parse_options` return 2 with the settings unchanged. |
| ParseOptions.NamedValueSteps | code/parsing_saving_loading/parse_options.cpp:196-429 | `--map` and `--coloring-mode` go on iff the name is in its table. They then set the tabled value and nothing else; otherwise `parse_options` returns 2 with the settings unchanged. |
| ParseOptions.StepOnPrefix | code/parsing_saving_loading/parse_options.cpp:87-97 | A step that goes on depends only on the elements it erases. |
| ParseOptions.ParseConcat | code/parsing_saving_loading/parse_options.cpp:87-448 | When `a` parses to return code 0, parsing `a + b` is parsing `b` from the settings `a` leaves. |
| ParseOptions.LastWidthWins | code/parsing_saving_loading/parse_options.cpp:113-122 | Of two width options, the later value is kept. |
| ParseOptions.TranslateLetters | code/parsing_saving_loading/parse_options.cpp:224-233 | The translation has the argument's length, and element i comes from letter i. |
| ParseOptions.TranslateRoundTrip | code/parsing_saving_loading/parse_options.cpp:222-233 | For an accepted argument, reading the translation's letters back gives the argument. |
| Alyr.Internals.ParseOptions | code/parsing_saving_loading/parse_options.cpp:84-449 | The loop's return code and final settings are those of `Parse` from the settings at entry; the palettes are untouched. |
| Alyr.Internals.ParseFront | code/parsing_saving_loading/parse_options.cpp:88-440 | The switch on the front element matches `StepOf`: a stop writes nothing; otherwise the new settings and pop count are the step's. |
| Alyr.Internals.ParseSequenceOption | code/parsing_saving_loading/parse_options.cpp:215-240 | The `--sequence` case, matching `StepOf`. |
| Alyr.Internals.ParseNameOption | code/parsing_saving_loading/parse_options.cpp:135-411 | The string-valued options (output image, matrix files, palette files), matching `StepOf`. |
| Alyr.Internals.ParseSizeOption | code/parsing_saving_loading/parse_options.cpp:113-352 | The `stoull`-valued options (sizes, sector size, threads, iterations), matching `StepOf`. |
| Alyr.Internals.ParseRealOption | code/parsing_saving_loading/parse_options.cpp:243-396 | The `stold`-valued options (x0, parameter ranges, clamps), matching `StepOf`. |
| Alyr.Internals.LoadPalettes | code/parsing_saving_loading/load_palettes.cpp:19-93 | Both palettes are cleared, then each is loaded from its file or set to its fallback. The return value is 2 after a malformed line, else 1 after a missing file, else 0. |
| Alyr.Internals.Render | code/rendering/render.cpp:12-179 | `render` over the current settings and palettes: it completes iff `Renders`, and each pixel is `FinalPixel`. |
| Alyr.Internals.constructor | code/alyr.cpp:7-16 | Start-up state: every settings record at its defaults, rx sequence A, B, and both palettes empty. |
| Palettes.LoadPalette | code/parsing_saving_loading/load_palettes.cpp:28-57 | One palette: the fallback when the file is missing, else one colour per line. The return value is updated as `load_palettes` does. |
| Palettes.OneColorPerLine | code/parsing_saving_loading/load_palettes.cpp:42-56 | Every line adds exactly one colour, malformed or not. Each channel is the parsed int modulo 256. |
| Palettes.EmptyPalette | code/parsing_saving_loading/load_palettes.cpp:31-56 | A palette is empty iff its file opened and has no lines. A missing negative-palette file gives the two-colour fallback. |
| Palettes.ReturnCodeMeaning | code/parsing_saving_loading/load_palettes.cpp:20-93 | The return value is 2 iff a file had a malformed line, else 1 iff a file was missing, else 0. |
| Palettes.ReturnNeverDecreases | code/parsing_saving_loading/load_palettes.cpp:36-85 | Loading a palette never lowers the return value, and 2 stays 2. |
| Palettes.ToByte | code/parsing_saving_loading/load_palettes.cpp:55 | `uint8_t(i)` is `i` modulo 256. |
| Maps.LogMapOnReals | code/maps/maps.hpp:7-9 | On real arguments `logmap(x, r) = r x (1 - x)`. |
| Maps.LogMapDerOnReals | code/maps/maps.hpp:12-14 | On real arguments `logmap_der(x, r) = r (1 - 2x)`. |
| Maps.LogMapRoots | code/maps/maps.hpp:7-9 | `logmap(0, r) = logmap(1, r) = 0`. |
| Maps.LogMapSymmetric | code/maps/maps.hpp:7-9 | `logmap(x, r) = logmap(1 - x, r)`. |
| Maps.LogMapDerCritical | code/maps/maps.hpp:12-14 | `logmap_der(1/2, r) = 0`. |
| Maps.QuadraticExpansion | code/maps/maps.hpp:7-14 | Without the factor r: `(x + h)(1 - x - h) - x(1 - x) = h(1 - 2x) - h^2`. |
| Maps.LogMapExpansion | code/maps/maps.hpp:7-14 | `logmap(x + h) - logmap(x) = h logmap_der(x) - r h^2`. |
| ComplexNumbers.MulAssoc | code/maps/maps.hpp:8 | Complex multiplication is associative, so `r * x * (1 - x)` does not depend on grouping. |
| ComplexNumbers.MulDistSub | code/maps/maps.hpp:8-13 | Complex multiplication distributes over subtraction. |
| ComplexNumbers.MulLeftComm | code/maps/maps.hpp:8-13 | The two left factors of a complex product may be swapped. |
| Structs.DefaultsOrdered | code/structs.hpp:46-137 | The default ranges are ordered, and x0 = 0.5 + 0i. Each clamp pair is ordered on its side of 0. The sector size is positive, transient iterations are fewer than iterations, and both matrix names agree. |

## Left out

- The thread pool (`threadpool.hpp`) and its futures: phases one and two run as sequential loops over the sector list. Neither phase reads anything the other sectors of the same phase write.
- The per-pixel exponent algorithm (`get_block_exp_calc_ptr` and the calculators it returns) is not part of this model. It is the parameter `exponent(x, y)`.
- `long double` rounding and the `uint8_t` conversion of a blend: exponents and blends are exact reals, and a channel is the floor of its blend.
- `stoull`, `stold` and `stoi`, the `^[ABC]+$` regular expression engine, `istringstream` and `getline` are library code. They are parameters (`Conversions`, a line parser) or their defining predicate (`IsRxSequence`).
- Console output (`vcout`, `print_error`, `print_warning`, `print_render_info`), PNG encoding and `main` are not modelled.
- File I/O is a map from names to contents. A name missing from the map cannot be opened; `SaveLyapExpMatrix` takes whether the target opens as a parameter.
- Sector size 0 with a positive image height makes the sector loop of `render` run forever. `-S 0` is accepted by `parse_options`, because `stoull("0")` succeeds (`code/parsing_saving_loading/parse_options.cpp:174-181`), so the hang can be reached from the command line. `Sectors.MakeSectors`, `Rendering.RenderImage` and `Alyr.Internals.Render` require a positive sector size or an image with no rows. With no rows the loop is never entered and `render` has no exponent to read, which the model returns as `ok == false`.
- Rendering.RenderImage: returns `ok == false` where the C++ program has undefined behaviour (`.back()` of an empty sign list) or aborts (a failing colouring assertion). The image returned then is unspecified.
- Alyr.Internals.Render: requires non-empty palettes, because `.back()` on an empty palette is undefined. `load_palettes` can leave a palette empty when its file is empty.
- BlockRenderer.ColorSector: a failing `assert` stops the sector with `ok == false`. The pixels it already wrote are left unspecified.
- BlockRenderer.Clamp: `std::clamp` with `lo > hi` is undefined. The model computes a value but promises nothing about it.
- Crosshair.DrawCrosshair: requires both sides at least 1, or both 0. With exactly one side 0 the source indexes outside the image.
- MatrixCodec.LoadLyapExpMatrix: applies the exact length test (the corrected behaviour, see Findings). The source's test at `save_load_lyap_exp_matr.cpp:65` wraps modulo 2^64, so a file whose header claims at least 2^60 cells can pass it. The allocation at line 68 then throws, and the model does not capture that exception. `MatrixCodec.Deserialize` returns the empty matrix for such a file.
- MatrixCodec.LoadLyapExpMatrix: requires the header's element size to be 16 bytes, the size of `long double`. The source reads cells of the declared size without checking it.
- MatrixCodec.SaveLyapExpMatrix: requires a non-empty matrix whose rows are at least as long as the first, and dimensions below 2^64. `matr.front()` on an empty matrix and reads past a short row are undefined.
- Sizes, iteration counts and thread counts are unbounded naturals. `stoull` is the conversion parameter, and its range errors are among its failures.
- The initialisation functions of `alyr.cpp` other than the global state (thread count, map selection, the render info printout) are not modelled.
- `code/parsing_loading/parse_options.hpp` is an older copy of the option tables, which no core file uses.

## Findings

| source | as written | input that shows it | evidently intended | confidence | as-written member | corrected member |
|---|---|---|---|---|---|---|
| code/parsing_saving_loading/save_load_lyap_exp_matr.cpp:65 | `file_size != 3 * sizeof(size_t) + num_rows * num_cols * size_single_element` is evaluated in 64-bit `size_t`, so the product wraps modulo 2^64 | A 24-byte file with header rows = 2^60, cols = 1, element size = 16. The product wraps to 0 and the check passes, although the file holds no cell. The matrix allocation at line 68 then throws (`std::length_error` or `std::bad_alloc`) instead of the loader returning an empty matrix | Accept the file only when its length equals 24 + rows * cols * elemsize as an exact integer, so every cell read lies inside the file | not executed | MatrixCodec.WrappedSizeCheckAcceptsTruncatedFile | MatrixCodec.SizeMatchesBoundsReads |
