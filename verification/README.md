# Blue-Stars photometry resolution, modelled in Dafny

`blue_stars_query.py` looks up each star of an input list in several
photometric catalogues and derives an effective temperature and a display
colour from the B−V colour index it finds. This project models one star's
path through that pipeline:

- **Name candidates.** The star's names are taken from the `name_input`,
  `name_resolved` and `name_alt1` columns, in that order, with missing
  values dropped (`Record.Candidates`).
- **Catalogue probes.** `try_catalog` has a standard mode and a Tycho mode,
  and `try_simbad` is the last resort (module `Probes`). Each probe is a
  pure function of the response the remote service gave. A response is a
  fault, no result, or tables of rows. A row maps column names to cells,
  and a cell is a number, a null, or something `float()` rejects.
- **Resolution chain** (modules `Chain` and `ChainProperties`). The stages
  are GCPD (`II/215`), APASS (`II/336/apass9`), Tycho-2 (`I/259/tyc2`) and
  Simbad. Each stage tries the candidates in order and breaks at the first
  probe that returns a tuple. Every stage after the first runs only while
  `bv` is still `None`. The remote services are one `Oracle` value, and the
  chain keeps a log of the probe calls it made.
- **Colour mapping.** `temperature_to_rgb` is modelled by its branch
  structure around `t < 66` and `t < 19`, the clipping to [0, 255], and the
  `#RRGGBB` code (modules `Colour` and `Hex`). The temperature formula and
  the logarithm and power curves are abstract functions, grouped in
  `Curves`.
- **Status and output record** (`Record.Assemble`, `Record.ProcessStar`,
  `Record.ProcessCatalogue`).

Floats are exact reals plus NaN (`Photometry.Float`). An exception the
code catches becomes a `None` result.

The code's quirks are modelled as written:

- A Tycho-2 row that lacks `BTmag` or `VTmag` still returns the truthy tuple
  `(None, None, None)`. That tuple ends the Tycho-2 stage and sets
  `source = "Tycho-2"` without a colour index, and Simbad is then tried
  (`ChainProperties.TychoTupleWithoutColourFallsThrough`,
  `ChainProperties.TychoQuirkExample`).
- A star that no catalogue knows ends with status `"no B-V"`, not
  `"not found"`. The initial `"not found"` is always overwritten. The
  script's docstring (blue_stars_query.py:12-14) promises that stars are
  marked `not found` when the network is unavailable. In the code, every
  failed query is caught and turned into `None`, so such a star reaches
  line 146 and gets `"no B-V"` (`Record.UnknownStarRecord`).
- Simbad's `ub` is `B − U` (line 84), the opposite sign of the `U-B`
  column that GCPD and APASS deliver. The model keeps that sign
  (`Probes.TrySimbad`).
- The breakpoints are strict: `t = 66` takes the hot branch, and `t = 19`
  takes the warm-blue curve rather than `b = 0`.

## Model

| member | source | states |
|---|---|---|
| Search.FirstSome | blue_stars_query.py:111-117 | the first-match-wins scan returns the first element whose probe answers, and nothing exactly when no element answers; every element before the hit answered nothing |
| Search.Somes | blue_stars_query.py:101-104 | the present values are kept: each kept value was present, each present value is kept, and the result is empty exactly when nothing is present |
| Search.SomesAppend | blue_stars_query.py:101-104 | dropping missing values preserves column order: filtering a concatenation is the concatenation of the filtered parts |
| Search.MapAll | blue_stars_query.py:100-105 | the per-row loop gives one result per input row, in order, or aborts as a whole when some row fails |
| Record.Candidates | blue_stars_query.py:101-105 | the candidate list is the present names in `name_input`, `name_resolved`, `name_alt1` order; it is empty only when all three are missing, and its head is the first present column |
| Photometry.Minus | blue_stars_query.py:83-84 | the difference is NaN exactly when an operand is NaN, and otherwise adds back to the minuend, as exact subtraction does |
| Probes.ReadIfPresent | blue_stars_query.py:53-60 | `float(row[col]) if col in row.colnames else None` raises exactly when the column is present and `float()` rejects it, gives `None` exactly when the column is absent, and otherwise gives the parsed cell |
| Probes.StandardRow | blue_stars_query.py:58-63 | a standard row returns exactly when it has a parseable `B-V` and its `U-B` and `Vmag` (when present) parse; `ub` is unset exactly when `U-B` is absent; a missing `Vmag` gives NaN |
| Probes.TychoRow | blue_stars_query.py:52-57 | a Tycho row returns whenever `BTmag`/`VTmag` read without raising; `bv = BT − VT` exactly when both are present; `ub` is always unset; `vmag` is set exactly when `bv` is |
| Probes.TryCatalog | blue_stars_query.py:45-68 | a fault or an empty table list gives nothing; otherwise the result is the first row of the first table whose row step returns, and nothing iff no row does; a standard-mode result always carries `bv` |
| Probes.TrySimbad | blue_stars_query.py:70-87 | a result exists exactly when the first row has all three flux columns, B and V are numbers and U is a number or null; then `bv = B − V`, `vmag = V`, and `ub = B − U` exactly when U is not null |
| Chain.Probe | blue_stars_query.py:112-139 | GCPD, APASS and Simbad hits always carry a colour index; a Tycho-2 hit never carries `ub` and carries `vmag` exactly when it carries `bv` |
| Chain.RunStage | blue_stars_query.py:111-117 | one stage's loop only appends to the query log, at most one query per candidate; it either changes nothing but the log or credits its catalogue with one of the star's names, and a stage other than Tycho-2 credits itself only with a colour index (full effect in `ChainProperties.RunStageEffect`) |
| Chain.StageIfUnresolved | blue_stars_query.py:119-126 | the `if bv is None:` guard: a star that already has `bv` is left untouched, and otherwise the stage queries at least one name when there is one |
| Chain.Resolve | blue_stars_query.py:106-144 | a source is recorded iff a resolved name is, the resolved name is one of the star's names, no source means no photometry, a source without `bv` can only be Tycho-2, and a star with no names keeps the initial state (order and outcome in `ChainProperties.ResolveInvariants`, `ChainOutcome`, `StageConsultedIff`) |
| ChainProperties.RunStageEffect | blue_stars_query.py:111-117 | a stage with no hit only logs every candidate; a hit at the first answering candidate `k` logs candidates `0..k`, records that candidate and catalogue, and copies its tuple |
| ChainProperties.StageBv | blue_stars_query.py:119-137 | a standard-mode or Simbad stage leaves `bv` unset exactly when no candidate answers; Tycho-2 leaves it unset exactly when its first tuple has no colour index |
| ChainProperties.ResolveInvariants | blue_stars_query.py:106-144 | a source is recorded iff a resolved name is; the resolved name is a candidate; with no source all photometry is unset; a source without `bv` can only be Tycho-2; probe calls follow chain order and use only the star's names |
| ChainProperties.ChainOutcome | blue_stars_query.py:111-144 | the credited catalogue is the first one in GCPD, APASS, Tycho-2, Simbad order whose first tuple has a colour index; when none has one, Tycho-2 is credited iff it returned any tuple |
| ChainProperties.NoColourIndexIff | blue_stars_query.py:106-146 | `bv` ends unset iff GCPD, APASS and Simbad answer nothing for every candidate and Tycho-2 gives no colour index |
| ChainProperties.WinnerBeatsEarlierCatalogues | blue_stars_query.py:111-144 | every standard-mode catalogue ranked before the credited one answered nothing, and Simbad is credited only when Tycho-2 gave no colour index |
| ChainProperties.GcpdHitEndsChain | blue_stars_query.py:111-119 | a GCPD answer for any candidate credits GCPD with the first such candidate, sets `bv`, and no APASS, Tycho-2 or Simbad query is made |
| ChainProperties.StageConsultedIff | blue_stars_query.py:111-144 | a catalogue is queried iff there is a name and every earlier stage left `bv` unset |
| ChainProperties.WinnerIsFirstCandidate | blue_stars_query.py:111-144 | `resolved_used` is the first candidate the credited catalogue answered for, and `bv`, `ub`, `vmag` are exactly that answer |
| ChainProperties.TychoTupleWithoutColourFallsThrough | blue_stars_query.py:128-144 | a Tycho-2 tuple without a colour index is credited to Tycho-2 yet Simbad is still queried; Simbad's answer takes the credit, and without one the star keeps `source = Tycho-2` with no photometry |
| ChainProperties.TychoQuirkExample | blue_stars_query.py:53-57 | an answer whose first row lacks `VTmag` ends with `source = Tycho-2` and no `bv`, although its second row would give `B-V = 0.5` |
| Colour.RawChannels | blue_stars_query.py:30-38 | below `t = 66` red is 255 and green follows the cool curve, blue is 0 below `t = 19` and the warm curve from 19 to 66, from 66 on the hot curves give red and green and blue is 255; red or blue is always 255; a NaN temperature lands in the hot branch with NaN red and green |
| Colour.Clip | blue_stars_query.py:39 | `np.clip` keeps NaN, lands in [0, 255], leaves in-range values unchanged, and maps values below to 0 and above to 255 |
| Colour.Truncate | blue_stars_query.py:41 | `int()` truncates toward zero: for a non-negative value the largest integer not above it, for a negative one the smallest integer not below it |
| Colour.FromRaw | blue_stars_query.py:39-42 | clipping and formatting fail exactly on a NaN channel; otherwise the normalised channels lie in [0, 1] and the code is a well-formed `#RRGGBB` string decoding to `int(channel * 255)` |
| Colour.TemperatureToRgb | blue_stars_query.py:28-43 | a NaN temperature raises; the mapping raises exactly when a curve yields NaN; on success the channels lie in [0, 1] and the code decodes to the truncated scaled channels |
| Colour.CoolRedIsFull | blue_stars_query.py:31-33 | below `t = 66` red is 1 and the code's red field is `FF`, and green follows the cool curve |
| Colour.ColdBlueIsZero | blue_stars_query.py:34 | below `t = 19` blue is 0 and the code's blue field is `00` |
| Colour.HotBlueIsFull | blue_stars_query.py:35-38 | from `t = 66` on, 66 included, blue is 1 and the code's blue field is `FF`, and red and green come from the hot curves |
| Colour.WarmBlueFollowsCurve | blue_stars_query.py:31-34 | for `19 <= t < 66` blue comes from the warm curve and green from the cool curve |
| Colour.ChannelsAreClipped | blue_stars_query.py:39 | each output channel is its curve value divided by 255 when the value is in [0, 255], 0 below that range and 1 above it |
| Hex.HexByte | blue_stars_query.py:40-42 | `{:02X}` of a byte gives two upper-case digits that decode to the byte's high and low nibbles |
| Hex.HexColor | blue_stars_query.py:40-42 | the code is `#` plus three upper-case two-digit fields, seven characters in all, and the decoder recovers the three bytes |
| Hex.ParseHexColorInverse | blue_stars_query.py:40-42 | every code the decoder accepts is the encoding of the bytes it decodes to |
| Record.SourceLabel | blue_stars_query.py:107 | the `source` column reads `"none"` exactly when no stage recorded itself |
| Record.RoundHalfEven | blue_stars_query.py:170 | `round()` gives an integer within 1/2 of the temperature, and on a tie the even one |
| Record.Conversion | blue_stars_query.py:151-153 | a NaN colour index always fails; the conversion fails exactly when the temperature formula raises or a raw channel is NaN; on success the temperature is `bv_to_temperature(bv)` and finite, each channel is its raw curve value clipped and scaled to [0, 1], and the well-formed code decodes to the truncated scaled channels |
| Record.Assemble | blue_stars_query.py:146-175 | the status is `no B-V` iff `bv` is unset, `ok` iff conversion succeeds, and `processing error` otherwise, never `not found`; `T_eff_K`, `RGB` and `hex_color` are set iff the status is `ok`, and then are the rounded temperature, the channels and the code of that conversion, with the code decoding to the channels; the other columns are copied from the chain |
| Record.ProcessStar | blue_stars_query.py:100-175 | a row with no name aborts; otherwise the record is named after the first candidate, `source` is `none` iff no name was resolved, and the status is `no B-V` iff every catalogue failed to give a colour index |
| Record.ProcessCatalogue | blue_stars_query.py:98-177 | the run yields one record per input row, each that row's own result; it yields nothing when the file lacks a name column and has a row (`KeyError` at line 102) or when any row has no name |
| Record.UnknownStarRecord | blue_stars_query.py:146-175 | a star no catalogue answers for gets `no B-V`, source `none`, no resolved name, and no photometric or derived columns |
| Record.GcpdStarRecord | blue_stars_query.py:111-175 | when GCPD answers for the first name and the conversion succeeds, the record is credited to GCPD under that name with status `ok` and every derived column set |

## Left out

- Reading and writing the CSV files (lines 91 and 177), the command line and the process exit (lines 180-189), and the progress and diagnostic `print` calls. These are I/O with no logic of their own. The run-aborting `KeyError` for a file without a name column and `IndexError` for a row with no name are kept, as `None`.
- The construction of the `Vizier` and `Simbad` clients, `ROW_LIMIT = 200` and the column selections (lines 73-75 and 93-96). These configure foreign libraries. Their effect is whatever response the `Oracle` returns, and the oracle answers the same question the same way every time.
- The numeric values of `bv_to_temperature` and of the logarithm and power curves (lines 26 and 33-37). They are abstract fields of `Curves`, so no contract states a temperature or channel value. The temperature formula may raise (a division by zero), and that is modelled as `None`.
- Colour.BvToTemperature: stated without a contract of its own. It only forwards a finite colour index to the abstract formula and maps NaN to NaN.
- Floating-point rounding and infinities. Values are exact reals plus NaN, and a curve value of ±∞ is represented by a large finite value, which clips to the same result. Because arithmetic is exact, the contracts of `Colour.ChannelsAreClipped` and `Record.Conversion` together make each code byte `int()` of the clipped channel. The program's rounded `(x / 255) * 255` can come out one higher for a value just below an integer: a clipped channel of 127.99999999999999 gives the field `80`, where the model gives `7F`.
- How `float()` treats strings, masked values and other objects. A cell is either a number `float()` accepts, a null, or something it rejects.
- Column sets per table. In the code `row.colnames` belongs to the whole table. The model gives each row its own columns, which includes the per-table case.
- The NaN test on `T_eff_K` at line 170. It is modelled, and `Record.Assemble` shows that it never fires when the status is `ok`, because a NaN temperature makes the colour mapping raise.
- The repository's second, near-duplicate copy of the script is not part of this model.
