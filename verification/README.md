# ProScout Elite: a verified model of the scouting core

ProScout Elite is a single-page scouting dashboard. A scout registers
football players with a position and a score from 0 to 100 for each attribute.
For each player, the dashboard then shows three things:

- a fit score for each tactical style;
- the training gaps against a chosen style;
- a head-to-head differential against another player.

Everything in the application lives in one script, `scout.py`. This project
pulls out the logic inside its UI code and models it in Dafny, in five modules:

- `Taxonomy` (`Taxonomy.dfy`): the static tables.
  - The position table maps each position to six primary attributes.
  - The tactical-style table gives each style five required attributes.
  - The attribute universe is the union of the position lists and six supplemental names. The script builds it through a Python `set`, so it is modelled as a `set`.
- `Text` (`Text.dfy`): Python's `str.strip()`, which the script applies to the typed name. Whitespace is the exact set of characters `str.isspace()` accepts.
- `Profiles` (`Profiles.dfy`): building a profile row on save. Every attribute of the universe starts at 0, and the submitted inputs then overwrite it.
- `Roster` (`Roster.dfy`): the session's profile table.
  - It is a class, `Session`, holding a `seq` of rows. Its invariant is that names are unique, each name is non-blank and already stripped, and each row covers the universe.
  - `Save` rejects a blank name. Otherwise it drops the rows of that name and appends the new one.
  - `Find` returns the first row of a name.
- `Metrics` (`Metrics.dfy`): the derived metrics.
  - Fit per style: the mean of the style's scores, with a missing score read as 0, rounded to one decimal. It is counted in integer tenths.
  - Training gaps: the style's attributes that score below 80, in order.
  - Differential: candidate minus reference, over the reference position's attributes.
  - Colour class: the class given to each difference.

Positions form a datatype, because the position selector only offers the table's keys.
Attribute names are strings, as are the table's column labels.

Scores given to a save: the registration form (`scout.py:38-45`) always submits a value for every attribute of the universe. Untouched sliders give 50 for the position's primary attributes and 30 for the others (`FormDefaults`). `Save` takes its inputs as an arbitrary map, which generalises the form. The generalisation departs from `scout.py:51` in one place: there the row is built as one dictionary, so an input keyed "Nome" or "Posição" would overwrite the name or the position, while `Profile` keeps both in fields of their own. The form never submits those keys, because its keys are exactly the attribute universe. The 0 that `scout.py:49` puts under every attribute before the submitted values are applied survives only for a key set the form never produces: for the form's own inputs the stored attributes are exactly the submitted ones (`FormInputsStoredVerbatim`), and `PrimaryOnlyDefaultsToZero` describes one such other input.

## Model

| member | source | states |
|---|---|---|
| Taxonomy.PositionAttributes | scout.py:9-15 | the primary attributes of each of the five positions, in the table's order |
| Taxonomy.AllAttributes | scout.py:17-18 | the attribute universe: the position lists and the supplemental names, as a set |
| Taxonomy.TacticalStyles | scout.py:20-27 | the six tactical styles and their five attributes each, in the table's order |
| Taxonomy.Flatten | scout.py:17 | the flattened list holds exactly the attributes of the listed position lists |
| Taxonomy.AllAttributesMembers | scout.py:17-18 | an attribute is in the universe iff some position lists it or it is a supplemental name |
| Taxonomy.PositionTableShape | scout.py:9-15 | every position has six distinct primary attributes, all in the universe |
| Taxonomy.SupplementalRedundant | scout.py:9-18 | the supplemental names are already in position lists, so the universe is the union of the position lists |
| Taxonomy.StyleTableShape | scout.py:20-27 | six styles with distinct names, each with five distinct attributes, all in the universe |
| Text.TrimStart | scout.py:34 | drops exactly the leading whitespace: the result is a suffix, what is dropped is blank, the result does not start with whitespace |
| Text.TrimEnd | scout.py:34 | drops exactly the trailing whitespace: the result is a prefix, what is dropped is blank, the result does not end with whitespace |
| Text.Strip | scout.py:34 | the result is an infix with blank text on both sides; it is empty iff the input is blank; otherwise it neither starts nor ends with whitespace |
| Text.StripIdempotent | scout.py:34 | stripping a stripped name changes nothing |
| Profiles.Value | scout.py:118-119 | the score of an attribute a row holds, and 0 for one it lacks (the same `.get(a, 0)` as at lines 68 and 91) |
| Profiles.FormDefaults | scout.py:38-45 | the untouched form submits every attribute of the universe: 50 for each primary attribute of the position, 30 for each other one |
| Profiles.FormInputsStoredVerbatim | scout.py:38-51 | when the inputs cover exactly the universe, as the form's do, the stored attributes are the inputs themselves |
| Profiles.UntouchedFormStored | scout.py:38-51 | saving an untouched form stores 50 for every primary attribute and 30 for every other one |
| Profiles.CompleteAttributes | scout.py:49-50 | the keys are the universe plus the submitted keys; a submitted value wins; any other attribute is 0 |
| Profiles.NewProfile | scout.py:49-51 | the saved profile carries the given name and position, and every universe attribute equals the submitted value or 0 |
| Profiles.PrimaryOnlyDefaultsToZero | scout.py:49-51 | when only the position's primary attributes are submitted, they keep their values and every other attribute is 0 |
| Roster.Upsert | scout.py:52-55 | a save drops every row of the name and appends the new profile (properties in the Upsert lemmas below) |
| Roster.FirstByName | scout.py:100-101 | the first row carrying a name, if any, as in the lookups at lines 67 and 100-101 (properties in `FirstByNameCorrect`) |
| Roster.Without | scout.py:53 | the filtered table holds exactly the rows of other names and is no longer than the input |
| Roster.Filter | scout.py:52-53 | the scan over the table builds the filtered table |
| Roster.FirstByNameCorrect | scout.py:67 | the lookup is empty iff no row has the name; otherwise it returns a row of that name with no earlier row of that name |
| Roster.WithoutAbsent | scout.py:52-53 | filtering out a name that no row carries leaves the table unchanged, so skipping the filter when the name is absent is equivalent |
| Roster.WithoutLength | scout.py:53 | the filter removes exactly as many rows as carry the name |
| Roster.CountUnique | scout.py:52 | with unique names, a name occurs once if present and otherwise not at all |
| Roster.WithoutUnique | scout.py:53 | filtering keeps names unique |
| Roster.UpsertSavedRow | scout.py:52-55 | after a save, exactly one row carries the name: the last row, which is the new profile |
| Roster.UpsertKeepsOthers | scout.py:52-55 | every row of another name is kept in its original relative order: filtering out the name gives the same table before and after the save |
| Roster.UpsertKeepsUnique | scout.py:52-55 | if names are unique before a save, they are unique after it |
| Roster.UpsertSize | scout.py:52-55 | with unique names, a save of a new name adds a row and a save of an existing name keeps the size |
| Roster.UpsertTwice | scout.py:52-55 | saving twice under one name leaves the table as if only the second save happened |
| Roster.FirstByNameWithout | scout.py:53 | dropping one name does not change the first row found for any other name |
| Roster.UpsertLookup | scout.py:52-55 | after a save, looking up the name finds the new profile, and looking up any other name finds what it found before |
| Roster.NewProfileStored | scout.py:47-51 | the profile saved for a non-blank name has a non-blank, stripped name and covers the universe |
| Roster.UpsertKeepsValid | scout.py:52-55 | a save keeps the table invariant |
| Roster.Session.constructor | scout.py:29-30 | a session starts with an empty table that meets the invariant |
| Roster.Session.Save | scout.py:47-55 | the save succeeds iff the raw name is not blank; a rejected save leaves the table unchanged; otherwise the new table is the old table minus the rows of the stripped name, plus the new profile at the end |
| Roster.Session.Find | scout.py:67 | the scan returns the first row of the name; under the table invariant, every row of that name is the one returned |
| Metrics.Sum | scout.py:68 | the total of a style's scores, a missing score counting 0 |
| Metrics.FitTenths | scout.py:68 | a style's mean score rounded to one decimal, in tenths |
| Metrics.SumBounds | scout.py:68 | the sum of n scores in [0,100] lies in [0,100n] |
| Metrics.RoundTenths | scout.py:68 | the result is the nearest integer to 10·total/n, and the even one on a tie |
| Metrics.RoundTenthsExact | scout.py:68 | when the mean has at most one decimal place, the rounding is exact |
| Metrics.RoundTenthsBounds | scout.py:68 | the rounded mean of scores in [0,100] lies in [0,100] |
| Metrics.TacticalFit | scout.py:68-69 | one score per style, in table order, named after the style; each is exactly the mean of the style's scores (5·tenths = 10·sum) |
| Metrics.FiveExact | scout.py:68 | a mean of five integers is rounded exactly |
| Metrics.TacticalFitBounded | scout.py:68-69 | if every score is in [0,100], every fit score is in [0,100] |
| Metrics.GegenpressingExample | scout.py:21 | Resistência 80, Agilidade 60, Divididas 40, Velocidade 100, Interceptação 20 give a Gegenpressing fit of 60.0 |
| Metrics.GapList | scout.py:90-91 | a style's attributes scoring below 80, with their scores, in the style's order (properties in `GapListCorrect`) |
| Metrics.GapListCorrect | scout.py:90-91 | every gap is a style attribute together with its score, which is below 80; an attribute is a gap iff it scores below 80 |
| Metrics.GapListAppend | scout.py:90-91 | the gaps of two lists in a row are the gaps of the first, then those of the second (the style's order is kept) |
| Metrics.GapListSnoc | scout.py:90-91 | one more scanned attribute adds its gap at the end, if it is a gap |
| Metrics.GapExample | scout.py:90-91 | with A=90, B=70, C=80 the only gap is B at 70; exactly 80 is not a gap |
| Metrics.Gaps | scout.py:89-91 | the scan over the style's attributes lists exactly the gap list |
| Metrics.DiffRows | scout.py:116-119 | one row per attribute, in order, holding both scores; candidate = reference + difference |
| Metrics.Differential | scout.py:103-119 | the scan over the reference position's attributes builds the differential, which has six rows |
| Metrics.DiffRowsAntisymmetric | scout.py:118 | swapping reference and candidate negates every difference |
| Metrics.ColorDiff | scout.py:124-126 | the class is green iff the difference is positive, red iff negative, white iff zero |
| Metrics.SelfComparison | scout.py:116-126 | comparing a player with themselves gives zero, white differences throughout |
| Metrics.DifferentialExample | scout.py:118 | reference 50 and candidate 30 differ by -20; equal scores differ by 0 |

## Left out

- Page setup, headers, tabs, the save button, select boxes and status messages (`scout.py:6`, 32-33, 35, 38, 42, 47, 56, 58-66, 76-78, 94-97, 131-132). They are presentation. The typed name, the selected position and the slider values a save receives become parameters of `Save`. The strip of the typed name (line 34) and the values of untouched sliders (lines 39-45, `FormDefaults`) are modelled.
- The 0–100 slider range (`scout.py:40`, 45). It is a UI setting. The model accepts any integer scores, and the 0–100 range appears only as the premise of the bound lemmas. Moved sliders are not modelled; `Save` takes any inputs.
- Radar and bar charts, the constant 90 "Meta" trace and the table styling call (`scout.py:70-73`, 80-87, 105-112, 121, 129). They are rendering through external libraries. The colour function they apply is modelled.
- The gap display text "(Alvo: 85+)" (`scout.py:91`). It is UI text. The model returns the gaps as (attribute, score) pairs.
- DataFrame mechanics (`concat`, boolean masks, `.iloc`, `.unique()`). They are replaced by sequence operations with the same meaning. The list of distinct names offered by the selectors is not modelled.
- The iteration order of the attribute universe. It comes from a Python `set` and is not deterministic, so only membership is modelled.
- Metrics.RoundTenths: does not model Python's binary floating point. It rounds the exact quotient half-to-even. The two agree for every style in the table, because each style has five attributes and the mean then has at most one decimal place (`FiveExact`).
- Roster.Session.Find: on a name with no row the script's `.iloc[0]` would raise, but the selectors only offer present names. The model returns `None` there.
- Metrics.DiffRows: the script keys each comparison row by the two player names (`scout.py:119`). When both selectors pick the same player, the default with a single profile, the two score columns collapse into one. A player named "Atributo" or "Diferença" overwrites that column. `DiffRow` always has four separate fields. The difference column is unaffected, because its key comes last in the row and so wins any collision.
- Deleting a profile and persisting the table to a file. Neither exists in `scout.py`, where the table lives only in session state.
