# Unit converter core, modelled in Dafny

This project models the non-interface part of a small Streamlit unit
converter (`app.py`):

- the eighteen conversion formulas between paired units (length, weight,
  temperature, volume, area, speed, pressure, time), with the decimal
  constants the application embeds (1.609, 2.205, 2.54, 0.264172, 0.092903,
  14.5038, 60, and 9/5 with offset 32);
- the registry that maps each conversion name to its formula and output
  unit label, and the table of eight categories the user picks names from;
- the source label printed in results and history entries, which is the
  part of the conversion name before the first `" to "`;
- the session state: the light/dark theme flag, and the history and
  favorites loaded from and saved to a JSON store file.

Files:

- `formulas.dfy` (module `Formulas`): the eighteen formulas over `real`, the
  nine inverse pairs, the temperature fixed points, and the speed/length
  coincidence.
- `registry.dfy` (module `Registry`): `Kind` (one constructor per formula),
  `Apply`, `Inverse`, a slope/offset reference description of each formula,
  the `Conversions` map, the `Categories` table, source labels, and the
  `Convert` lookup with an `InvalidConversionKind` error for unknown names.
- `text.dfy` (module `Text`): first occurrence of a substring and
  `SplitHead`, the first field of `str.split(sep)`.
- `session.dfy` (module `Session`): theme toggle, store load/save, history
  append and the last-five display, favorites insertion without duplicates,
  and the Convert and Add to Favorites actions on the store.
- `wrappers.dfy` (module `Wrappers`): `Option` and `Result`.

The formulas are over Dafny's `real`, where each decimal constant is an exact
rational. The inverse laws, fixed points, linearity and monotonicity proved
here therefore hold exactly of the model; the application computes with IEEE
doubles, where they hold only up to rounding. The constant 1.609 is kept as
written (the exact kilometres per mile would be 1.609344), so the model agrees
with the application's numbers, not with the physical ratio.

## Model

| member | source | states |
|---|---|---|
| Formulas.KmMilesInverse | app.py:8-9 | miles-to-km undoes km-to-miles and vice versa, for every real input |
| Formulas.KgLbInverse | app.py:10-11 | kg-to-lb and lb-to-kg are mutually inverse |
| Formulas.InchesCmInverse | app.py:12-13 | inches-to-cm and cm-to-inches are mutually inverse |
| Formulas.CelsiusFahrenheitInverse | app.py:14-15 | the two temperature formulas are mutually inverse |
| Formulas.LitersGallonsInverse | app.py:16-17 | liters-to-gallons and gallons-to-liters are mutually inverse |
| Formulas.SqftSqmInverse | app.py:18-19 | square-feet and square-meters conversions are mutually inverse |
| Formulas.KmhMphInverse | app.py:20-21 | km/h-to-mph and mph-to-km/h are mutually inverse |
| Formulas.BarPsiInverse | app.py:22-23 | bar-to-psi and psi-to-bar are mutually inverse |
| Formulas.MinutesSecondsInverse | app.py:24-25 | minutes-to-seconds and seconds-to-minutes are mutually inverse |
| Formulas.TemperatureFixedPoints | app.py:14-15 | 0 °C is 32 °F, 100 °C is 212 °F, 32 °F is 0 °C, 212 °F is 100 °C, and -40 is the same on both scales |
| Formulas.SpeedMatchesLength | app.py:8-21 | km/h-to-mph is the same function as km-to-miles, and mph-to-km/h the same as miles-to-km |
| Formulas.SampleValues | app.py:8-11 | 1.609 km is 1 mile, 1 mile is 1.609 km, 1 kg is 2.205 lb, 2.205 lb is 1 kg |
| Registry.Apply | app.py:8-25 | calling the formula a kind names, as `conversions[choice][0](value)` does at app.py:117; its contract is stated by ApplyIsAffine, InverseRoundTrip and StrictlyIncreasing |
| Registry.ApplyIsAffine | app.py:8-25 | every formula equals an independently written line slope·x + offset with positive slope; the offset is zero exactly for the non-temperature formulas |
| Registry.InverseIsInvolution | app.py:8-25 | pairing each formula with its opposite direction is an involution with no fixed point that keeps temperature with temperature |
| Registry.InverseRoundTrip | app.py:8-25 | applying any formula and then its opposite direction returns the input |
| Registry.NonTemperatureIsLinear | app.py:8-25 | every non-temperature formula maps 0 to 0, is additive and commutes with scaling |
| Registry.NonTemperatureIsAdditive | app.py:8-25 | every non-temperature formula maps a sum to the sum of the images |
| Registry.NonTemperatureIsHomogeneous | app.py:8-25 | every non-temperature formula commutes with scaling the input |
| Registry.TemperatureIsAffine | app.py:14-15 | the temperature formulas move 0 and satisfy f(a+b) = f(a) + f(b) - f(0) |
| Registry.StrictlyIncreasing | app.py:8-25 | every formula preserves and reflects strict order and equality |
| Registry.Conversions | app.py:96-115 | the eighteen registry names with their formula and printed unit, copied literally; RegistryIsBijection states that names and formulas correspond one to one |
| Registry.NameOfRegistered | app.py:96-115 | each formula is in the registry under its name, and the entry found there is that formula |
| Registry.RegisteredNameOf | app.py:96-115 | every registry key is the name of the formula filed under it |
| Registry.RegistryIsBijection | app.py:96-115 | registry names and the eighteen formulas correspond one to one, in both directions |
| Registry.Categories | app.py:72-81 | the eight category titles and their option lists, copied literally; CategoriesMatchRegistry states that together they offer exactly the registry's names |
| Registry.Offered | app.py:84-90 | a name can be chosen exactly when some category's option list holds it |
| Registry.CategoryOffersKind | app.py:72-81 | the category of each formula offers its name, and a formula and its inverse share a category |
| Registry.CategoryOptionsRegistered | app.py:72-115 | every name category i offers is a registry key whose formula belongs to category i |
| Registry.CategoriesMatchRegistry | app.py:72-117 | there are eight categories, and a name is offered by some category exactly when the registry holds it, so the lookup of a picked name never fails |
| Registry.CategoriesClosedUnderInverse | app.py:72-81 | each category offering a conversion also offers the conversion back |
| Registry.SourceLabel | app.py:118 | the label is a prefix of the name, no " to " starts inside it, and it is followed by " to " unless it is the whole name |
| Registry.SourceLabelOfName | app.py:118 | the text before the first " to " of each registry name is its source unit, and it is non-empty ("Kilometers per hour" for the km/h name) |
| Registry.RegistryLabels | app.py:118-121 | for every registry name the printed source label is the source unit of its formula and is non-empty |
| Registry.InverseSwapsNames | app.py:96-115 | the opposite conversion's registry name is the target unit, " to ", then the source unit: the two units swap sides |
| Registry.Convert | app.py:117-118 | a registered name converts: the result is the registered formula applied to the input, with the name's source label and the registry's unit label; any other name fails with InvalidConversionKind |
| Registry.ConvertTotalOnOffered | app.py:84-117 | every name the category picker can offer converts successfully for every input |
| Registry.ConvertRoundTrip | app.py:96-117 | converting under a name and converting the result under the inverse formula's name gives the input back |
| Text.FindFrom | app.py:118 | the result is an occurrence at or after the start with no earlier one, and none is returned exactly when there is no occurrence |
| Text.SplitHead | app.py:118 | the first split field is a prefix with no separator starting inside it, followed by the separator unless it is the whole string |
| Text.SplitHeadUnique | app.py:118 | any prefix with those properties is the first split field |
| Text.SplitHeadOfJoin | app.py:118 | splitting l + sep + r gives l back when sep does not start inside l + sep before its end |
| Session.InitialTheme | app.py:28-29 | a session without a theme starts light; an existing theme is kept |
| Session.ToggleTheme | app.py:31-32 | the toggled theme is light or dark, and it is dark exactly when the old theme was light |
| Session.ToggleThemeInvolution | app.py:31-32 | on light and dark, a toggle changes the theme and two toggles restore it |
| Session.ToggleTimesParity | app.py:28-32 | from a fresh session, after n toggles the theme is light for even n and dark for odd n |
| Session.GetOrEmpty | app.py:39-40 | a key's list is returned when present, the empty list when absent |
| Session.Load | app.py:35-43 | a missing file gives empty history and favorites; otherwise each of the two keys defaults to the empty list independently |
| Session.Save | app.py:45-47 | the saved object has exactly the keys "history" and "favorites", holding the two lists |
| Session.LoadSave | app.py:35-47 | loading a saved store gives the same store back |
| Session.SaveLoad | app.py:35-47 | saving a loaded object that has exactly the two keys gives the same object back |
| Session.MissingKeyIsEmpty | app.py:39-40 | a missing key loads like an empty list under that key |
| Session.AppendHistory | app.py:121 | recording adds one entry, last, and leaves every earlier entry in place |
| Session.AppendAllConcatenates | app.py:121 | N recordings give the old history followed by the N entries in order, length old + N |
| Session.Recent | app.py:137 | the shown entries are the last min(5, n) entries of the history, in order |
| Session.RecentAfterAppend | app.py:121-138 | after a recording the shown list is the previous one, minus its oldest entry when it had five, followed by the new entry |
| Session.AddFavorite | app.py:143-144 | the entry is then a favorite, no other entry is added or lost, old favorites keep their order, the length grows by one exactly when the entry was new, and no duplicates are created |
| Session.AddFavoriteIdempotent | app.py:143-144 | adding the same favorite twice equals adding it once, and leaves exactly one copy of it |
| Session.AddAllFavoritesKeepsSet | app.py:143-144 | any sequence of additions keeps favorites free of duplicates, holding exactly the old and the added entries, old ones first |
| Session.EntryText | app.py:121 | the entry is the formatted input, a blank and the source label, then " = ", the formatted result and a blank, then the unit, and its length is that of the parts plus the five separator characters |
| Session.Submit | app.py:117-122 | a registered name converts with the registered formula, the text before " to " as label and the registry's unit, appends that entry to the history and leaves favorites alone; an unregistered name fails with InvalidConversionKind |
| Session.Favorite | app.py:141-145 | adding a favorite leaves the history alone, keeps the old favorites in order as a prefix, adds the entry and nothing else, grows by one exactly when the entry was new, and keeps favorites free of duplicates |
| Session.FavoriteIdempotent | app.py:141-145 | adding the same favorite twice equals adding it once; its second clause is LoadSave applied to the resulting store |
| Session.SubmitOfferedSucceeds | app.py:84-122 | submitting any offered name succeeds; its second clause is LoadSave applied to the resulting store |

## Left out

- IEEE double arithmetic: the formulas are over exact reals, so rounding, overflow to infinity and NaN inputs are not modelled; the laws above hold only approximately of the running program.
- Number formatting: the `:.4f` rendering in result, history and favorite texts is the parameter `fmt` of `Session.EntryText`; entries are otherwise opaque strings.
- File I/O and JSON: opening, parsing and writing `history.json` are not modelled; a store file is `Missing` or an already-parsed object whose values are lists of strings. An unreadable or malformed file is not modelled. The application loads whatever value a key holds; the model keeps only lists of strings, so the later failures or odd displays a non-list value would cause (an `append` that raises, a string shown one character at a time, `null` showing nothing) are not modelled.
- The Streamlit interface: page markup and CSS, header and footer, buttons, radio and select widgets, the number input and `st.rerun` are presentation; their only modelled effect is which name can be chosen (`Registry.Offered`).
- The random fun fact: a nondeterministic, purely cosmetic choice among four fixed strings.
- The favorites button guard `'result' in locals()`: it depends on Streamlit's rerun semantics; only the insertion without duplicates is modelled.
- The unused `matplotlib` and `numpy` imports.
- Unknown conversion names: the application indexes the registry directly and would raise `KeyError` for an unknown name; the model returns `InvalidConversionKind` instead, a case the picker never produces.
