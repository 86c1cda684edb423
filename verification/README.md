# swUtils core logic in Dafny

This project models five pieces of sequential logic from the `swUtils` Unity
toolkit and proves properties of them.

- **CSV sheet loader** (`csv_loader.dfy`). `SwUtilsCSVLoader` decodes a CSV
  file. A UTF-8 byte-order mark is stripped; any other input goes to an
  encoding-detection function, which is a parameter here. The loader then
  reads the header line and splits every later line at commas; quoted fields
  are not recognised. Headers and cells are trimmed and blank lines are
  skipped. A row is kept only when some cell is not blank and its `ID` cell
  is not blank, and it is stored under that ID. `GetDataSheet`, `GetDataById`
  and `GetValueById` answer lookups on the resulting table.
- **Scripting define symbols** (`project_setting.dfy`). The "Update" button
  reads the `;`-separated symbol setting, dropping empty entries. It appends
  each requested symbol that is missing and writes the `;`-join back only if
  something was appended. The "Reset" button removes the first occurrence of
  each requested symbol and writes the result only if something was removed.
  `PlayerSettings` is modelled as one string cell.
- **Utilities** (`utility.dfy`).
  - `WeightRandom` does a prefix-sum weighted pick in C# 32-bit `int`
    arithmetic. `Random.Range` is a function parameter.
  - `Shuffle` is the lazy in-place buffer shuffle. The values
    `random.Next(i, count)` returns are a sequence parameter, and the yielded
    elements are collected.
  - `SetGauge` builds the `current / max` text.
- **FavoriteVTabs editor window** (`favorite_vtabs.dfy`). The window keeps a
  list of prefab paths, a parallel list of prefab references and a list of
  textures. These are changed by drops, remove buttons, field replacement,
  the alignment loops, the clear buttons and the load/save routines.
  `EditorPrefs` is a class holding a string map. The asset database is a
  value: it maps paths to prefabs and textures, and textures to paths.
- **Canvas ratio rule** (`canvas_resolution.dfy`). `CanvasScalerResolution`
  sorts the ratio table in place by `maxRatio`. It then takes the match value
  of the first setting whose `maxRatio` is not below the current ratio, or
  the default when no setting qualifies. Ratios are reals.

Shared modules:
- `strings.dfy` models the .NET string operations the code relies on:
  `char.IsWhiteSpace`, `Trim`, `Split` with and without
  `RemoveEmptyEntries`, and `Join`.
- `lists.dfy` models the two list idioms the code repeats:
  - "add unless `Contains`", as the `Fresh` suffix it appends;
  - `List.Remove`, which removes the first occurrence.
- `wrappers.dfy` holds `Option`. `None` stands for C#'s `null`, or for the
  index exception where noted.

Host stand-ins. These functions describe the Unity and .NET calls the code
makes. They are definitions the model assumes, not promises it proves, so
they carry no contract and have no row in the table below.
- `Utility.ItemAt` is the list indexer `items[i]`. It gives `None` where C#
  throws the index exception.
- `FavoriteVTabs.AsGameObject` is the cast `draggedObject as GameObject`.
- `FavoriteVTabs.EditorPrefs.GetString` is `EditorPrefs.GetString` with a
  default value.
- `FavoriteVTabs.References` is one `AssetDatabase.LoadAssetAtPath<GameObject>`
  per path, in order.
- `FavoriteVTabs.PathsOnlyForGameObjects` is what `GetPrefabPath` guarantees:
  an object that is not a `GameObject` has no prefab path.

Observations the model makes explicit:
- `ReplacePrefab` (the object field) does not check `Contains`, so it can put
  a path into the list twice. `LoadPrefabs` also loads duplicates stored in
  the preference string. So no-duplicates is proved only as an invariant of
  the drop handlers.
- An empty requested symbol is never found in the stored list, because empty
  entries are dropped on reading. Every update therefore appends it again and
  writes (`EmptySymbolIsAlwaysAppended`).
- A requested symbol that contains `;` is never found either, because the
  stored list is split at `;` on reading. Every update appends and writes it
  again too (`SeparatorSymbolIsAlwaysAppended`). Only when every requested
  symbol is non-empty and free of `;` does a second identical update write
  nothing (`SecondUpdateIsNoOp`).
- In `WeightRandom`, an `items` array shorter than the chosen index throws;
  `Pick` returns `None` for that case.

## Model

| member | source | states |
|---|---|---|
| Strings.TrimStartSpec | Assets/Scripts/swUtils/DataLoader/swUtilsCSVLoader.cs:113 | `TrimStart` keeps a suffix, removes only white space, and stops at a non-white character |
| Strings.TrimEndSpec | Assets/Scripts/swUtils/DataLoader/swUtilsCSVLoader.cs:113 | `TrimEnd` keeps a prefix, removes only white space, and stops at a non-white character |
| Strings.TrimBlank | Assets/Scripts/swUtils/DataLoader/swUtilsCSVLoader.cs:132-134 | a trimmed cell is empty exactly when the cell is blank (`IsNullOrWhiteSpace`), and a trimmed string is blank only when empty |
| Strings.Split | Assets/Scripts/swUtils/DataLoader/swUtilsCSVLoader.cs:110 | `Split` always yields at least one piece, and no piece holds the separator |
| Strings.JoinSplit | Assets/Scripts/swUtils/CustomEditor/FavoriteVTabs/CustomEditorFavoriteVTabs.cs:222 | joining the pieces of a split with the separator gives back the original string |
| Strings.SplitJoin | Assets/Scripts/swUtils/CustomEditor/FavoriteVTabs/CustomEditorFavoriteVTabs.cs:210-222 | splitting a join of a non-empty list of separator-free pieces gives the pieces back |
| Strings.NonEmpty | Assets/Scripts/swUtils/CustomEditor/ProjectSetting/CustomEditorProjectSetting.cs:35 | removing empty entries keeps exactly the non-empty pieces |
| Strings.NonEmptySnoc | Assets/Scripts/swUtils/CustomEditor/FavoriteVTabs/CustomEditorFavoriteVTabs.cs:223-230 | filtering one more piece keeps it exactly when it is not empty |
| Strings.SplitNonEmpty | Assets/Scripts/swUtils/CustomEditor/ProjectSetting/CustomEditorProjectSetting.cs:35 | every piece of a split with `RemoveEmptyEntries` is non-empty and has no separator |
| Strings.SplitNonEmptyJoin | Assets/Scripts/swUtils/CustomEditor/ProjectSetting/CustomEditorProjectSetting.cs:35-49 | a `;`-join read back with empty entries removed is the list again exactly when every entry is non-empty and has no `;` (both directions) |
| Lists.FreshMember | Assets/Scripts/swUtils/CustomEditor/ProjectSetting/CustomEditorProjectSetting.cs:38-45 | "add unless contained" appends a value exactly when it is requested and not already present |
| Lists.FreshNoDup | Assets/Scripts/swUtils/CustomEditor/ProjectSetting/CustomEditorProjectSetting.cs:40-44 | the appended part never repeats a value, even when the request does |
| Lists.AppendFreshNoDup | Assets/Scripts/swUtils/CustomEditor/FavoriteVTabs/CustomEditorFavoriteVTabs.cs:174-178 | appending the fresh candidates keeps a duplicate-free list duplicate-free |
| Lists.FreshIdempotent | Assets/Scripts/swUtils/CustomEditor/ProjectSetting/CustomEditorProjectSetting.cs:38-45 | a second pass with the same candidates appends nothing |
| Lists.FreshNonEmpty | Assets/Scripts/swUtils/CustomEditor/ProjectSetting/CustomEditorProjectSetting.cs:40-47 | something is appended exactly when some candidate is not yet present |
| Lists.FreshSnoc | Assets/Scripts/swUtils/CustomEditor/ProjectSetting/CustomEditorProjectSetting.cs:40-44 | one more candidate is appended exactly when it is not in the list built so far |
| Lists.FreshStep | Assets/Scripts/swUtils/CustomEditor/ProjectSetting/CustomEditorProjectSetting.cs:38-44 | the candidate at index `k` is appended exactly when it is not in the list built from the earlier ones |
| Lists.FreshAll | Assets/Scripts/swUtils/CustomEditor/FavoriteVTabs/CustomEditorFavoriteVTabs.cs:350-356 | on an empty list, candidates without repeats are all appended, in order |
| Lists.FirstIndex | Assets/Scripts/swUtils/CustomEditor/ProjectSetting/CustomEditorProjectSetting.cs:69 | the index found holds the value and no earlier index does, or there is none |
| Lists.RemoveFirst | Assets/Scripts/swUtils/CustomEditor/ProjectSetting/CustomEditorProjectSetting.cs:69 | `List.Remove` takes one copy of the value out of the multiset, shortens the list by one exactly when the value was present, and otherwise changes nothing |
| Lists.RemoveEachMultiset | Assets/Scripts/swUtils/CustomEditor/ProjectSetting/CustomEditorProjectSetting.cs:67-73 | the removals take away exactly the requested values, counted with multiplicity and only as far as they occur |
| Lists.RemoveEachChanges | Assets/Scripts/swUtils/CustomEditor/ProjectSetting/CustomEditorProjectSetting.cs:67-75 | the list changes exactly when some requested value is present (both directions) |
| Lists.RemoveEachNone | Assets/Scripts/swUtils/CustomEditor/ProjectSetting/CustomEditorProjectSetting.cs:67-73 | absent values are ignored |
| Lists.SubsequenceRefl | Assets/Scripts/swUtils/CustomEditor/ProjectSetting/CustomEditorProjectSetting.cs:67-73 | a list is an order-preserving sublist of itself |
| Lists.SubsequenceTrans | Assets/Scripts/swUtils/CustomEditor/ProjectSetting/CustomEditorProjectSetting.cs:67-73 | order-preserving sublists compose |
| Lists.DropOneSubsequence | Assets/Scripts/swUtils/CustomEditor/ProjectSetting/CustomEditorProjectSetting.cs:69 | removing one entry keeps the others in their order |
| Lists.RemoveEachKeepsOrder | Assets/Scripts/swUtils/CustomEditor/ProjectSetting/CustomEditorProjectSetting.cs:67-73 | all remaining entries keep their relative order |
| CsvLoader.BomIsStripped | Assets/Scripts/swUtils/DataLoader/swUtilsCSVLoader.cs:163-168 | input that starts with EF BB BF has exactly those three bytes removed before UTF-8 decoding |
| CsvLoader.NoBomIsDetected | Assets/Scripts/swUtils/DataLoader/swUtilsCSVLoader.cs:163-172 | input without the mark goes to encoding detection unchanged |
| CsvLoader.LineEnd | Assets/Scripts/swUtils/DataLoader/swUtilsCSVLoader.cs:118 | the line ends at the first `\r` or `\n`, and the line holds no break |
| CsvLoader.Lines | Assets/Scripts/swUtils/DataLoader/swUtilsCSVLoader.cs:104-118 | `ReadLine` yields no line at all exactly when the text is empty |
| CsvLoader.LinesHaveNoBreak | Assets/Scripts/swUtils/DataLoader/swUtilsCSVLoader.cs:107-118 | no line `ReadLine` returns holds a line break |
| CsvLoader.LinesOfTerminated | Assets/Scripts/swUtils/DataLoader/swUtilsCSVLoader.cs:104-118 | lines written one per `\n`-terminated line read back as the same lines |
| CsvLoader.LinesAtNewline | Assets/Scripts/swUtils/DataLoader/swUtilsCSVLoader.cs:118 | a line ended by a lone `\n` is followed by the lines of the rest |
| CsvLoader.LineEndAt | Assets/Scripts/swUtils/DataLoader/swUtilsCSVLoader.cs:118 | a break-free line followed by a break ends exactly there |
| CsvLoader.ParseRow | Assets/Scripts/swUtils/DataLoader/swUtilsCSVLoader.cs:121-145 | a blank line yields no row; a row that is kept has a non-blank `ID` |
| CsvLoader.NoHeaderNoSheet | Assets/Scripts/swUtils/DataLoader/swUtilsCSVLoader.cs:107-108 | no sheet results exactly when the text has no header line, that is, when it is empty |
| CsvLoader.RowKeys | Assets/Scripts/swUtils/DataLoader/swUtilsCSVLoader.cs:110-114 | the row's columns are exactly the trimmed headers of the first `min(#values, #headers)` columns: extra cells are dropped and missing trailing columns are absent |
| CsvLoader.RowCell | Assets/Scripts/swUtils/DataLoader/swUtilsCSVLoader.cs:130-138 | a column holds its own trimmed cell unless a later column repeats its header |
| CsvLoader.DistinctHeadersRow | Assets/Scripts/swUtils/DataLoader/swUtilsCSVLoader.cs:130-138 | with distinct headers, `row[headers[i]] == Trim(values[i])` for every `i` below both lengths |
| CsvLoader.RowValuesAreCells | Assets/Scripts/swUtils/DataLoader/swUtilsCSVLoader.cs:130-138 | every stored cell is the trimmed text of one of the read cells |
| CsvLoader.RowNeedsOnlyId | Assets/Scripts/swUtils/DataLoader/swUtilsCSVLoader.cs:127-141 | a line yields a row exactly when it is not blank and its `ID` cell is present and not blank (the data test adds nothing) |
| CsvLoader.SheetKeyedById | Assets/Scripts/swUtils/DataLoader/swUtilsCSVLoader.cs:141-145 | every stored key equals the `ID` cell of the row stored under it |
| CsvLoader.ValidIdsSnoc | Assets/Scripts/swUtils/DataLoader/swUtilsCSVLoader.cs:141-145 | one more line adds its ID to the valid IDs exactly when it yields a row |
| CsvLoader.SheetKeysAreValidIds | Assets/Scripts/swUtils/DataLoader/swUtilsCSVLoader.cs:141-145 | the sheet's keys are exactly the IDs of the lines that yield a row |
| CsvLoader.SheetSize | Assets/Scripts/swUtils/DataLoader/swUtilsCSVLoader.cs:143-144 | the sheet size equals the number of distinct valid IDs |
| CsvLoader.LastRowWins | Assets/Scripts/swUtils/DataLoader/swUtilsCSVLoader.cs:143-144 | the row stored under an ID is the one from the last line with that ID |
| CsvLoader.BlankLinesIgnored | Assets/Scripts/swUtils/DataLoader/swUtilsCSVLoader.cs:121 | inserting a blank line anywhere does not change the sheet |
| CsvLoader.LoadAllHasSheet | Assets/Scripts/swUtils/DataLoader/swUtilsCSVLoader.cs:35-54 | after loading, a name has a sheet exactly when some mapping of that name has a file whose decoded text is not empty, so `GetDataSheet` returns null for a headerless file |
| CsvLoader.LoadAllKeyedById | Assets/Scripts/swUtils/DataLoader/swUtilsCSVLoader.cs:35-54 | every loaded sheet stores each row under its own ID |
| CsvLoader.SwUtilsCSVLoader.constructor | Assets/Scripts/swUtils/DataLoader/swUtilsCSVLoader.cs:26-30 | the loader starts with its mappings and an empty table |
| CsvLoader.SwUtilsCSVLoader.InitializeAllSheetData | Assets/Scripts/swUtils/DataLoader/swUtilsCSVLoader.cs:35-54 | clears the table, then loads the mappings that have a file, in order; every sheet is keyed by ID afterwards |
| CsvLoader.SwUtilsCSVLoader.LoadCSVDataFromTextAsset | Assets/Scripts/swUtils/DataLoader/swUtilsCSVLoader.cs:96-157 | stores the parsed sheet under its name; a text without a header line stores nothing; keeps every stored sheet keyed by its rows' `ID` cells (`Valid`) |
| CsvLoader.SwUtilsCSVLoader.GetDataSheet | Assets/Scripts/swUtils/DataLoader/swUtilsCSVLoader.cs:57-63 | returns a sheet exactly when one is stored under the name, and that sheet is keyed by ID |
| CsvLoader.SwUtilsCSVLoader.GetDataById | Assets/Scripts/swUtils/DataLoader/swUtilsCSVLoader.cs:66-81 | finds a row exactly when some stored row has that `ID` cell; on a loaded table this is exactly the row stored under key `id`, else null |
| CsvLoader.SwUtilsCSVLoader.GetValueById | Assets/Scripts/swUtils/DataLoader/swUtilsCSVLoader.cs:84-93 | returns the cell only when both the row and the column exist, and null otherwise |
| CsvLoader.ReadHeaders | Assets/Scripts/swUtils/DataLoader/swUtilsCSVLoader.cs:110-114 | the header array holds the trimmed comma pieces of the header line |
| CsvLoader.BuildRow | Assets/Scripts/swUtils/DataLoader/swUtilsCSVLoader.cs:126-138 | the row maps each header to its trimmed cell for `i < min(#values, #headers)`, and the data flag is set exactly when one of those trimmed cells is not blank |
| CsvLoader.ParseCsvText | Assets/Scripts/swUtils/DataLoader/swUtilsCSVLoader.cs:100-148 | the read loop produces exactly the sheet of the specification function `ParseSheet` |
| ProjectSetting.SymbolList | Assets/Scripts/swUtils/CustomEditor/ProjectSetting/CustomEditorProjectSetting.cs:35 | every current symbol is non-empty and has no `;` |
| ProjectSetting.AddMissing | Assets/Scripts/swUtils/CustomEditor/ProjectSetting/CustomEditorProjectSetting.cs:37-45 | the list becomes the old list followed by the missing requested symbols in request order; `changed` holds exactly when some requested symbol was missing |
| ProjectSetting.RemoveListed | Assets/Scripts/swUtils/CustomEditor/ProjectSetting/CustomEditorProjectSetting.cs:66-73 | the result is the first-occurrence removals, equal to the old multiset minus the requested one, with order kept; `changed` holds exactly when some requested symbol was present |
| ProjectSetting.UpdateScriptingDefineSymbols | Assets/Scripts/swUtils/CustomEditor/ProjectSetting/CustomEditorProjectSetting.cs:30-57 | writes the `;`-join of the merged list exactly when a symbol was missing, and otherwise leaves the setting unchanged |
| ProjectSetting.ResetScriptingDefineSymbols | Assets/Scripts/swUtils/CustomEditor/ProjectSetting/CustomEditorProjectSetting.cs:59-85 | writes the `;`-join of the remaining list exactly when some requested symbol was present, and otherwise leaves the setting unchanged |
| ProjectSetting.UpdateWritesMergedList | Assets/Scripts/swUtils/CustomEditor/ProjectSetting/CustomEditorProjectSetting.cs:38-50 | the written string reads back as the merged list; old symbols keep their order, the appended ones have no repeats, no duplicate is introduced, and the members are the old and the requested symbols |
| ProjectSetting.SecondUpdateIsNoOp | Assets/Scripts/swUtils/CustomEditor/ProjectSetting/CustomEditorProjectSetting.cs:43-56 | when every requested symbol is non-empty and contains no `;`, after an update every requested symbol is in the stored list, so a second identical update writes nothing |
| ProjectSetting.EmptySymbolIsAlwaysAppended | Assets/Scripts/swUtils/CustomEditor/ProjectSetting/CustomEditorProjectSetting.cs:35-44 | a request containing the empty symbol always counts as a change |
| ProjectSetting.SeparatorSymbolIsAlwaysAppended | Assets/Scripts/swUtils/CustomEditor/ProjectSetting/CustomEditorProjectSetting.cs:35-52 | a requested symbol containing `;` is never in the stored list, so every update appends it and writes |
| ProjectSetting.ResetWritesRemainingList | Assets/Scripts/swUtils/CustomEditor/ProjectSetting/CustomEditorProjectSetting.cs:64-78 | the written string reads back as the remaining list, which keeps the old order and loses exactly the removed copies |
| Utility.Wrap32 | Assets/Scripts/swUtils/swUtilsUtility.cs:47 | C# `int` addition leaves in-range values unchanged |
| Utility.WrapAdd | Assets/Scripts/swUtils/swUtilsUtility.cs:45-48 | wrapping after every addition equals wrapping the exact sum once |
| Utility.ModAddMultiple | Assets/Scripts/swUtils/swUtilsUtility.cs:47 | adding a multiple of 2^32 does not change the wrapped value |
| Utility.FirstExceeding | Assets/Scripts/swUtils/swUtilsUtility.cs:53-60 | the least index whose running sum exceeds the draw, or the length when there is none |
| Utility.WeightRandom | Assets/Scripts/swUtils/swUtilsUtility.cs:41-63 | returns the item the reference `Pick` chooses for the draw `range(0, Total(weights))`, with totals in 32-bit wrap-around |
| Utility.PrefixWraps | Assets/Scripts/swUtils/swUtilsUtility.cs:43-48 | `totalWeight` and every `accumulatedWeight` is the exact sum of the weights reduced to 32 bits |
| Utility.PrefixSumMonotone | Assets/Scripts/swUtils/swUtilsUtility.cs:55 | with non-negative weights the running sums never decrease |
| Utility.NoOverflow | Assets/Scripts/swUtils/swUtilsUtility.cs:43-55 | with non-negative weights whose sum fits an `int`, no running sum wraps |
| Utility.DrawSelects | Assets/Scripts/swUtils/swUtilsUtility.cs:50-60 | a draw in `[0, total)` picks an in-range index whose slice `[PrefixSum(i), PrefixSum(i+1))` holds the draw, so its weight is positive and a zero-weight item is never returned |
| Utility.PickedIff | Assets/Scripts/swUtils/swUtilsUtility.cs:53-60 | index `i` is picked exactly when the draw lies in its slice (both directions) |
| Utility.Interval | Assets/Scripts/swUtils/swUtilsUtility.cs:50 | the set of draws `lo <= d < hi` |
| Utility.IntervalSize | Assets/Scripts/swUtils/swUtilsUtility.cs:50 | `[lo, hi)` has `hi - lo` draws |
| Utility.PickedIsSlice | Assets/Scripts/swUtils/swUtilsUtility.cs:53-60 | the draws that pick `i` form exactly its slice of the prefix sums |
| Utility.ChoiceCount | Assets/Scripts/swUtils/swUtilsUtility.cs:50-60 | exactly `weights[i]` of the possible draws pick item `i` |
| Utility.NothingExceedsPicksLast | Assets/Scripts/swUtils/swUtilsUtility.cs:62 | when no running sum exceeds the draw, the last item is returned |
| Utility.AllZeroPicksLast | Assets/Scripts/swUtils/swUtilsUtility.cs:43-62 | with all weights 0 the total is 0 and the last item is returned |
| Utility.ZeroPrefix | Assets/Scripts/swUtils/swUtilsUtility.cs:43-48 | zero weights sum to 0 |
| Utility.Shuffle | Assets/Scripts/swUtils/swUtilsUtility.cs:24-38 | the yielded sequence is the reference `Shuffled` of the source and the choices, so one seed gives one order, and it has the source's length and multiset |
| Utility.ShuffledIsPermutation | Assets/Scripts/swUtils/swUtilsUtility.cs:26-37 | from any step on, the shuffle yields a permutation of the not-yet-yielded buffer |
| Utility.IdentityChoices | Assets/Scripts/swUtils/swUtilsUtility.cs:32-37 | when every step draws `j == i`, the source comes out unchanged |
| Utility.SetGauge | Assets/Scripts/swUtils/swUtilsUtility.cs:66-74 | the text becomes the current value, `" / "`, then the maximum, in invariant-culture decimal |
| Utility.NatTextDigits | Assets/Scripts/swUtils/swUtilsUtility.cs:69-71 | a number's decimal text is non-empty and all digits |
| Utility.ParseNatText | Assets/Scripts/swUtils/swUtilsUtility.cs:69-71 | reading back a number's digits gives the number |
| Utility.ParseDecimalText | Assets/Scripts/swUtils/swUtilsUtility.cs:69-71 | reading back a signed decimal text gives the number |
| Utility.DecimalTextHasNoSpace | Assets/Scripts/swUtils/swUtilsUtility.cs:69 | a decimal text holds no space, so the first space of the gauge is the separator's |
| Utility.GaugeRoundTrip | Assets/Scripts/swUtils/swUtilsUtility.cs:68-73 | the gauge text determines both numbers: parsing it gives back `(currentValue, maxValue)` |
| FavoriteVTabs.EditorPrefs.SetString | Assets/Scripts/swUtils/CustomEditor/FavoriteVTabs/CustomEditorFavoriteVTabs.cs:210 | overwrites only that key |
| FavoriteVTabs.LoadedPaths | Assets/Scripts/swUtils/CustomEditor/FavoriteVTabs/CustomEditorFavoriteVTabs.cs:219-231 | every loaded path is non-empty and has no `;` |
| FavoriteVTabs.CustomEditorFavoriteVTabs.constructor | Assets/Scripts/swUtils/CustomEditor/FavoriteVTabs/CustomEditorFavoriteVTabs.cs:12-14 | the three lists start empty |
| FavoriteVTabs.CustomEditorFavoriteVTabs.OnEnable | Assets/Scripts/swUtils/CustomEditor/FavoriteVTabs/CustomEditorFavoriteVTabs.cs:32-36 | loads the prefab lists from the preferences, then appends the saved textures |
| FavoriteVTabs.CustomEditorFavoriteVTabs.SavePrefabs | Assets/Scripts/swUtils/CustomEditor/FavoriteVTabs/CustomEditorFavoriteVTabs.cs:208-211 | stores `prefabPaths` joined with `;` under `VTabs_Prefabs` and changes no other key |
| FavoriteVTabs.CustomEditorFavoriteVTabs.LoadPrefabs | Assets/Scripts/swUtils/CustomEditor/FavoriteVTabs/CustomEditorFavoriteVTabs.cs:214-233 | replaces both lists with one path and one loaded reference per non-empty `;` piece, so the lists end aligned |
| FavoriteVTabs.CustomEditorFavoriteVTabs.AlignReferences | Assets/Scripts/swUtils/CustomEditor/FavoriteVTabs/CustomEditorFavoriteVTabs.cs:91-94 | pads the references with null or cuts them from the end until their count equals the path count |
| FavoriteVTabs.CustomEditorFavoriteVTabs.ResolveReference | Assets/Scripts/swUtils/CustomEditor/FavoriteVTabs/CustomEditorFavoriteVTabs.cs:101-104 | a null reference is replaced by the prefab loaded from its path, and nothing else changes |
| FavoriteVTabs.CustomEditorFavoriteVTabs.ReplacePrefab | Assets/Scripts/swUtils/CustomEditor/FavoriteVTabs/CustomEditorFavoriteVTabs.cs:107-118 | a changed, non-null field with a non-empty prefab path replaces entry `i` of both lists and saves; otherwise nothing changes |
| FavoriteVTabs.CustomEditorFavoriteVTabs.RemovePrefab | Assets/Scripts/swUtils/CustomEditor/FavoriteVTabs/CustomEditorFavoriteVTabs.cs:125-131 | deletes index `i` from both lists, keeps the other entries in order, keeps them aligned, and saves |
| FavoriteVTabs.CustomEditorFavoriteVTabs.DropPrefabs | Assets/Scripts/swUtils/CustomEditor/FavoriteVTabs/CustomEditorFavoriteVTabs.cs:168-181 | when non-`GameObject`s have no prefab path, appends each dropped object's non-empty, not yet listed path together with that `GameObject` as its (non-null) reference; keeps the lists aligned and duplicate-free; saves |
| FavoriteVTabs.CustomEditorFavoriteVTabs.ClearPrefabs | Assets/Scripts/swUtils/CustomEditor/FavoriteVTabs/CustomEditorFavoriteVTabs.cs:67-72 | empties both prefab lists and stores the empty join |
| FavoriteVTabs.CustomEditorFavoriteVTabs.SaveTextures | Assets/Scripts/swUtils/CustomEditor/FavoriteVTabs/CustomEditorFavoriteVTabs.cs:329-341 | stores the `;`-join of the non-empty asset paths of the textures, in list order |
| FavoriteVTabs.CustomEditorFavoriteVTabs.LoadTextures | Assets/Scripts/swUtils/CustomEditor/FavoriteVTabs/CustomEditorFavoriteVTabs.cs:344-359 | without clearing, appends each non-null texture found at a saved path that is not listed yet |
| FavoriteVTabs.CustomEditorFavoriteVTabs.ReplaceTexture | Assets/Scripts/swUtils/CustomEditor/FavoriteVTabs/CustomEditorFavoriteVTabs.cs:253-257 | sets entry `i`, and saves exactly when the field changed |
| FavoriteVTabs.CustomEditorFavoriteVTabs.RemoveTexture | Assets/Scripts/swUtils/CustomEditor/FavoriteVTabs/CustomEditorFavoriteVTabs.cs:262-267 | deletes index `i`, keeps the others in order, and saves |
| FavoriteVTabs.CustomEditorFavoriteVTabs.DropTextures | Assets/Scripts/swUtils/CustomEditor/FavoriteVTabs/CustomEditorFavoriteVTabs.cs:308-322 | appends each dropped texture not yet listed, keeps the list duplicate-free, and saves exactly when something was appended |
| FavoriteVTabs.CustomEditorFavoriteVTabs.ClearTextures | Assets/Scripts/swUtils/CustomEditor/FavoriteVTabs/CustomEditorFavoriteVTabs.cs:76-80 | empties the texture list and stores the empty join |
| FavoriteVTabs.SaveOverwrites | Assets/Scripts/swUtils/CustomEditor/FavoriteVTabs/CustomEditorFavoriteVTabs.cs:317-318 | saving in every step of the drop leaves only the last write of the key |
| FavoriteVTabs.TextureLoadAppendsFresh | Assets/Scripts/swUtils/CustomEditor/FavoriteVTabs/CustomEditorFavoriteVTabs.cs:350-356 | loading appends the found textures that are not listed yet, in path order and never twice |
| FavoriteVTabs.TexturePathsStep | Assets/Scripts/swUtils/CustomEditor/FavoriteVTabs/CustomEditorFavoriteVTabs.cs:332-338 | one more texture adds its path exactly when the path is non-empty |
| FavoriteVTabs.PrefabDropAppendsFresh | Assets/Scripts/swUtils/CustomEditor/FavoriteVTabs/CustomEditorFavoriteVTabs.cs:171-179 | the drop appends exactly the non-empty dropped paths that are not yet listed, in drop order and never twice |
| FavoriteVTabs.PrefabDropKeepsPairs | Assets/Scripts/swUtils/CustomEditor/FavoriteVTabs/CustomEditorFavoriteVTabs.cs:171-179 | the drop keeps the old entries and appends as many references as paths |
| FavoriteVTabs.PrefabDropAppendsDropped | Assets/Scripts/swUtils/CustomEditor/FavoriteVTabs/CustomEditorFavoriteVTabs.cs:170-205 | when non-`GameObject`s have no prefab path, every appended reference is a dropped `GameObject`, never null, and its prefab path is the path appended beside it |
| FavoriteVTabs.TextureDropAppendsFresh | Assets/Scripts/swUtils/CustomEditor/FavoriteVTabs/CustomEditorFavoriteVTabs.cs:311-321 | the drop appends exactly the dropped textures that are not yet listed, in drop order and never twice |
| FavoriteVTabs.DroppedPathsMember | Assets/Scripts/swUtils/CustomEditor/FavoriteVTabs/CustomEditorFavoriteVTabs.cs:173-174 | a path is a dropped path exactly when it is non-empty and some dropped object has it |
| FavoriteVTabs.PrefabsRoundTrip | Assets/Scripts/swUtils/CustomEditor/FavoriteVTabs/CustomEditorFavoriteVTabs.cs:210-227 | save followed by load restores `prefabPaths` exactly when no path is empty or contains `;` (both directions) |
| FavoriteVTabs.JoinLength | Assets/Scripts/swUtils/CustomEditor/FavoriteVTabs/CustomEditorFavoriteVTabs.cs:210 | the join is at least as long as its first piece |
| FavoriteVTabs.SavedPathsOfAll | Assets/Scripts/swUtils/CustomEditor/FavoriteVTabs/CustomEditorFavoriteVTabs.cs:331-339 | textures that are assets with a path give one saved path each, in order |
| FavoriteVTabs.ReloadSaved | Assets/Scripts/swUtils/CustomEditor/FavoriteVTabs/CustomEditorFavoriteVTabs.cs:350-356 | loading the saved paths into an empty list gives the textures back |
| FavoriteVTabs.SavedTextSplits | Assets/Scripts/swUtils/CustomEditor/FavoriteVTabs/CustomEditorFavoriteVTabs.cs:340-349 | the saved string of a non-empty list is non-empty and splits back into the saved paths |
| FavoriteVTabs.TexturesRoundTrip | Assets/Scripts/swUtils/CustomEditor/FavoriteVTabs/CustomEditorFavoriteVTabs.cs:329-359 | saving a duplicate-free list of loadable textures and loading into an empty list restores it |
| CanvasResolution.FirstFit | Assets/Scripts/swUtils/Resolution/CanvasResolution.cs:40-47 | the least index with `currentRatio <= maxRatio`, or none when every `maxRatio` is below the current ratio |
| CanvasResolution.SortByMaxRatio | Assets/Scripts/swUtils/Resolution/CanvasResolution.cs:38 | the array ends sorted ascending by `maxRatio` and is a permutation of its old contents |
| CanvasResolution.SinkLast | Assets/Scripts/swUtils/Resolution/CanvasResolution.cs:38 | one insertion step extends the sorted prefix and keeps the contents |
| CanvasResolution.SinkStart | Assets/Scripts/swUtils/Resolution/CanvasResolution.cs:38 | the sort step's invariant holds before the first swap |
| CanvasResolution.SinkStep | Assets/Scripts/swUtils/Resolution/CanvasResolution.cs:38 | a swap keeps the sort step's invariant |
| CanvasResolution.SinkDone | Assets/Scripts/swUtils/Resolution/CanvasResolution.cs:38 | when no swap is due, the prefix is sorted |
| CanvasResolution.CanvasResolution.constructor | Assets/Scripts/swUtils/Resolution/CanvasResolution.cs:17-22 | the default match starts at 0 |
| CanvasResolution.CanvasResolution.CanvasScalerResolution | Assets/Scripts/swUtils/Resolution/CanvasResolution.cs:33-51 | the settings end sorted and permuted; the match is taken from the first sorted setting that admits the ratio, else the default |
| CanvasResolution.ChosenIsSmallestFit | Assets/Scripts/swUtils/Resolution/CanvasResolution.cs:38-47 | on a sorted table the chosen setting has the smallest `maxRatio` not below the current ratio; with no choice, every `maxRatio` is below it |
| CanvasResolution.FitCarriesOver | Assets/Scripts/swUtils/Resolution/CanvasResolution.cs:38-47 | whatever one arrangement fits, a sorted arrangement holding the same settings fits too, with a `maxRatio` no larger |
| CanvasResolution.ChosenRatioIsDetermined | Assets/Scripts/swUtils/Resolution/CanvasResolution.cs:38-47 | however the unstable sort orders ties, the choice exists in the same cases and has the same `maxRatio` |

## Left out

- Unity host and GUI: IMGUI drawing, menus, event types, drop-area hit tests and `evt.Use()` are not modelled. Each button, field change and drop is one method, and the GUI decides when it is called.
- The `databaseSOList` hook of `InitializeAllSheetData` is not modelled. `SwUtilsDataBaseSO.LoadCSVData` is not part of this model.
- Non-BOM decoding in `DetectAndConvertEncoding`: the code-page list and `Encoding.Convert` are library calls. They are one function parameter (`Decoders.detect`), and UTF-8 decoding is another (`Decoders.utf8`).
- The exception handler of `LoadCSVDataFromTextAsset` is not modelled: decoding, splitting and dictionary updates of the model cannot fail.
- Logging (`Debug.Log`, `LogWarning`, `LogError`) is not modelled.
- `Random.Range` is a function parameter of `WeightRandom`. `System.Random` is the sequence of values `random.Next(i, count)` returns; the seed that produces them is not modelled.
- Utility.Shuffle: the lazy `yield` is not modelled; the output is collected in full. A caller that stops enumerating early sees a prefix of it.
- Utility.WeightRandom: the slice, count and zero-weight lemmas beside it assume non-negative weights whose exact sum fits in an `int`. With negative weights or an overflowing sum, only the method's own ensures (the wrapping `Pick`) is stated.
- Utility.SetGauge: the `gaugeImg` argument is unused by the source and left out. `int` formatting is modelled under the invariant culture; a culture with another minus sign or digit set is not modelled.
- `GetPrefabPath` (asset path or nearest prefab instance root) is a function parameter that returns `""` for null. Where a proof depends on it, it is required to give no path to an object that is not a `GameObject` (`PathsOnlyForGameObjects`); which path a `GameObject` gets is not modelled. `OpenPrefab`, `DragTextureToUI` and `PrefabStageUtility` are editor side effects without list logic, and are not modelled.
- FavoriteVTabs.CustomEditorFavoriteVTabs.RemovePrefab: it requires both lists to reach index `i`. The source throws otherwise, but the alignment loop always runs just before in the same pass.
- FavoriteVTabs.CustomEditorFavoriteVTabs.ReplacePrefab and FavoriteVTabs.CustomEditorFavoriteVTabs.ResolveReference: they require the aligned lists that the alignment loop establishes just before them in the same pass.
- The `i--` that lets the GUI loops continue after a removal is not modelled; each removal is one call.
- Unity object identity and destroyed-object null semantics are not modelled: assets are values compared by identity number.
- CanvasResolution: the current ratio `Screen.height / Screen.width` is an input, and float rounding, NaN and infinities are not modelled. `System.Array.Sort` (introspective and unstable) is modelled by an insertion sort. Only the sorted-permutation result is relied on, and `ChosenRatioIsDetermined` shows the tie order cannot change the chosen ratio. A null `ratioSettings` array is not modelled.
- `RatioSetting` is a C# class but is modelled as a value, since nothing mutates a setting.
