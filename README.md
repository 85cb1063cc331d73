# Arbre_Competence — a verified model of the competency ledger

Arbre_Competence shows the competences of a programme as an SVG tree. Each AC
(a learning outcome such as `AC11.01`) carries:

- a level from 0 to 5, raised and lowered one step at a time;
- a record of the date each level was reached.

This project models the logic behind that page in Dafny and proves what the
code promises:

- **`Progress`** (`ledger_progress.dfy`): one step of `M.addLevel` and
  `M.removeLevel` on an AC's `(level, dates)`, and the invariant those steps keep.
  The invariant is: level in 0..5, and every date belongs to a level from 1 up
  to the current one.
- **`Ledger`** (`ledger.dfy`): the page model `M` as the class `Page` over mutable AC
  objects:
  - `init` overlays the saved levels on the taxonomy;
  - `saveData` rebuilds the `SAE_levels`/`SAE_dates` snapshots and writes them;
  - `findACByCode`;
  - `addLevel`/`removeLevel` mutate the AC in place and save;
  - the controller handlers that drive them.
- **`Codes`** (`codes.dfy`): the pure helpers:
  - converting between an AC code and an SVG id, both ways;
  - colour variables;
  - the AC13 stroke rule;
  - the ancestor walk that finds the clicked AC.
- **`DataManager`** (`data_manager.dfy`): export, import and reset of
  `SAE_userData` against a mutable key-value store.
- **`History`** (`history.dfy`): `generateHistoryContent`. It collects events,
  sorts them in two modes and renders items, separators or the empty state.
- **`DateHistory`** (`date_history.dfy`): `DateHistoryView.html` and `dom`.
- **Support modules:**
  - `Json`: a JSON value type, a compact `Stringify`, a `Parse` for the same
    subset, and the round trip `Parse(Stringify(j)) == Some(j)`;
  - `Assoc`: JSON objects as ordered key/value lists; a later duplicate key wins
    on lookup, as in `JSON.parse`;
  - `KeyOrder`: the ascending order in which `for…in` visits integer-like keys;
  - `Text`: decimal rendering and the code-point order on strings;
  - `Storage`: `localStorage` as a class holding a `map<string, string>`;
  - `Wrappers`: `Option`.

The clock is a parameter (`now`, `exportNow`, `nameNow`). So are date parsing
(`timeOf`) and locale formatting (`formatDate`, `formatTime`). Dialog answers
and file contents are inputs.

## Model

| member | source | states |
|---|---|---|
| Progress.AddLevelStep | src/pages/svg-test/page.js:108-126 | succeeds iff the level (undefined counting as 0) is below 5. On success: level +1, the new level stamped with `now`, and every other date kept. On failure: level set to its numeric value, dates unchanged |
| Progress.RemoveLevelStep | src/pages/svg-test/page.js:129-146 | succeeds iff the level is above 0. On success: level −1, and the vacated level's date deleted when present and non-empty. On failure, only an undefined level becomes 0 |
| Progress.AddLevelKeepsConsistent | src/pages/svg-test/page.js:108-126 | a raise keeps the invariant: level in 0..5, and dates only for levels 1..level |
| Progress.RemoveLevelKeepsConsistent | src/pages/svg-test/page.js:129-146 | a lowering keeps the same invariant |
| Progress.ReplayKeepsConsistent | src/pages/svg-test/page.js:108-146 | any sequence of raises and lowerings from a consistent AC keeps it consistent |
| Progress.AddLevelKeepsChronological | src/pages/svg-test/page.js:119-120 | with a clock that never goes back, dates in level order stay in time order after a raise |
| Progress.RemoveLevelKeepsChronological | src/pages/svg-test/page.js:138-140 | deleting a date keeps the remaining dates in time order |
| Ledger.Page.AddLevel | src/pages/svg-test/page.js:108-126 | mutates the AC exactly as `AddLevelStep`. On success both snapshots are rebuilt and stored; on failure neither the snapshots nor storage change |
| Ledger.Page.RemoveLevel | src/pages/svg-test/page.js:129-146 | mutates the AC exactly as `RemoveLevelStep`. Saves on success only |
| Ledger.Page.SaveData | src/pages/svg-test/page.js:57-80 | afterwards `M.levels`/`M.dates` are the snapshots of the current taxonomy. Storage equals the old storage with `SAE_levels` and `SAE_dates` replaced by their JSON |
| Ledger.Page.RebuildSnapshots | src/pages/svg-test/page.js:59-74 | both snapshots are rebuilt from empty, so no stale code survives |
| Ledger.Snapshots | src/pages/svg-test/page.js:62-74 | the nested loops compute the levels and dates snapshots of every AC, in taxonomy order |
| Ledger.LevelsSnapshotSpec | src/pages/svg-test/page.js:66-68 | the levels snapshot binds a code iff some AC with that code has a level > 0. The bound value is the level of the last such AC |
| Ledger.DatesSnapshotSpec | src/pages/svg-test/page.js:69-71 | the dates snapshot binds a code iff some AC with that code has non-empty dates. The bound value is those dates, from the last such AC |
| Ledger.LevelsFromKeeps | src/pages/svg-test/page.js:66-68 | visiting ACs never removes a binding. Codes without a levelled AC keep their binding, and a levelled AC always leaves one |
| Ledger.DatesFromKeeps | src/pages/svg-test/page.js:69-71 | the same for the dates snapshot |
| Ledger.Page.Init | src/pages/svg-test/page.js:31-54 | an absent or empty `SAE_levels` leaves every AC as loaded; unparsable text fails. Otherwise each AC whose code is saved takes the saved level, and all other ACs are untouched. Dates are never read back |
| Ledger.ApplySavedLevelsToTaxonomy | src/pages/svg-test/page.js:43-52 | every AC of the taxonomy gets `Overlay(saved, code, old level)`, and no AC's dates change |
| Ledger.ApplySavedLevelsToNiveaux | src/pages/svg-test/page.js:45-51 | the same overlay for one competence's niveaux |
| Ledger.ApplySavedLevels | src/pages/svg-test/page.js:46-50 | the same overlay for one niveau's ACs |
| Ledger.LevelsJsonRoundTrip | src/pages/svg-test/page.js:76 | reading back the written levels object gives exactly the levels snapshot |
| Ledger.SavedLevelsRoundTrip | src/pages/svg-test/page.js:37-40 | what `saveData` stores under `SAE_levels` is what `init` reads back, whatever else storage holds |
| Ledger.ReloadRestoresLevels | src/pages/svg-test/page.js:43-52 | after save then reload, an AC whose code had a positive level gets that level back. Any other AC keeps its loaded level |
| Ledger.Page.FindACByCode | src/pages/svg-test/page.js:83-105 | returns nothing iff no AC has the code. Otherwise it returns the first AC in competence/niveau/position order, with its competence key and niveau index |
| Ledger.FindInNiveau | src/pages/svg-test/page.js:93-101 | the first index in a niveau holding the code, or none iff absent |
| Ledger.Page.HandleACClick | src/pages/svg-test/page.js:180-197 | if the clicked id's code is in the taxonomy, that first AC becomes the current selection. Otherwise the selection is unchanged |
| Ledger.Page.HandleAddLevel | src/pages/svg-test/page.js:203-215 | with no selection nothing changes. Otherwise the selected AC takes one `AddLevelStep`. If that step succeeds, both snapshots are rebuilt and stored; if not, neither the snapshots nor storage change |
| Ledger.Page.HandleRemoveLevel | src/pages/svg-test/page.js:217-229 | with no selection nothing changes. Otherwise the selected AC takes one `RemoveLevelStep`. If that step succeeds, both snapshots are rebuilt and stored; if not, neither the snapshots nor storage change |
| Codes.ConvertACCodeToSVGId | src/pages/svg-test/page.js:149-151 | removes only the first `.`; a string without one is unchanged |
| Codes.SvgIdToACCode | src/pages/svg-test/page.js:181 | an id of the form `ACdddd` becomes `ACdd.dd`; any other id passes through unchanged |
| Codes.CodeToIdRoundTrip | src/pages/svg-test/page.js:181 | for every `ACdd.dd` code, conversion to an id and back gives the code |
| Codes.IdToCodeRoundTrip | src/pages/svg-test/page.js:149-151 | for every `ACdddd` id, conversion to a code and back gives the id |
| Codes.CompetenceCode | src/pages/svg-test/page.js:156 | characters 2..4 of the code, with `substring`'s clamping on short strings |
| Codes.ClampLevel | src/pages/svg-test/page.js:157 | a missing level counts as 0, and the level is clamped into 0..5 |
| Codes.GetACColor | src/pages/svg-test/page.js:154-159 | always `var(--color-XX-L)`, with XX the competence digits and L the single clamped digit |
| Codes.ColorDistinguishesClampedLevels | src/pages/svg-test/page.js:157-158 | two levels give the same colour iff they clamp to the same level |
| Codes.GetVectorStrokeColor | src/pages/svg-test/page.js:162-168 | AC13 codes get white at levels 0 and 1 and black otherwise; every other code gets null |
| Codes.FindACIdFromTarget | src/pages/svg-test/page.js:390-408 | null iff no ancestor id matches `^AC\d{4}`. Otherwise the first match's `ACdddd` prefix, nearest the target first |
| Json.RoundTrip | src/pages/svg-test/page.js:76-77 | for the modelled JSON subset, parsing what is written gives back the same value |
| KeyOrder.Ascending | src/ui/dateHistory/index.js:30 | `for…in` over integer keys lists each key exactly once, in ascending order |
| DataManager.Envelope | src/data/dataManager.js:18-21 | the envelope's `userData` member is the parsed user data, and its `exportDate` member is the export time |
| DataManager.DatePart | src/data/dataManager.js:34 | the longest prefix without `T`, followed in the timestamp by `T` or by its end |
| DataManager.FileNameOfIso | src/data/dataManager.js:34-35 | for a timestamp `dateTtime`, the download name is `competences_` + date + `.json` |
| DataManager.ExportUserData | src/data/dataManager.js:8-47 | refuses iff the entry is absent, empty or `"{}"`. Throws iff it is present, not refused, and does not parse. Otherwise it exports the envelope of the parsed value, its JSON text and the date-named file |
| DataManager.ImportedUserData | src/data/dataManager.js:60-65 | a file is accepted exactly when it parses and its `userData` member is present and truthy. The accepted value is that member |
| DataManager.ImportUserData | src/data/dataManager.js:54-88 | succeeds iff the file was read, parses, and has a truthy `userData`. Then `SAE_userData` is replaced wholesale by that value's JSON, `exportDate` is ignored, and no other key changes. Otherwise the store is unchanged |
| DataManager.ResetUserData | src/data/dataManager.js:94-107 | returns the confirmation. If confirmed, exactly `SAE_userData` is removed; otherwise the store is unchanged |
| DataManager.ExportImportRoundTrip | src/data/dataManager.js:60-68 | importing an exported envelope succeeds iff the exported user data is truthy. It then stores text that parses to the same value export read |
| DataManager.NullUserDataDoesNotReimport | src/data/dataManager.js:63-65 | a stored `"null"` is exported, but the file it produces is rejected on import |
| DataManager.UserDataIsolatedFromLedger | src/data/dataManager.js:68 | writing or removing `SAE_userData` never changes what `M.init` reads from `SAE_levels` |
| History.ModeOf | src/ui/history/index.js:62 | only `"ac"` selects grouping by AC; every other mode sorts by date |
| History.CollectEvents | src/ui/history/index.js:36-51 | the nested loops push, entry by entry and level by ascending level, the event of every recorded date |
| History.EventsOfMembers | src/ui/history/index.js:41-49 | an entry's events are exactly the events of its recorded levels |
| History.CollectedMembers | src/ui/history/index.js:36-51 | an event is collected iff it is the event of a recorded (entry, level) pair, tagged with `ac.code`, the integer level and that date |
| History.CollectedCount | src/ui/history/index.js:36-51 | there are as many events as recorded dates across all entries |
| History.CollectedCodes | src/ui/history/index.js:38-43 | the codes among the events are exactly the codes of entries with at least one date |
| History.Before | src/ui/history/index.js:62-73 | no event comes strictly before itself. By date, and within one AC in `"ac"` mode, the more recent event comes first |
| History.NotAfter | src/ui/history/index.js:62-73 | every event may precede itself. By date, and within one AC, an event may precede another iff it is not older |
| History.NotAfterByAc | src/ui/history/index.js:64-69 | in `"ac"` mode, an event may precede another iff its code is smaller, or the code is equal and its date is not earlier |
| History.NotAfterTransitive | src/ui/history/index.js:62-73 | both comparators order consistently (transitive), so the sorted order is well defined |
| History.BeforeAsymmetric | src/ui/history/index.js:62-73 | neither comparator puts two events strictly before each other |
| History.Insert | src/ui/history/index.js:64-72 | one sorting step keeps the order and adds exactly the inserted event |
| History.SortEvents | src/ui/history/index.js:61-73 | the result is sorted by the mode's comparator and is a permutation of the events |
| History.SortedByAc | src/ui/history/index.js:62-69 | in `"ac"` mode, codes ascend, and within one code dates do not increase |
| History.LevelLabel | src/ui/history/index.js:76-83 | a label exists exactly for levels 0..5 |
| History.RenderEvents | src/ui/history/index.js:86-121 | the `forEach` emits, per event, a separator when a new code starts (never before the first) and then its item |
| History.RenderedItems | src/ui/history/index.js:100-121 | the items are one per event in sorted order, with the formatted date and time and `labels[level]` |
| History.NoSeparatorsByDate | src/ui/history/index.js:91 | date mode draws no separator |
| History.SeparatorsByAc | src/ui/history/index.js:86-98 | for events sorted by code, `"ac"` mode draws one separator fewer than there are distinct codes |
| History.SeparatorBetweenGroups | src/ui/history/index.js:88-97 | in `"ac"` mode a separator never ends the output and always stands between two items of different codes |
| History.AdjacentItemsShareCode | src/ui/history/index.js:88-97 | in `"ac"` mode two items with no separator between them have the same code, so every change of code is marked |
| History.CodesOfPermutation | src/ui/history/index.js:61-73 | sorting keeps the set of codes |
| History.GenerateHistoryContent | src/ui/history/index.js:32-124 | the output is the single empty-state element iff no date is recorded. Otherwise the output is exactly the `forEach` rendering (`Rendered`) of a sorted permutation of all collected events, with one item per recorded date. Date mode has non-increasing dates and no separators. `"ac"` mode has ascending codes, non-increasing dates within a code, and distinct codes − 1 separators |
| DateHistory.Html | src/ui/dateHistory/index.js:22-37 | builds exactly `DateHistoryHtml`: `""` without dates; otherwise the wrapper, the title, one line per level in ascending order, and `</div>` |
| DateHistory.Dom | src/ui/dateHistory/index.js:44-50 | the fragment is empty iff the AC has no dates. Otherwise it is built from the HTML |
| DateHistory.HtmlEmptyIff | src/ui/dateHistory/index.js:23-25 | the HTML is empty iff no date is recorded |
| DateHistory.HtmlShape | src/ui/dateHistory/index.js:27-35 | a non-empty history starts with the wrapper and title, and ends with `</div>` |
| DateHistory.ItemLinesCover | src/ui/dateHistory/index.js:30-33 | every recorded level has its `date-item` line, naming the level and its formatted date |
| DateHistory.ItemLinesSound | src/ui/dateHistory/index.js:30-33 | every line is the line of a recorded level with that level's formatted date |
| DateHistory.ItemLinesDistinct | src/ui/dateHistory/index.js:30-33 | no line is repeated, so each level is listed exactly once |
| DateHistory.DateItemsDistinct | src/ui/dateHistory/index.js:32 | distinct levels give distinct lines, whatever the formatted dates |

## Left out

- I/O is not modelled:
  - the `fetch` of the taxonomy in `M.init`, which comes in as a parameter;
  - `console` logging and `alert`;
  - the `V.*` rendering, drag handlers and animation;
  - the Blob/URL download link and `FileReader` (a failed read is `None`);
  - `window.confirm`, which is a boolean input.
- Clock, date parsing and locale formatting are parameters. This covers
  `new Date().toISOString()`, `new Date(iso)` as milliseconds, and
  `toLocaleDateString`/`toLocaleTimeString`. An invalid date, whose time is
  `NaN` and makes the comparator inconsistent, is outside the model.
- JSON: the model covers null, booleans, integers, strings, arrays and
  objects. Integers are exact here but doubles in the page. Outside the model:
  - fractional and exponent numbers;
  - `\u` escapes on reading;
  - the escaping of control characters on writing: `Stringify` escapes only
    `"` and `\`, and `Parse` accepts raw control characters inside strings.
  A stored entry outside this subset counts as unparsable here, where
  `JSON.parse` would accept it.
- DataManager.ExportUserData: `contents` is the compact serialisation, whereas
  `JSON.stringify(exportData, null, 2)` indents by two spaces.
- DataManager.ImportUserData / DataManager.ExportUserData: the text written is
  the parsed value's members in the order read, duplicates included.
  `JSON.parse` then `JSON.stringify` normalises objects:
  - integer-like keys move to the front in ascending order;
  - a repeated key keeps one member, with its last value.
  So `{"b":1,"1":2}` is stored here as read, where the page stores
  `{"1":2,"b":1}`. Likewise `{"a":1,"a":2}` is kept, where the page stores
  `{"a":2}`. Member lookup (`Assoc.Lookup`, where the last key wins) gives the
  same values in both, but the stored texts differ.
  Numbers differ too, because the page holds them as IEEE-754 doubles:
  - `JSON.parse` rounds integers above 2^53, so `9007199254740993` is stored
    by the page as `9007199254740992`, while the model keeps every digit;
  - `JSON.stringify` writes magnitudes of 1e21 and above in exponent form, so
    `1000000000000000000000` is stored by the page as `1e+21`.
- `importUserData`'s Promise is modelled as a boolean result: `resolve(true)`
  becomes true, and both `reject(false)` paths become false.
- Ledger.Page.Init: only numeric members of the saved levels object are
  overlaid. A non-numeric member (string, null, …) is ignored, where the page
  would assign it to `ac.level`. `JSON.parse` of a saved `"null"` makes
  `M.levels[code]` throw. Here it yields no saved levels.
- `M.dates` aliases each AC's `dates` object. The model copies the map into the
  snapshot, so later in-place changes to an AC do not show through a stale
  `M.dates`. `saveData` rebuilds it before every write anyway.
- `localStorage.setItem` never fails here: the quota exception is not modelled.
- History.SortEvents / History.GenerateHistoryContent: the sorted order is
  stated to be sorted and a permutation, but not stable.
  `Array.prototype.sort` keeps equal events (same date, same code in `"ac"`
  mode) in input order; the model does not state that order. So the order of
  such events in `GenerateHistoryContent`'s fragment is left open too.
- `localeCompare` is modelled as the code-point order on strings. The two agree
  on codes of the form `ACdd.dd`.
- `for…in` visits integer-like keys in ascending order. Negative levels, which
  the page never records, would be visited after them in insertion order; the
  model sorts them with the rest.
- `HistoryItemView.dom` is a thin wrapper over `genericRenderer`, which is not
  part of this model. An item is represented by the fields passed to it.
- `M.data` is taken as its competences in `for…in` order (`data: seq<Competence>`).
  `for…in` visits integer-like competence ids first, in ascending order, then the
  others in insertion order. The sequence is expected in that order.
  That order decides which AC `FindACByCode` finds first, and which AC wins
  in the snapshots when a code appears twice.
- `acIndex` is taken as its entries in key order. An entry with `dates` absent
  is an entry with no dates.
- `DateHistoryView.html` with `ac.dates` absent is the same as with no dates,
  because every AC in the model has a (possibly empty) `dates` map.
- The HTML fragment of `dom` is represented by the HTML it is built from.
  `htmlToDOM` is not part of this model.
