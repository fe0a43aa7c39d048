# Solar Aeration Energy Estimator: a verified model of its core

The estimator is a single-page Streamlit application (`estimatorMap.py`). A user
clicks a point on a map, picks an aerator (2-Panel or 4-Panel) and a panel
tilt, and presses *Calculate Energy Output*. The page fetches a typical-year
solar resource file for the point from the National Solar Radiation Database
into `solar_data/`. After each successful fetch it removes the oldest files
beyond 50 in that directory; a removal that fails is skipped. It then fills a PV system
model from the aerator's JSON template and shows the twelve monthly DC energy
values and their annual total.

This project models four parts of that page in Dafny and proves what they promise:

| module | file | what it models |
|---|---|---|
| `ResourceFileName` | `resource_file_name.dfy` | `extract_lat_lon`: finds `nsrdb_<lat>_<lon>_` in a resource file name and reads the two coordinates |
| `CacheEviction` | `cache_eviction.dfy` | the directory clean-up: over 50 files, the oldest ones are removed, and a removal that fails is skipped |
| `SimulationParameters` | `simulation_parameters.dfy` | choosing the template and pushing its entries, the tilt and the resource file into the engine |
| `SessionState` | `session_state.dfy` | the session keys and the handlers for map clicks, the widgets, the Calculate button, the processing pass and the displayed result |

`Wrappers` (`wrappers.dfy`) holds the `Option` type.

Modelling choices:

- **File names.** `re.search` is modelled as a left-to-right scan with a deterministic matcher (`MatchAt`). At a fixed index the pattern can match in only one way:
  - `\d+` is greedy and is always followed by a character that is not a digit;
  - dropping the optional `-` leaves `\d+` facing a `-`.

  A declarative predicate, `OccursAt`, states what a match is, and the scan is proved against it. The groups are kept as decimal literals, and `Value` gives their exact value.
- **The directory.** It is a class whose `entries` field lists paths with their modification times. `os.remove` failing for a path is an oracle, `removable`.
- **The engine.** The PySAM engine is a class that only records the inputs set on it.
- **The session.** It is a class with one field per `st.session_state` key the core uses. Points are stored as whole multiples of 0.0001 degree, which is what `round(x, 4)` leaves.
- **Collaborators.** These are parameters of `Session.Process` and `Session.ProcessCorrected`:
  - the resource fetcher, a function from the point to a file path, or to nothing when the fetch raises;
  - the directory as the fetch leaves it;
  - the removal oracle;
  - the parsed template files, by path;
  - the engine, a function from its inputs, and from whether the resource file they name is still in the directory when `execute` runs, to the monthly output, or to nothing when `execute` raises.

Two behaviours of the code that are easy to miss:

- **A failed run leaves `processing` set.** A fetch, a template read or a simulation that raises ends the script before line 224, so `processing` stays `True` and the next rerun of the page runs the processing block again. `Session.Process` ensures `processing == !outcome.Published?`.
- **`round(x, 4)` does not merge nearby points.** 0.00004 and 0.00006 differ by 0.00002 but round to 0 and 1 units of 0.0001. The model states what `round` does (`Round4`) and proves this case (`NearbyCoordinatesMayDiffer`).

## Model

| member | source | states |
|---|---|---|
| ResourceFileName.DigitsEndSound | estimatorMap.py:69 | the greedy `\d+` run covers only digits and stops at the first non-digit or at the end of the name |
| ResourceFileName.DecimalAtSound | estimatorMap.py:69 | what the group `-?\d+\.\d+` reads at an index is a well-formed literal (digits on both sides of the point) standing at that index and not followed by a digit |
| ResourceFileName.DecimalAtComplete | estimatorMap.py:69 | any well-formed literal standing at an index and not followed by a digit is exactly what the group reads there |
| ResourceFileName.MatchAt | estimatorMap.py:69 | the matcher at a fixed index; it has no ensures of its own, and `MatchAtSound`, `MatchAtComplete` and `MatchAtExact` below state what it returns |
| ResourceFileName.MatchAtSound | estimatorMap.py:69 | when the matcher succeeds at an index, the pattern occurs there with the groups it returns |
| ResourceFileName.MatchAtComplete | estimatorMap.py:69 | when the pattern occurs at an index with some groups, the matcher returns exactly those groups, so the groups at an index are unique |
| ResourceFileName.MatchAtExact | estimatorMap.py:69 | at a fixed index the matcher returns given groups if and only if the pattern occurs there with them |
| ResourceFileName.Search | estimatorMap.py:69 | `re.search` as a left-to-right scan; it has no ensures of its own, and `SearchSound` and `SearchComplete` below state what it returns |
| ResourceFileName.SearchSound | estimatorMap.py:69 | what `re.search` returns is the groups of an occurrence, and no occurrence starts before it |
| ResourceFileName.SearchComplete | estimatorMap.py:69 | when `re.search` finds nothing, the pattern occurs at no index of the name |
| ResourceFileName.ExtractLatLon | estimatorMap.py:68-72 | both coordinates are returned or neither is |
| ResourceFileName.ExtractLatLonSpec | estimatorMap.py:68-72 | coordinates are returned if and only if the pattern occurs somewhere in the name, and they are the values of the groups of its leftmost occurrence |
| ResourceFileName.NameRoundTrip | estimatorMap.py:68-72 | a name that starts with `nsrdb_<lat>_<lon>_` gives back exactly the values of `<lat>` and `<lon>`, whatever follows |
| ResourceFileName.ValueBounds | estimatorMap.py:71 | the value of a group lies between its integer part and the next integer of the same sign |
| CacheEviction.SortByMtime | estimatorMap.py:195 | `sorted(all_files, key=os.path.getmtime)` is ordered by modification time and is a permutation of the listing |
| CacheEviction.Insert | estimatorMap.py:195 | inserting into a sorted list keeps it sorted and adds exactly the one entry |
| CacheEviction.Selected | estimatorMap.py:193-196 | the selection holds `len - 50` files over a full directory and none otherwise |
| CacheEviction.SelectionSplit | estimatorMap.py:195-196 | the selected and unselected files together are the listing, 50 files are left unselected over a full directory, and no selected file is newer than an unselected one |
| CacheEviction.SelectedDistinct | estimatorMap.py:195-196 | the selection repeats no path and is drawn from the listing |
| CacheEviction.ResourceDir.Remove | estimatorMap.py:199-202 | `os.remove` succeeds exactly when the file is listed and removable; on success exactly that file is gone, otherwise nothing changes |
| CacheEviction.Evicted | estimatorMap.py:191-203 | the directory after the clean-up never has more files than before; `KeepMembers`, `UnselectedSurvive`, `WithinLimit`, `SelectedRemoved`, `EvictAllSucceed` and `EvictedAreKept` state which files it keeps |
| CacheEviction.ResourceDir.Evict | estimatorMap.py:191-203 | the directory becomes the listing minus the selected files whose removal succeeds; within the limit nothing changes; one report per selected file, in order; paths stay distinct |
| CacheEviction.AttemptsAt | estimatorMap.py:197-202 | the k-th report is for the k-th selected file, and says whether its removal succeeded |
| CacheEviction.KeepMembers | estimatorMap.py:197-202 | a file survives the clean-up if and only if it was listed and its path was not removed |
| CacheEviction.UnselectedSurvive | estimatorMap.py:193-202 | a file the selection does not name is never removed |
| CacheEviction.EvictAllSucceed | estimatorMap.py:191-203 | when every removal succeeds, a full directory is left with exactly 50 files, each at least as new as every removed file |
| CacheEviction.EvictedAreKept | estimatorMap.py:191-203 | when every removal succeeds, the files left are among the newest 50 |
| CacheEviction.KeepCount | estimatorMap.py:197-202 | removing k listed paths from a listing with distinct paths leaves exactly k fewer files |
| CacheEviction.DistinctCount | estimatorMap.py:192 | a listing has distinct paths if and only if it has as many paths as entries |
| CacheEviction.WithinLimit | estimatorMap.py:193 | a directory of at most 50 files is left as it is |
| CacheEviction.SelectedRemoved | estimatorMap.py:195-200 | a selected file whose removal succeeds is gone afterwards, whatever it is in use for |
| CacheEviction.SparingKeepsInUse | estimatorMap.py:195-202 | a clean-up that skips one file in use leaves it in the directory and otherwise removes exactly the files the plain clean-up removes |
| SimulationParameters.TemplatePath | estimatorMap.py:209 | "2-Panel" reads the 2-panel template and every other aerator the 4-panel one |
| SimulationParameters.Inputs | estimatorMap.py:213-219 | the engine holds every template entry except `number_inputs` unchanged, and the tilt and the resource file set over the template's values |
| SimulationParameters.PvModel.constructor | estimatorMap.py:206 | a new engine has no inputs set |
| SimulationParameters.PvModel.SetValue | estimatorMap.py:215 | setting an input changes only that input |
| SimulationParameters.Configure | estimatorMap.py:206-219 | the loop over the template leaves the engine holding exactly `Inputs(template, tilt, file)` |
| SessionState.Round4 | estimatorMap.py:121-122 | `round(x, 4)` is within half a unit of 0.0001 of x, and a tie goes to the even unit |
| SessionState.Round4Unique | estimatorMap.py:121-122 | no other whole number of units has those two properties |
| SessionState.Round4OnGrid | estimatorMap.py:121-122 | a coordinate that already has 4 decimals rounds to itself |
| SessionState.NearbyCoordinatesMayDiffer | estimatorMap.py:121-122 | 0.00004 and 0.00006 round to different units, so points closer than 0.00005 are not always stored as the same point |
| SessionState.Session.constructor | estimatorMap.py:29-59 | a new session has no point, no clicks, no result, is not processing, and has aerator "2-Panel" and tilt 15 |
| SessionState.Session.HandleMapData | estimatorMap.py:114-133 | a new map click is stored, selects its rounded point and reruns; otherwise a new marker click does the same; otherwise nothing changes; the same map data a second time is not a new map click; the calculated fields and the result are untouched |
| SessionState.Session.SelectAerator | estimatorMap.py:138-144 | the selected aerator becomes the one chosen |
| SessionState.Session.SetTilt | estimatorMap.py:147-148 | the tilt becomes the value entered, which lies in [0, 90] |
| SessionState.Session.PressCalculate | estimatorMap.py:155-163 | with no point selected it reports the error and changes nothing; otherwise it starts processing and records the aerator, tilt and point used |
| SessionState.RunResult | estimatorMap.py:166-224 | the outcome of a pass is never idle, and it is a failed fetch exactly when the fetch raises; `Session.RunPass`, `PrunedResourceFile` and `SparedResourceFile` state the rest |
| SessionState.SimulationOutcome | estimatorMap.py:191-222 | after a fetch the outcome is a published result, a failed template read or a failed simulation, and a failed template read exactly when the aerator's template file is missing; `Session.Simulate` is proved to give it |
| SessionState.Session.RunPass | estimatorMap.py:166-224 | one pass for a given point: the result is cleared and the outcome is the one the fetch for that point, the template of the calculated aerator and the engine give, in that order, the engine being told whether the fetched file survived the clean-up; the directory is cleaned up exactly when the fetch succeeded; a result is published and processing cleared only on success |
| SessionState.Session.Simulate | estimatorMap.py:191-224 | after a successful fetch: the directory is cleaned up, then the template, the inputs and the engine give the outcome; a result is published and processing cleared only on success |
| SessionState.Session.Process | estimatorMap.py:166-224 | when not processing nothing happens; otherwise the pass runs with the fetch for the live selection (line 179) and the plain clean-up, with the outcome, directory and result that `RunPass` states |
| SessionState.Session.ProcessCorrected | estimatorMap.py:161-224 | as `Process`, with the fetch for the point Calculate was pressed for and a clean-up that leaves the fetched file in place; a fetched file that was in the directory is still there for the engine; after a published result, the result shown for the calculated point is the total of exactly the months fetched and computed for that point |
| SessionState.Session.ShownResult | estimatorMap.py:227-232 | a result is shown exactly when one is stored; the total is the sum of the months, the point shown is the current selection, and the aerator and tilt are those Calculate was pressed with |
| SessionState.Session.ShownResultForCalculatedPoint | estimatorMap.py:227-232 | as above, with the point Calculate was pressed for |
| SessionState.Sum | estimatorMap.py:228 | `sum` of the months; it has no ensures of its own, and `SumLeftToRight` and `SumConstant` state its properties |
| SessionState.SumLeftToRight | estimatorMap.py:228 | the total equals the one reached by adding the months from the first to the last, the order in which `sum` adds them |
| SessionState.SumConstant | estimatorMap.py:228 | n months of c each total n times c |
| SessionState.CalculateAtLexington | estimatorMap.py:114-163 | a click at (38.0367, -84.5078) with the default aerator and tilt, then Calculate, selects and snapshots the point (380367, -845078) and starts processing |
| SessionState.RunAtLexington | estimatorMap.py:114-224 | a click at (38.0367, -84.5078), Calculate and one successful pass, whose fetch writes the resource file into an otherwise empty directory, publish the engine's months for the point (380367, -845078) and clear processing |
| SessionState.LexingtonPass | estimatorMap.py:166-224 | over a directory holding only the fetched Lexington file, the pass publishes the engine's twelve months |
| SessionState.PrunedResourceFile | estimatorMap.py:191-220 | a fetched file among the files the clean-up selects, whose removal succeeds, is gone when the engine runs, and an engine that raises on a missing file fails the pass |
| SessionState.SparedResourceFile | estimatorMap.py:191-220 | with the fetched file spared by the clean-up, the file is still there and the same pass publishes |
| SessionState.LexingtonReport | estimatorMap.py:226-232 | twelve months of 100 kWh show a total of 1200 kWh at Lexington for a 2-Panel aerator at 15 degrees |
| SessionState.CaptionDrift | estimatorMap.py:232 | after the Lexington result is shown, a click at (40, -80) changes the point shown next to it, while the result and the point it was calculated for stay Lexington's |
| SessionState.FailedThenMoved | estimatorMap.py:114-224 | after Calculate at Lexington, a pass whose fetch raises and a click at (40, -80), processing is still set with Lexington as the calculated point |
| SessionState.RetryAfterClick | estimatorMap.py:179 | the next rerun then publishes a result fetched for (40, -80) without Calculate being pressed again, while the calculated point stays Lexington |
| SessionState.RetryAfterClickCorrected | estimatorMap.py:179 | with the corrected pass the same rerun retries Lexington |

## Left out

- Floating point: coordinates and energies are exact reals. `float(group)` rounding a literal to the nearest double, and `round` acting on that double, are not modelled.
- `\d` in Python matches every Unicode decimal digit. The model accepts only `0`-`9`.
- The green markers for files already in the directory (lines 74-99) and the map itself are user interface. Only the parsing of file names is modelled.
- The fetch: `FetchResourceFiles`, its network access and the API key and e-mail from `st.secrets` are outside this model. Its outcome is a parameter of `Session.Process`.
- What the simulation engine computes: `pv_model.execute()` and `monthly_dc` are a parameter of `Session.Process`. What `execute()` does with a resource file that is missing is part of that parameter.
- The JSON parsing of the template files: they are given already parsed, by path. A missing or unreadable file is a missing entry.
- The order in which `json.load` yields the template's keys: the assembly loop picks keys in any order, and the resulting inputs do not depend on it.
- CacheEviction.Entry: `mtime` is a whole number standing for the float `os.path.getmtime` returns; only the order of the times matters to the clean-up.
- `glob("*")` lists every file in the directory, not only resource files; the model's listing is likewise any set of paths.
- CacheEviction.SortByMtime: Python's `sorted` is stable, and the insertion sort keeps equal modification times in listing order, but stability is not stated as a property.
- `glob` listing directories and the modification time changing between listing and sorting are not modelled. A listing is a fixed sequence of distinct paths with their times.
- The status boxes (lines 170, 188, 191, 203, 205, 223), the `print` calls (lines 186-187, 200, 202), the headers (229, 231) and the bar chart (lines 235-248) only display things. The base file name at line 185 is only printed.
- The `map_center`, `zoom`, `markers` and `selected_marker` keys of the session only drive the map display.
- The check at line 151 that the selected longitude is truthy only decides whether a hint is shown.
- Session.HandleMapData: `st.rerun()` ends the script run. The model returns `rerun == true` instead, and the caller decides not to go on.

## Findings

| source | as written | input that shows it | evidently intended | confidence | as-written member | corrected member |
|---|---|---|---|---|---|---|
| estimatorMap.py:232 | the point printed next to the result is `selected_location`, the live map selection | a result is published for a click at (38.0367, -84.5078); the user then clicks (40, -80); the page now says the result is "at latitude 40.0, longitude -80.0" while the chart still shows Lexington's months | print `calculated_location`, which line 163 stores in the block that line 160's comment says keeps the request's values "for later display", and which nothing else reads | not executed | SessionState.CaptionDrift | SessionState.Session.ShownResultForCalculatedPoint |
| estimatorMap.py:179 | the pass fetches the resource file for `selected_location`, the live map selection, while the aerator and tilt come from the values stored when Calculate was pressed | Calculate at (38.0367, -84.5078); the fetch raises, so `processing` stays set; the user clicks (40, -80); the next rerun fetches for (40, -80) and publishes its months, without Calculate being pressed again, next to the aerator and tilt of the Lexington request | fetch for `calculated_location`, the point Calculate was pressed for | not executed | SessionState.RetryAfterClick | SessionState.Session.ProcessCorrected |
| estimatorMap.py:191-220 | the clean-up runs after the fetch and may remove the resource file the pass then gives to `execute()`; a file the fetch reuses keeps its old modification time (line 65 relies on that reuse) | a directory of 51 files in which the file already downloaded for the selected point is the oldest; the fetch reuses it, the clean-up removes it at line 199, and line 219 hands the removed path to the engine | the clean-up never removes the file the pass is about to simulate on | not executed | SessionState.PrunedResourceFile | SessionState.SparedResourceFile |
