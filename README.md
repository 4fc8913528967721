# Weather CLI favourites and response handling, in Dafny

A model of the logic in `weather_cli.py`, an interactive client for the OpenWeather
current-weather API. It covers two things.

- **Response handling in `get_weather`.** The HTTP status is classified first: 404 means
  the city was not found, and any other status except 200 is an API-status error. Then the
  simplified weather record is built from the decoded JSON body. Optional keys get
  defaults: the city name is the requested one, the country is `""`, the description is
  `"N/A"` and the wind speed is `0.0`. A missing `main`, `main.temp`, `main.feels_like` or
  `main.humidity` is an error. So is a first `weather` entry without a `description`.
- **The favourites list.** It holds at most 3 city names and lives in memory. It is changed
  in place by the add flow and the update flow. The update flow removes an entry first and
  then runs the add step. It never undoes the removal.

Modules, one per component of the script:

- `Wrappers` (`wrappers.dfy`): `Option` and `Result`.
- `Text` (`text.dfy`): Python's `str.strip()` and `prompt_city_name`.
- `Weather` (`weather.dfy`): the response datatypes, `Normalize` and `GetWeather`.
- `Favourites` (`favourites.dfy`): the spec functions `AddFlow`, `UpdateFlow` and `AdmitStep`,
  the class `FavouriteList`, and lemmas about them.
- `Menu` (`menu.dfy`): the dispatch of `main` and its loop.

The outside world comes in as parameters:

- A typed line is a `string`.
- The parsed removal number is an `Option<int>`; `None` is a `ValueError` from `int()`.
- What the HTTP request for a city brought back is a `Fetch`. It is either a network
  failure or a reply with its status, raw text and decoded body.

`GetWeather(city, fetch)` is what a flow's call of `get_weather(city)` returns. So the
canonical name appended to the list is the reply's `name`, or the typed name when the reply
has none.

The class `FavouriteList` holds the list as a `seq<string>` field. Its methods `Add`, `Update`
and `Admit` are imperative, like the flows. Each one ensures that its outcome and the new
list equal the spec function of the old list. The properties are proved about those
functions.

Two properties that one might expect of this program do not hold of its code.
The model follows the code in both cases.

- **Canonical names can repeat.** The duplicate check compares the name the user typed
  (weather_cli.py:149, weather_cli.py:212). The name appended is the one the API returns
  (weather_cli.py:160, weather_cli.py:222). `Favourites.CanonicalNamesMayRepeat` shows a run
  that ends with `["London", "London"]`. `Favourites.AddKeepsDistinctWhenEchoed` proves that
  the list stays free of repeats when the API echoes the typed name;
  `Favourites.UpdateKeepsDistinctWhenEchoed` proves the same of the update flow.
- **The description can be empty.** It is passed through as sent. `"N/A"` replaces it only
  when the `weather` list is empty or absent (weather_cli.py:79-80).
  `Weather.EmptyDescriptionKept` proves that a description sent as `""` stays `""`.

## Model

| member | source | states |
|---|---|---|
| `Text.SkipForward` | weather_cli.py:117 | the first index at or after `i` that is not white space: everything before it from `i` is white space, and it is the end or holds a non-space |
| `Text.SkipBackward` | weather_cli.py:117 | the least index down to `lo` such that only white space follows it up to `j`, and the character before it is not white space (or it is `lo`) |
| `Text.Strip` | weather_cli.py:117 | `strip()` yields a string with no white space at either end, of at most the input's length, and it is empty exactly when the input is all white space |
| `Text.StripFrame` | weather_cli.py:117 | every input is white space, then its stripped form, then white space |
| `Text.StripPadded` | weather_cli.py:117 | white space around a core with no white space at its ends is all that `strip()` removes, so the frame is unique |
| `Text.StripIdempotent` | weather_cli.py:117 | stripping twice is stripping once |
| `Text.PromptCityName` | weather_cli.py:115-118 | no city exactly when the typed line is all white space; otherwise the stripped line, which is non-empty and has no white space at its ends |
| `Weather.Simplify` | weather_cli.py:79-92 | the record of a complete body: `temp`, `feels_like` and `humidity` passed through; the city is `name` or else the requested name; the country is `sys.country` or else `""`; the description is the first entry's or else `"N/A"` for an empty list; the wind speed is `wind.speed` or else `0.0` |
| `Weather.Normalize` | weather_cli.py:68-96 | 404 gives city-not-found with the requested name; another non-200 status gives an API-status error with status and text; a 200 reply succeeds exactly when every required key is present, and then passes `temp`, `feels_like` and `humidity` through and takes `name`, `country`, the first description and the wind speed from the body when they are present; otherwise the error names a missing key, and every key read before it is present |
| `Weather.GetWeather` | weather_cli.py:63-96 | a network failure is reported as a network error with its cause; a reply gives what `Normalize` gives for its status, text and body, so the order is network, 404, other non-200, missing key, record; success needs a reply with status 200 |
| `Weather.Encode` | weather_cli.py:84-92 | a body that carries every field of a record has every required key |
| `Weather.NormalizeEncode` | weather_cli.py:77-96 | normalising a full 200 reply built from any record gives back exactly that record |
| `Weather.StatusBeforeBody` | weather_cli.py:68-73 | for a non-200 status the result is an error and does not depend on the body |
| `Weather.EmptyDescriptionKept` | weather_cli.py:79-80 | a complete 200 body whose `weather` list is one entry with description `""` gives description `""`, not `"N/A"` |
| `Weather.NormalizeDefaults` | weather_cli.py:79-91 | for a complete body: without `name` the city is the requested name; without `sys` or `sys.country` the country is `""`; with an empty or absent `weather` list the description is `"N/A"`; without `wind` or `wind.speed` the wind speed is `0.0` |
| `Favourites.RemoveAt` | weather_cli.py:203 | `pop(i)` leaves one entry fewer: the entries before `i` are unchanged, the ones after move down by one, and the removed entry is the only one missing from the multiset |
| `Favourites.AdmitStep` | weather_cli.py:144-160 | the add step cancels on an all-white-space line, reports a typed name already present, reports a failed lookup with its error, and in each of these cases leaves the list unchanged; it adds exactly when the stripped name is new and the lookup succeeds, and then appends the lookup's canonical city name at the end |
| `Favourites.AddFlow` | weather_cli.py:137-161 | with 3 or more entries: reports full and changes nothing; otherwise the add step; the list changes exactly when a city is added, by appending it, and an added list has at most 3 entries |
| `Favourites.UpdateFlow` | weather_cli.py:181-223 | an empty list, a non-numeric choice or a choice outside 1..len each change nothing and are reported; a valid choice removes entry `choice-1`, reports it, and runs the add step on what remains |
| `Favourites.FavouriteList.constructor` | weather_cli.py:239 | the list starts empty |
| `Favourites.FavouriteList.Admit` | weather_cli.py:144-160 | the in-place add step, used by `Add` (these lines) and by `Update` for weather_cli.py:207-223: its outcome and the new list are `AdmitStep` of the old list |
| `Favourites.FavouriteList.Add` | weather_cli.py:137-161 | `add_favourite_flow` in place: its outcome and the new list are `AddFlow` of the old list |
| `Favourites.FavouriteList.Update` | weather_cli.py:181-223 | `update_favourites_flow` in place, removal first and then the add step: its outcome and new list are `UpdateFlow` of the old list |
| `Favourites.UpdateNoRollback` | weather_cli.py:203-223 | after a valid removal, a cancelled, duplicate or failed replacement leaves the list one shorter, with the removal kept; a successful one keeps the length, puts the canonical name last and the remaining entries in order before it |
| `Favourites.FlowsKeepCapacity` | weather_cli.py:137-223 | from a list of at most 3, the add flow (weather_cli.py:139-160) leaves at most 3, and the update flow (weather_cli.py:199-223) never lengthens the list |
| `Favourites.AddKeepsDistinctWhenEchoed` | weather_cli.py:149-160 | a list without repeats keeps none after an add whose canonical name is the typed one |
| `Favourites.RemoveAtKeepsDistinct` | weather_cli.py:203 | removing one entry from a list without repeats leaves a list without repeats |
| `Favourites.UpdateKeepsDistinctWhenEchoed` | weather_cli.py:203-223 | a list without repeats keeps none after an update whose replacement, if added, is the typed name |
| `Favourites.CanonicalNamesMayRepeat` | weather_cli.py:149-160 | typing `london` with `["London"]` stored, when the API answers `London`, gives `["London", "London"]` |
| `Favourites.AddWhenFullExample` | weather_cli.py:139-142 | adding to `["Paris", "Tokyo", "Lagos"]` reports full and leaves exactly that list |
| `Favourites.AddUnknownCityExample` | weather_cli.py:154-158 | a 404 for `Nowhere123` is reported as city-not-found naming `Nowhere123`, and the list is unchanged |
| `Favourites.UpdateExample` | weather_cli.py:199-223 | replacing entry 1 of `["Paris", "Tokyo"]` by a confirmed `Berlin` gives `["Tokyo", "Berlin"]` and reports removing `Paris` |
| `Favourites.UpdateMayRestoreRemoved` | weather_cli.py:203-214 | the duplicate check runs after the removal, so retyping the removed name (present only once) is never reported as a duplicate |
| `Menu.Dispatch` | weather_cli.py:247-262 | the stripped choice `1` searches, `2` adds, `3` lists, `4` updates and `5` exits, each exactly; anything outside `1`-`5` is unrecognised |
| `Menu.StepFavourites` | weather_cli.py:250-262 | one pass of the dispatch: search, list, exit and an unrecognised choice leave the favourites unchanged; an add leaves them unchanged or appends one entry; an update never lengthens them |
| `Menu.Session` | weather_cli.py:245-262 | the loop, stopping at the first exit choice: a script whose turns never choose add or update leaves the favourites unchanged |
| `Menu.SessionStopsAtExit` | weather_cli.py:258-260 | turns after the first exit choice have no effect: the result equals that of the script cut at the exit |
| `Menu.SessionKeepsCapacity` | weather_cli.py:245-262 | for any sequence of menu turns, a list of at most 3 favourites stays at most 3 |
| `Menu.Run` | weather_cli.py:237-262 | the loop starts with no favourites and ends with the favourites `Session` gives, never more than 3; it reports an exit exactly when some turn chose exit |

## Left out

- Reading the API key from the environment (weather_cli.py:30-37, 55): this is operating-system I/O. The model assumes a key is set.
- The HTTP request, its parameters and its 5-second timeout (weather_cli.py:57-66), and `resp.json()` (weather_cli.py:75): these are network calls into the `requests` library. Their outcome is the `Fetch` parameter. A body that is not JSON would raise out of `get_weather` uncaught; that path is not modelled.
- JSON values of the wrong type: for example a `null` `main` (a `TypeError`, caught) or a `null` `wind` (an `AttributeError`, not caught). The body model only has keys that are present or absent, with values of the expected types.
- The text of error messages, `print_weather`, `print_menu` and every `print` and `input`: these are console output. What the search and list flows (weather_cli.py:121-134, 164-178) show is not modelled. They do not change the favourites, and the menu model treats them so.
- Python's `int()` parsing of the removal number (weather_cli.py:193-194): it is the `Option<int>` input.
- `.title()` on the description and the printed form of numbers (weather_cli.py:107-111): these are display behaviour. Temperatures, humidity and wind speed are passed through as `real` and `int` values, with no arithmetic.
- Menu.Run: the script of turns is finite, and the loop stops when it runs out. An exhausted console would make `input()` raise `EOFError`; that is not modelled.
- Menu.Run: each turn carries every answer a flow might ask for, and a flow ignores the ones it does not use. For example, the add flow with a full list never reads the city line.
