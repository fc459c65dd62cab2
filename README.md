# Mapty workout log: a verified model of its core

Mapty lets a user log running and cycling workouts at points on a map. It
lists them, shows them as map markers and keeps them in the browser's
storage. `script.js` holds all of its logic. This project models the part
of it that has real rules, in Dafny:

- **The workout records** (`Workout`, `Running`, `Cycling`). A record keeps
  its derived metric: pace in min/km for running, speed in km/h for cycling.
  It also keeps a description such as "🏃‍♂️ Running on April 14". Both are
  fixed when the record is built. In the model a workout is one datatype:
  the shared fields plus a `RunningMetrics(cadence, pace)` or
  `CyclingMetrics(elevation, speed)` payload (module `Workouts`).
- **Submission validation and construction** (`_newWorkout` up to `new
  Running` / `new Cycling`), in module `Factory`. A running submission needs
  distance, duration and cadence to be finite and positive. A cycling
  submission needs distance and duration to be finite and positive, but
  elevation only has to be finite.
- **The collection and its lifecycle** (`App`): the ordered array
  `#workouts`, and the form mode `#mapEvent`, which is a plain map click
  (create) or an edit request that names its target. The other state is
  the visibility of the "clear all" button and the copy written to
  storage. Lookup, removal and the stored copy are functions on sequences
  (module `Collection`). `App` is a class whose methods change its fields
  as the handlers do (module `Lifecycle`).

Numbers are `real`s wrapped in `Num = Finite(real) | NaN | PosInfinity |
NegInfinity`, so that `Number.isFinite` and `x > 0` can be written down. A
text id from a list item goes through unary plus before it is compared with
a stored id (`Numbers.ToNumber`). The model proves that an id's rendered
text converts back to that id.

Some handlers throw when they run into `undefined`. This happens when the
id of an edit or delete matches nothing, and when the form is submitted
before any map click. Such a handler stops at that point, so the model
returns an outcome instead: `None` from `DeleteWorkout` and `EditWorkout`,
`Aborted` from `NewWorkout`. Nothing changes in those cases. There is one
exception. If the entry being edited is deleted while its form is open,
submitting the form still pushes and stores the new workout, and only then
does the delete step throw. The model gives `TargetMissing` for this case:
the collection keeps both the earlier entries and the new one.

The code differs from what a reader might expect in four ways, and the
model follows the code:
- A rejected submission gets one generic error, `InvalidInputData`. No
  message says which constraint failed.
- Adding a workout does not check for a duplicate id. The model asks the
  caller (the clock) for an id that is not in use.
- `#mapEvent` is never cleared after a submission.
- A failed lookup throws; it is not logged.

## Model

| member | source | states |
|---|---|---|
| `Decimal.Render` | script.js:21 | How `${n}` renders an integer: a non-empty run of digits with no leading zero |
| `Decimal.ValueOfRender` | script.js:216-218 | Reading a rendered number back gives the same number |
| `Decimal.RenderInjective` | script.js:216-218 | Two different ids never render to the same `data-id` text |
| `Numbers.IsFinite` | script.js:147 | `Number.isFinite` holds for a finite value and for none of NaN, +Infinity and -Infinity |
| `Numbers.IsPositive` | script.js:149 | `x > 0` is false for NaN and -Infinity, true for +Infinity, and for a finite value it is exactly `value > 0` |
| `Numbers.ToNumber` | script.js:306 | Unary plus on a text gives a finite number exactly when the text is a run of digits (the empty text gives 0) |
| `Numbers.ToNumberOfRender` | script.js:306 | The text id of a list item converts back to the numeric id it was rendered from, with nothing lost |
| `Workouts.Pace` | script.js:32-35 | Pace times distance equals duration, and pace is positive when duration is |
| `Workouts.Speed` | script.js:44-46 | Speed times duration (in minutes) equals 60 times distance, and speed is positive when distance is |
| `Workouts.PaceDetermined` | script.js:34 | Any pace that satisfies the pace law is the pace `_calcPace` computes |
| `Workouts.SpeedDetermined` | script.js:45 | Any speed that satisfies the speed law is the speed `_calcSpeed` computes |
| `Workouts.UpperCase` | script.js:19 | `toUpperCase` on the lower-case ASCII letters: each maps to the matching capital. Other characters are left alone, which is enough because line 19 only applies it to 'r' and 'c' |
| `Workouts.ReplaceFirst` | script.js:19 | `replace` with a one-character pattern keeps the length, and changes nothing when the character is absent |
| `Workouts.ReplaceFirstAt` | script.js:19 | `replace` turns the first occurrence of the pattern into the replacement and keeps every other character |
| `Workouts.Title` | script.js:19 | Upper-casing the type's first letter this way gives "Running" or "Cycling" |
| `Workouts.Header` | script.js:17-19 | The emoji, the capitalised type and " on " always make up 16 Unicode code points (17 UTF-16 units in JavaScript's `.length`, since each emoji starts with a surrogate pair) |
| `Workouts.MonthIndexOfName` | script.js:15 | The twelve month names are distinct, so looking up `months[m]` by name gives back `m` |
| `Workouts.Description` | script.js:13-22 | `_setDescription`: the description starts with the type's header, and `ParseDescriptionOfDescription` and `DescriptionInjective` show it records the type, month and day |
| `Workouts.ParseDescriptionOfDescription` | script.js:13-22 | A description is the emoji and capitalised type, " on ", `months[month]` and the day; reading it back recovers the type, the month and the day |
| `Workouts.DescriptionInjective` | script.js:13-22 | Different type, month or day always gives a different description |
| `Workouts.WellFormedWithMarker` | script.js:126-127 | Attaching a marker handle to a record leaves every other field, and so its invariants, intact |
| `Workouts.NewRunning` | script.js:25-36 | The running constructor keeps id, coordinates, date, distance, duration and cadence, sets pace so that pace × distance = duration, has no marker yet, and gives a well-formed record when its inputs are positive |
| `Workouts.NewCycling` | script.js:38-47 | The cycling constructor keeps its inputs, sets speed so that speed × duration = 60 × distance, and gives a well-formed record when distance is positive |
| `Factory.AllFinite` | script.js:146-147 | `_validateUserData` holds exactly when every input is finite |
| `Factory.AllPositive` | script.js:149 | `_allPositive` holds exactly when every input is greater than 0 |
| `Factory.Accepts` | script.js:160-179 | The guards of both branches: an accepted submission always has finite, positive distance and duration; `AcceptsRunning` and `AcceptsCycling` give the exact conditions |
| `Factory.AcceptsRunning` | script.js:160-167 | A running submission passes the guard exactly when distance, duration and cadence are all finite and strictly positive |
| `Factory.AcceptsCycling` | script.js:172-179 | A cycling submission passes the guard exactly when distance and duration are finite and strictly positive and elevation is finite, whatever its sign |
| `Factory.NonPositiveElevationAccepted` | script.js:175-178 | A cycling submission with zero or negative elevation is accepted |
| `Factory.Build` | script.js:159-183 | A submission gives a workout exactly when it passes its type's guard. That workout is well formed, has the submitted type, id, coordinates, date and numbers, and has no marker. A rejected submission produces nothing |
| `Factory.RunningScenario` | script.js:170 | Running 5 km in 25 minutes is accepted and gives a pace of 5 |
| `Factory.CyclingScenario` | script.js:182 | Cycling 20 km in 60 minutes is accepted and gives a speed of 20 |
| `Collection.ConsistentAppend` | script.js:192 | Pushing a well-formed record with a marker and a new id keeps ids unique and every record well formed |
| `Collection.ConsistentRemoveAt` | script.js:366 | Splicing out one entry keeps ids unique and every record well formed |
| `Collection.Matches` | script.js:306 | `workout.id === +text` holds exactly when the text is a run of digits whose value is the id |
| `Collection.ItemId` | script.js:216-218 | The `data-id` text of a list item is a run of digits that matches the workout it was rendered from |
| `Collection.IndexOf` | script.js:365 | `indexOf` gives the first position of the entry, or -1 exactly when it is absent. JavaScript compares objects by identity and the model compares values; in its one use they agree, because the entry is what `find` returned, the first entry with that id |
| `Collection.RemoveAt` | script.js:366 | `splice(index, 1)` shortens the array by one, keeps the entries before `index` and shifts the later ones down by one |
| `Collection.Find` | script.js:304-308 | `find` gives nothing exactly when no id matches the converted text. Otherwise it gives a matching entry of the array, and no earlier entry matches |
| `Collection.Delete` | script.js:357-366 | Deleting by text id fails exactly when nothing matches, and otherwise shortens the array by one |
| `Collection.Without` | script.js:366 | The entries with another id, in order: an entry is kept exactly when it was there and its id differs |
| `Collection.DeleteIsWithout` | script.js:359-366 | With unique ids, deleting by a matching text id leaves exactly the entries with another id, in their old order |
| `Collection.FindOnlyMatch` | script.js:305-307 | With unique ids, `find` returns the one entry that matches |
| `Collection.FindItemId` | script.js:304-308 | Selecting by the text id a list item carries finds exactly the entry it was rendered from |
| `Collection.FindAppend` | script.js:192 | Pushing an entry whose id does not match leaves every lookup as it was |
| `Collection.WithoutAppend` | script.js:192 | Removing an id after a push of another id is the same as removing it before the push |
| `Collection.StripMarker` | script.js:279-281 | A stored copy has no marker and equals the original in every other field |
| `Collection.Snapshot` | script.js:278-282 | The stored copy has the same length and order as the array. Every element has no marker and keeps every other field |
| `Collection.SnapshotIdempotent` | script.js:278-282 | Copying a stored copy again changes nothing |
| `Collection.SnapshotAppend` | script.js:192-201 | The stored copy after a push is the old copy with the new entry's copy at the end |
| `Collection.SnapshotIds` | script.js:278-282 | The stored copy has the same ids, and they stay unique |
| `Lifecycle.AfterAccept` | script.js:192-205 | After an accepted submission the array is the old one plus the new workout; in edit mode it is one shorter again exactly when the lookup of the target succeeds |
| `Lifecycle.Prefill` | script.js:338-351 | The prefilled form has the target's type, distance, duration and type-specific value; the other field, emptied by `_showForm`, reads as 0 |
| `Lifecycle.PrefillAccepted` | script.js:338-351 | The prefilled form of every well-formed workout passes its type's guard |
| `Lifecycle.EditReplaces` | script.js:192-205 | A valid edit of an entry that is present appends first and then deletes the target. The result has the same size and no entry with the old id, the other entries keep their order, and the new workout comes last |
| `Lifecycle.EditWithoutTargetAppends` | script.js:204-205 | A valid edit whose target has gone only appends the new workout |
| `Lifecycle.PrefillRebuilds` | script.js:338-351 | Submitting the prefilled edit form unchanged is accepted, and rebuilds the same workout under the new id and date |
| `Lifecycle.App.constructor` | script.js:59-64 | A new application has no workouts, no map event, a hidden "clear all" button and nothing stored |
| `Lifecycle.App.ShowForm` | script.js:111-112 | The event becomes the form mode, and nothing else changes |
| `Lifecycle.App.StoreWorkouts` | script.js:277-285 | The storage entry becomes the marker-free copy of the array |
| `Lifecycle.App.PushWorkout` | script.js:189-201 | The workout is appended at the end, the earlier entries are untouched, the button is shown and the new array is stored |
| `Lifecycle.App.DeleteWorkout` | script.js:357-376 | If nothing matches, nothing changes. Otherwise the matching entry is spliced out, its marker is handed back for removal, the array is stored, and the button hides exactly when the array becomes empty |
| `Lifecycle.App.EditWorkout` | script.js:327-352 | If nothing matches, nothing changes. Otherwise the mode becomes an edit request that reuses the target's coordinates, and the form is prefilled from the target |
| `Lifecycle.App.MoveToMarker` | script.js:262-275 | The view centres on the last entry whose id matches, and on nothing when none does. With unique ids this is the entry `find` gives |
| `Lifecycle.App.NewWorkout` | script.js:142-206 | With no map event the handler changes nothing. A rejected submission changes nothing either. An accepted one appends the new workout, with its marker and the event's point, and stores the array. In create mode no marker is removed; in edit mode it then deletes the target and hands back its marker |
| `Lifecycle.CreateSession` | script.js:111-206 | A map click and then a valid submission append exactly one workout, built from the form at the clicked point. An invalid submission leaves the array, the stored copy and the button as they were |
| `Lifecycle.EditSession` | script.js:327-336 | An edit request and then a valid submission keep the size, remove the old id, keep the other entries in order, and add a workout from the form at the target's coordinates. An invalid submission leaves the array, the stored copy and the button as they were, so the target is still there |
| `Lifecycle.AddTwoDeleteFirst` | script.js:357-376 | After adding A and then B and deleting A, both the array and the stored copy are exactly `[B]` |

## Left out

- DOM work is not modelled: reading and emptying form fields, showing and hiding the form, focus and blur, `_toggleField`, event-listener wiring, and the dispatch in `_containerWorkoutsEventHandler`. This is user-interface plumbing. The submission arrives as a `Submission` whose fields are already numbers.
- The Leaflet map is not modelled: `_loadMap`, `L.marker`, popups, `marker.remove()` and `setView`. These are calls into a foreign library. A marker is an opaque `MarkerHandle` passed in. `DeleteWorkout` hands back the handle to remove, and `MoveToMarker` returns the point to centre on.
- Geolocation (`_getPosition`) is not modelled. It is an asynchronous browser service.
- `_renderWorkoutonList` is not modelled. It builds HTML text and formats floats with `toFixed`. Only the `data-id` text it renders is modelled, as `Collection.ItemId`.
- Storage I/O is not modelled: `localStorage` get, set and clear, `JSON.stringify`, `JSON.parse`, `location.reload`, `_getWorkoutDataFromLocalStorage`, `_clearLocalStorage`, and the button update after loading (line 108). The field `stored` holds the value that is passed to `JSON.stringify`. Loading from storage is outside the model.
- Clock reads (`new Date()`, `getTime()`) are parameters: `id` and `date`. A `Date` keeps only `getMonth()` and `getDate()`. `NewWorkout` requires an id that is not in use; the source assumes the clock gives one.
- IEEE-754 floating point is not modelled; numbers are exact `real`s. The model therefore does not capture rounding in pace and speed. Nor does it capture overflow to Infinity, which happens for running with distance 0.001 and duration 1e308, or cycling with distance 1e307 and duration 1. Nor does it capture underflow of `duration / 60` to 0 when the duration is `Number.MIN_VALUE`, which makes speed Infinity. In those cases the source stores a non-finite pace or speed where the model proves an exact finite one.
- `Workouts.UpperCase`: handles only the ASCII lower-case letters, unlike JavaScript's `toUpperCase`, because line 19 only applies it to 'r' and 'c'.
- `Numbers.ToNumber`: models JavaScript's `Number(text)` only for runs of decimal digits, including the empty text. Every other text is read as NaN, including whitespace, signs, fractions, exponents, radix prefixes and "Infinity". `data-id` values are always digit runs, and a non-finite result matches no id.
- `Decimal.Render`: renders every natural number in plain decimal. JavaScript switches to exponent notation from 10^21, far beyond any millisecond timestamp.
- The type select offers only "running" and "cycling", so `Kind` has just those two values. `index.html` is not part of this model. With any other value the source would leave `workout` undefined and throw in `_createMarker`.
- The "clear all" button starts hidden. `index.html` is not part of this model, but line 108 only ever removes the `hidden` class.
- A marker that is absent and a marker that is `null` are both `None`.
