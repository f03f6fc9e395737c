# plantje-app: plant registration, editing and today's care list, in Dafny

This project models the parts of the plantje-app houseplant tracker that
decide what gets written to the backend and what the user is shown:

- **Slugs** (`Slug`): `slugify` from the "new plant" and "edit plant" screens.
  It lower-cases, trims, deletes everything outside `[\w\s-]`, turns each
  whitespace run into `-` and collapses each hyphen run. The two screens carry
  identical copies, so `Slug.Slugify` models both.
- **Text** (`Text`): the pieces of JavaScript string semantics `slugify` and the
  screens rely on.
  - `trim` and `\s` use the ECMAScript white-space and line-terminator set.
  - `\w` is `[A-Za-z0-9_]`.
  - `toLowerCase` is modelled on ASCII letters only.
  - `includes` is a substring search.
- **Plant library** (`Plants`): the validation and row building of
  `createPlants` and `updatePlant`.
  - Each of the four form fields is read with `?? ""` and trimmed.
  - "Name is required" is checked before "Slug is required".
  - The insert keeps empty optional fields as "". The update turns them into
    `null`.
- **Errors** (`Errors`): `getErrorMessage`, and the "new plant" screen's
  case-insensitive duplicate test on the markers "duplicate",
  "already exists" and "unique".
- **Frequency** (`Frequency`): the mapping from the Dutch choice
  (dagelijks/wekelijks/maandelijks) to the stored value (daily/weekly/monthly).
- **Screens** (`NieuwScreen`, `BewerkenScreen`): `onSubmit` of both screens
  and the load effect of the edit screen.
  - Each is a function from the screen state and the backend's answers to the
    ordered list of effects it causes: alerts, rows sent, navigation
    (`Screens.Effect`).
  - A remote step is a parameter that says whether the step fails and with
    what.
- **Today's list** (`TodayTasks`): `getPlantsWithTodayTask`.
  - The user-plant query and the task query become input sequences.
  - The task query's filter is applied in the model: status pending, due
    inside the inclusive window, and owned by one of the user plants.
  - The later task overwrites the earlier one in the task map.
  - Each user plant gets one output record.
  - The window bounds are parameters, and timestamps are integers.

Some consequences of the source that the proofs make explicit:

- A slug can end in a hyphen (`Slugify("a !") == "a-"`), because trimming
  happens before deletion.
- A name made of punctuation passes the screen's guard and gets an empty slug.
  `createPlants` then rejects it with "Slug is required".
- A duplicate rejection from the store is wrapped as
  "Failed to create plant: …". It is still recognised as a duplicate.

`getPlantsWithTodayTask` (lib/planten/plant.ts:176-273) returns one record per
user plant, in the order of the user-plant query. It attaches at most one task
to each plant: the last one the task query returns for it, in the store's
order, since the task query has no ordering clause.

## Model

| member | source | states |
|---|---|---|
| `Text.Trim` | lib/planten/plant.ts:34-37 | the result is a piece of the input with only white space before and after it in the input, it has no white space at either end, and it is empty exactly when the input is all white space |
| `Text.ToLower` | app/planten/nieuw.tsx:24 | an upper-case ASCII letter becomes the letter at the same place in `a`..`z`; every other character is kept; the result is never upper-case |
| `Text.Lower` | app/planten/nieuw.tsx:24 | the result has the input's length and each character is `Text.ToLower` of the input's character at that position |
| `Text.Contains` | app/planten/nieuw.tsx:100-102 | the left-to-right search behind `includes`; `Text.ContainsIffOccurs` states that it holds exactly when the needle occurs at some index |
| `Text.TrimIdempotent` | lib/planten/plant.ts:34-37 | trimming a trimmed value changes nothing, so the library's trim of an already trimmed form field is a no-op |
| `Text.TrimLowerCommute` | app/planten/nieuw.tsx:23-25 | lower-casing and trimming commute, so trimming before or after `toLowerCase` gives the same string |
| `Text.ContainsIffOccurs` | app/planten/nieuw.tsx:100-102 | `includes` holds exactly when the needle occurs at some index of the text |
| `Slug.DeleteDisallowed` | app/planten/nieuw.tsx:26 | deleting `[^\w\s-]` leaves only word characters, white space and hyphens, and never lengthens the string |
| `Slug.RunLength` | app/planten/nieuw.tsx:27-28 | the run measured is maximal: all its characters are of the class, and the next one is not |
| `Slug.ReplaceRuns` | app/planten/nieuw.tsx:27-28 | replacing runs never lengthens the string, keeps it non-empty, starts with `-` when the input starts with a run and otherwise with the input's first character, and after the hyphen step no two hyphens are adjacent |
| `Slug.ReplaceRunsOfRun` | app/planten/nieuw.tsx:27-28 | a maximal run of the class becomes exactly one `-`, and the replacement continues with the text after the run |
| `Slug.ReplaceRunsAfterPlainPrefix` | app/planten/nieuw.tsx:27-28 | text without a member of the class is kept unchanged, in order, in front of the replaced rest |
| `Slug.Slugify` | app/planten/nieuw.tsx:22-29 | the pipeline lower-case, trim, delete, replace white-space runs, collapse hyphen runs; the lemmas below state what it yields: `SlugifyIsSlug`, `SlugifyKeepsWordChars`, `SlugifyIdempotent`, `SlugifyIgnoresSurroundingSpace`, `SlugIsTrimmed` |
| `Slug.SlugifyIsSlug` | app/planten/nieuw.tsx:22-29 | every slug consists of `[a-z0-9_-]` only and has no two adjacent hyphens |
| `Slug.SlugifyFixesSlugs` | app/planten/bewerken.tsx:16-23 | a string that is already a slug is its own slug |
| `Slug.SlugifyIdempotent` | app/planten/bewerken.tsx:16-23 | slugifying a slug changes nothing |
| `Slug.SlugifyIgnoresSurroundingSpace` | app/planten/bewerken.tsx:72-73 | the slug of the trimmed name equals the slug of the untrimmed name the screen slugifies |
| `Slug.SlugifyKeepsWordChars` | app/planten/nieuw.tsx:22-29 | the word characters of the slug are exactly the name's word characters, lower-cased, in order |
| `Slug.SlugOfWordyNameIsNonEmpty` | app/planten/nieuw.tsx:22-29 | a name with at least one word character has a non-empty slug |
| `Slug.TrailingHyphenExample` | app/planten/nieuw.tsx:24-27 | "a !" slugifies to "a-": trimming comes before deletion, so a trailing hyphen survives |
| `Slug.PunctuationOnlyExample` | app/planten/nieuw.tsx:26 | a name of punctuation only has the empty slug |
| `Slug.DashBetweenWords` | app/planten/nieuw.tsx:27 | one space between two words without white space becomes one hyphen |
| `Slug.MixedCaseExample` | app/planten/nieuw.tsx:22-29 | "Aloe Vera" slugifies to "aloe-vera" |
| `Slug.SlugIsTrimmed` | lib/planten/plant.ts:35 | a slug has no surrounding white space, so the library's trim of the slug field is a no-op |
| `Slug.SlugOfBlankName` | app/planten/nieuw.tsx:45-51 | a name that is blank after trimming has the empty slug |
| `Errors.GetErrorMessage` | app/planten/nieuw.tsx:31-35 | an `Error` yields its message, a thrown string yields itself, anything else yields "Er ging iets mis." |
| `Errors.IsDuplicateMessage` | app/planten/nieuw.tsx:99-103 | the three `includes` tests on the lower-cased message; `Errors.DuplicateIffMarkerOccurs` states that it holds exactly when a marker occurs in it |
| `Errors.DuplicateIffMarkerOccurs` | app/planten/nieuw.tsx:99-103 | the duplicate test holds exactly when one of the three markers occurs somewhere in the lower-cased message |
| `Errors.DuplicateSurvivesPrefix` | lib/planten/plant.ts:53-56 | a duplicate message stays a duplicate after a prefix such as "Failed to create plant: " |
| `Errors.DuplicateIgnoresCase` | app/planten/nieuw.tsx:100-102 | lower-casing the message does not change the duplicate verdict |
| `Errors.PostgresUniqueViolationExample` | app/planten/nieuw.tsx:100 | "Duplicate key" is recognised although it is capitalised |
| `Errors.NameRequiredIsNotDuplicate` | lib/planten/plant.ts:39 | the "Name is required" error is not taken for a duplicate |
| `Errors.SlugRequiredIsNotDuplicate` | lib/planten/plant.ts:40 | the "Slug is required" error is not taken for a duplicate |
| `Frequency.ToDb` | app/planten/nieuw.tsx:76-81 | the stored frequency reads back as the chosen one |
| `Frequency.ToDbIsBijective` | app/planten/nieuw.tsx:76-81 | the mapping and its reading back are inverse bijections |
| `Frequency.StoredLiteralsAreInjective` | lib/planten/plant.ts:15 | distinct choices are stored as distinct literals of `CareFrequencyDB` |
| `Frequency.ToDbOnLiterals` | app/planten/nieuw.tsx:76-81 | "dagelijks" is stored as "daily", "wekelijks" as "weekly", "maandelijks" as "monthly" |
| `Plants.NullToEmpty` | lib/planten/plant.ts:34-37 | a missing field reads as "", a present one as its value |
| `Plants.EmptyToNull` | lib/planten/plant.ts:80-81 | an empty value is written as `null`, and exactly an empty one; any other value is written unchanged |
| `Plants.Validate` | lib/planten/plant.ts:39-40 | "Name is required" exactly when the trimmed name is empty, "Slug is required" exactly when the name is present and the trimmed slug empty, and no error exactly when both are present |
| `Plants.CreatePlants` | lib/planten/plant.ts:33-59 | the insert is rejected exactly when validation fails, with its error; an accepted row holds the four trimmed fields with non-empty name and slug |
| `Plants.UpdatePlant` | lib/planten/plant.ts:63-93 | the update is rejected exactly when validation fails; an accepted row holds the trimmed name and slug and `null` for an empty species or location |
| `Plants.UpdateAgreesWithCreate` | lib/planten/plant.ts:67-81 | update and create accept the same forms with the same errors and build the same row up to "" versus `null` |
| `Plants.CreateRoundTrip` | lib/planten/plant.ts:34-49 | submitting the values of an inserted row again yields the same row |
| `Plants.UpdateRoundTrip` | lib/planten/plant.ts:67-82 | reading an updated row back into a form (`null` as "") and submitting it yields the same row |
| `NieuwScreen.CatchAlert` | app/planten/nieuw.tsx:95-107 | whatever is caught is reported with an alert |
| `NieuwScreen.CatchAlertClassifies` | app/planten/nieuw.tsx:99-107 | the alert is "Bestaat al" exactly for a duplicate message; any other message is shown under "Error" |
| `Screens.SubmittedForm` | app/planten/nieuw.tsx:66-70 | the form both screens send: the trimmed name, species and location and the slug of the untrimmed name; `Screens.SubmittedFieldsAreTrimmed` states what the library makes of it |
| `Screens.SubmittedFieldsAreTrimmed` | app/planten/bewerken.tsx:71-75 | every field the screens send is present and already trimmed, so the library's own trim of each field changes nothing |
| `NieuwScreen.AfterPlantInsert` | app/planten/nieuw.tsx:83-107 | the user plant is linked with the mapped frequency first, the first care task is created exactly when linking succeeds, and the screen goes back exactly when both succeed; a failing link ends with the catch block's alert for its error right after the link, and a failing first task ends with the alert for its error right after the task; no plant row is inserted here |
| `NieuwScreen.SubmitSignedIn` | app/planten/nieuw.tsx:66-107 | a form `createPlants` rejects writes nothing and shows only the catch block's alert for the thrown error; an accepted one inserts its row first and never again; the screen goes back exactly when every step succeeds |
| `NieuwScreen.OnSubmit` | app/planten/nieuw.tsx:47-64 | a name that is blank after trimming only shows "Naam is verplicht"; with a non-blank name, no signed-in user shows only "Niet ingelogd" / "Log in om een plant toe te voegen.", and a failing `getUser` shows only the catch block's alert for its error |
| `NieuwScreen.ScreenGuardSubsumesNameCheck` | lib/planten/plant.ts:39-40 | after the screen's name guard the library's name check never fires; the library rejects exactly an empty slug, and otherwise inserts the trimmed fields and the slug |
| `NieuwScreen.EmptySlugIsReported` | app/planten/nieuw.tsx:48-73 | a signed-in submit of a name with an empty slug ends with the alert "Slug is required" |
| `NieuwScreen.SubmitAfterInsert` | app/planten/nieuw.tsx:73-94 | once the plant row is accepted, the rest is the user-plant link, first task, alert and back |
| `NieuwScreen.SubmitInsertRejected` | lib/planten/plant.ts:53-56 | a store rejection of the plant row is wrapped as "Failed to create plant: …", caught, and nothing else is written |
| `NieuwScreen.AllStepsSucceed` | app/planten/nieuw.tsx:84-94 | with no remote failure the steps after the plant insert are link, first task, the success alert naming the frequency, and back |
| `NieuwScreen.SuccessfulSubmit` | app/planten/nieuw.tsx:47-94 | with every step succeeding, the effects are exactly: insert the trimmed fields with the slug, link, first task, success alert, back |
| `NieuwScreen.DuplicatePlantIsReported` | app/planten/nieuw.tsx:95-107 | a duplicate rejection of the insert shows "Bestaat al" right after the insert |
| `NieuwScreen.NoWritesWithoutNameOrUser` | app/planten/nieuw.tsx:47-64 | without a non-blank name and a signed-in user nothing is written |
| `NieuwScreen.OnlyTheAcceptedRowIsInserted` | app/planten/nieuw.tsx:66-73 | the only plant row ever inserted is the first effect and is the row `createPlants` accepts for the form |
| `NieuwScreen.GoesBackIffEveryStepSucceeds` | app/planten/nieuw.tsx:47-111 | the screen goes back exactly when the slug is non-empty, a user is signed in and all three remote steps succeed |
| `BewerkenScreen.OnLoad` | app/planten/bewerken.tsx:43-59 | loading writes nothing; no route slug leaves the form alone; no plant gives "Niet gevonden" and back; a found plant fills the form with its fields, `null` read as "" |
| `BewerkenScreen.SubmitLoaded` | app/planten/bewerken.tsx:68-86 | a rejected form only shows the error; an accepted one updates the loaded plant first and writes nothing after; the screen navigates exactly when the update succeeds, to "/planten/" and the slug; when the update succeeds the effects are exactly the update, the "Success" alert "Plant is bijgewerkt!" and the navigation |
| `BewerkenScreen.DetailRoute` | app/planten/bewerken.tsx:81 | the route of a plant's detail screen, `/planten/` followed by the slug; `BewerkenScreen.DetailRouteDeterminesSlug` states that it names the slug |
| `BewerkenScreen.DetailRouteDeterminesSlug` | app/planten/bewerken.tsx:81 | two slugs give the same detail route exactly when they are equal, so the screen navigates to the plant just saved |
| `BewerkenScreen.OnSubmit` | app/planten/bewerken.tsx:61-66 | a blank name only shows "Naam is verplicht"; with no loaded plant nothing happens |
| `BewerkenScreen.UpdateAfterGuard` | lib/planten/plant.ts:67-82 | after the screen's guard, `updatePlant` rejects exactly an empty slug and otherwise writes the trimmed name, the slug, and the trimmed optional fields with "" as `null` |
| `BewerkenScreen.BlankNameWritesNothing` | app/planten/bewerken.tsx:62-65 | a blank name writes nothing |
| `BewerkenScreen.OnlyTheLoadedPlantIsUpdated` | app/planten/bewerken.tsx:66-77 | the only write is the first effect, for the loaded plant's id, with the row `updatePlant` accepts |
| `BewerkenScreen.NavigatesToNewSlug` | app/planten/bewerken.tsx:77-81 | the screen navigates exactly when a plant is loaded, the slug is non-empty and the update succeeds, and the target is the detail route of the slug just written |
| `BewerkenScreen.RejectedUpdateIsReported` | lib/planten/plant.ts:87-90 | a store rejection is shown as "Failed to update plant: …" after the attempted update |
| `BewerkenScreen.NullNameBlocksSave` | app/planten/bewerken.tsx:55-65 | a plant stored without a name loads as "" and cannot be saved until a name is typed |
| `BewerkenScreen.LoadThenSaveKeepsOptionalFields` | app/planten/bewerken.tsx:54-77 | loading and saving without edits keeps a `null` species or location `null` and writes a trimmed non-empty one back unchanged |
| `TodayTasks.UserPlantIds` | lib/planten/plant.ts:224 | the id list has one id per user plant, in order |
| `TodayTasks.SelectTasks` | lib/planten/plant.ts:227-233 | every returned task is pending, due inside the inclusive window and owned by a listed user plant |
| `TodayTasks.SelectTasksKeepsExactly` | lib/planten/plant.ts:229-233 | a task is returned by the task query exactly when it is among the stored rows, pending, due inside the inclusive window and owned by one of the user's plants |
| `TodayTasks.TaskMap` | lib/planten/plant.ts:240-250 | the map has a key exactly for the user plants some task belongs to |
| `TodayTasks.TodayOf` | lib/planten/plant.ts:253-271 | a record carries its plant and user-plant id; `hasTaskToday` holds exactly when the map has the user plant, and then task id and due time come from the map, else both are absent |
| `TodayTasks.Merge` | lib/planten/plant.ts:253-272 | one record per user plant, in the same order |
| `TodayTasks.GetPlantsWithTodayTask` | lib/planten/plant.ts:176-273 | no user gives the empty list, a failing user-plant query or task query propagates its error, no user plants gives the empty list, and otherwise there is one record per user plant |
| `TodayTasks.TaskMapOfSelected` | lib/planten/plant.ts:240-250 | after the filter, a user plant has a map entry exactly when some task passes the filter for it, and the entry is the last such task in store order |
| `TodayTasks.TodayRecord` | lib/planten/plant.ts:226-272 | record i is user plant i's, and it has today's task exactly when one of its pending tasks falls inside the window, with the id and due time of the last such task |
| `TodayTasks.WindowIsInclusive` | lib/planten/plant.ts:230-232 | tasks due exactly at either bound are today's; one unit outside either bound is not |
| `TodayTasks.DailyWindowExample` | lib/planten/plant.ts:181-191 | of tasks due at 00:00:01, 23:59:00 and 00:00:01 the next day, only the first two are today's, and the 23:59 task is the one reported |

## Left out

- Network and storage: the backend calls (auth, selects, inserts, updates)
  are not modelled as I/O. Their outcomes are parameters of the screen
  functions. The rows the queries return are input sequences.
- Ids the backend assigns: the plant id that `createPlants` returns and the
  user-plant id that `createUserPlant` returns are not modelled.
  `InsertUserPlant` and `InsertFirstCareTask` carry no such ids.
- The user-plant query's own filtering and ordering (by user, non-hidden
  plants, newest plant first) are left to the store. The model takes its
  answer as given. A missing (`null`) query answer is modelled as the empty
  sequence.
- The clock: today's window in `getPlantsWithTodayTask`, the start date in
  `createUserPlant` and the 09:00 first due time in `createFirstCareTask` all
  depend on the device clock and time zone. The window is a parameter. The
  first task's due time and the user plant's time zone and start date are not
  modelled.
- Time values are integers rather than ISO-8601 strings. The store compares
  instants, and the model compares integers.
- `toLowerCase` is modelled on ASCII letters only. Non-ASCII letters are left
  unchanged, so Unicode case mapping is not modelled.
- The `submitting` flag is not modelled. It disables the save button and
  changes its label while a submit is in flight, which is what keeps a second
  tap from sending a second insert or update. The model treats each
  `onSubmit` call on its own. `console.error` logging, the screens' layout
  and styling, and the species-lookup API are not modelled either.
- `getAllPlants`, `getPlant`, `deletePlant` and the completion/recurrence
  workflow are not modelled. They are outside the modelled screens and
  functions.
- `Slug.DeleteDisallowed`: the contract does not state that the kept
  characters are those of the input in order. `Slug.DeleteDisallowedKeepsKept`
  and `Slug.WordCharsDeleteDisallowed` state it on the inputs the proofs need.
- `Slug.ReplaceRuns`: the function's own contract gives only a length bound,
  emptiness, the first character and, for hyphens, no `--`.
  `Slug.ReplaceRunsOfRun` and `Slug.ReplaceRunsAfterPlainPrefix` state what it
  does to each maximal run and to the text between runs.
- `NieuwScreen.CatchAlert`: the function's own contract only says it is an
  alert. `NieuwScreen.CatchAlertClassifies` states the classification.
