# Gym tracker: plan editing, plan copying and workout start, modelled in Dafny

The application lets a signed-in user build workout plans (named lists of
exercises, each with an equipment type and a set count), copy them and start
a workout from one. Its screens talk directly to a hosted backend with three
tables that matter here: `workout_plans`, the per-user exercise catalogue
`exercises`, and `workout_plan_exercises`, which links a plan to a catalogue
row and carries the set count.

This model covers the list-building and table-writing logic of three screens:

- **Plan editor** (`CreatePlan`, `create_plan.dfy`). The form state is a
  class whose methods update the exercise list and the input fields. Save is
  enabled only by a non-blank name and a non-empty list. Saving inserts the
  plan, then for each exercise in order looks up its (name, type, user) key
  in the catalogue, creates the row if the key is absent, and links it. The
  save loop is a `while` loop against the backend. It is proved against a
  functional description of the save, `Save`. Lemmas about `Save` state
  what the save guarantees: one link per exercise in order, existing
  catalogue rows reused, no duplicate key created, and the first rejection
  ends the save.
- **Plan list** (`Plans`, `plans.dfy`). The nested rows of the plans query
  are reshaped into plans. The copy dialog is pre-filled with
  "Copy of <name>". Creating the copy inserts a new plan row and one link
  row per exercise of the selected plan.
- **Start workout** (`StartWorkout`, `start_workout.dfy`). The fetched,
  newest-first list preselects its first plan. The user can pick another.
  Starting navigates to `/log-workout/<id>` only when a plan is selected.

The backend (`Store`, `store.dfy`) is a class holding the three tables as
sequences. A row's id is its position in its table. Every request can be
rejected; whether it is, and with which message, is a parameter of the
request. Sign-in is a parameter too: `SignedIn(id)` or `AuthError(message)`.
Navigation is recorded as the route a screen pushed.

Two consequences of the code are stated in the contracts rather than
smoothed over. Neither save nor copy is atomic. A save that is rejected
part-way keeps the plan row and the links made so far. A copy whose link
insert is rejected keeps the new, empty plan row.

## Model

| member | source | states |
|---|---|---|
| `CreatePlan.CreatePlanForm.constructor` | app/create-plan/page.tsx:20-25 | The editor starts with an empty plan name, no exercises, empty exercise-name and sets fields, the Dumbbell type selected, and no error. |
| `Plans.PlansScreen.constructor` | app/plans/page.tsx:36-41 | The plan list starts empty and loading, with no error, the copy dialog closed, no plan selected and an empty new name. |
| `StartWorkout.StartWorkoutScreen.constructor` | app/start-workout/page.tsx:25-28 | The screen starts with no plans, the empty selection '', loading, and no error. This is why an empty fetched list leaves the selection '': `FetchWorkoutPlans` keeps it as it was. |
| `Store.Find` | app/create-plan/page.tsx:58-64 | The lookup finds a key exactly when it is in the catalogue. It then gives the position of the first row with that key. |
| `Store.Database.SelectExercise` | app/create-plan/page.tsx:58-68 | A rejected lookup is an error. Otherwise an absent key is NotFound, distinct from an error, and a present key yields the id of a row holding it. |
| `Store.Database.InsertPlan` | app/create-plan/page.tsx:47-53 | An accepted insert appends the plan row and returns the next id. A rejected one changes nothing and returns the message. |
| `Store.Database.InsertExercise` | app/create-plan/page.tsx:74-81 | An accepted insert appends the catalogue row and returns its new id. A rejected one changes nothing. |
| `Store.Database.InsertLinks` | app/plans/page.tsx:133-137 | A batch of link rows is appended whole, or not at all when rejected. |
| `CreatePlan.Without` | app/create-plan/page.tsx:37-39 | Filtering out position `index` removes exactly that entry and keeps the rest in order. An index outside the list leaves it unchanged. |
| `CreatePlan.CreatePlanForm.RemoveExercise` | app/create-plan/page.tsx:37-39 | The list loses exactly the entry at the index, the others keep their order, and an out-of-range index changes nothing. |
| `CreatePlan.CreatePlanForm.AddExercise` | app/create-plan/page.tsx:29-35 | With a name and a sets text entered, exactly one exercise is appended with those values and the selected type. Name and sets are then cleared and the type is kept. Otherwise nothing changes. |
| `CreatePlan.Trim` | app/create-plan/page.tsx:100 | Trimming gives the empty string exactly when every character is white space. A non-empty result starts and ends with a non-white-space character. The result is the part of the text starting at some position, with only white space before it and after it. |
| `CreatePlan.TrimIsMiddle` | app/create-plan/page.tsx:100 | The trimmed text starts right after the leading white space of the original, and everything after it in the original is white space. |
| `CreatePlan.ParseInt` | app/create-plan/page.tsx:31 | A blank sets text, or one whose first non-white-space character is neither a digit nor a sign, has no integer value (parseInt's NaN). |
| `CreatePlan.ParseIntReadsDecimal` | app/create-plan/page.tsx:31 | Any integer, written as a number field shows it, reads back as itself. This holds after any leading white space, and whatever follows it, as long as what follows cannot continue the numeral (a digit, or for 0 an `x` or `X`). The value is exact, not rounded to a double. |
| `CreatePlan.ParseIntReadsHex` | app/create-plan/page.tsx:31 | A hexadecimal numeral after a `0x` or `0X` prefix reads back as its value, as parseInt without a radix does. The value is exact, not rounded to a double. |
| `CreatePlan.IsFormValid` | app/create-plan/page.tsx:100 | Saving is allowed exactly when the plan name has a non-white-space character and the list has at least one exercise. |
| `CreatePlan.LinkExerciseToPlan` | app/create-plan/page.tsx:58-91 | One turn of the save loop against the backend does what `SaveExercise` describes: lookup, create if absent, link, stop at the first rejection. |
| `CreatePlan.CreatePlanForm.SavePlan` | app/create-plan/page.tsx:41-98 | The tables end as `Save` describes. Navigation to /plans happens exactly when no request was rejected. Otherwise the error holds the rejection's message and there is no navigation. |
| `CreatePlan.SaveExerciseStep` | app/create-plan/page.tsx:58-91 | One turn links exercise i to a row with its key, or stops with the rejection of one of its own requests. It only adds a catalogue row whose key is absent. |
| `CreatePlan.SaveFromSpec` | app/create-plan/page.tsx:56-92 | The loop from position i either links every remaining exercise in order, or stops at some exercise n after linking exactly those before n. Plans are untouched and the catalogue only gains fresh keys. |
| `CreatePlan.SaveLinksEveryExercise` | app/create-plan/page.tsx:46-92 | A successful save adds one plan row named as entered. It then adds one link per listed exercise, in list order, each with the new plan's id, the exercise's set count and a catalogue row with the exercise's (name, type, user) key. |
| `CreatePlan.SaveKeepsKeysUnique` | app/create-plan/page.tsx:58-84 | A catalogue without duplicate keys still has none after any save, successful or not. |
| `CreatePlan.SaveReusesExisting` | app/create-plan/page.tsx:72-84 | An exercise whose key is already catalogued is linked to that existing row. When every key is catalogued, the catalogue is unchanged. |
| `CreatePlan.SaveLinksKnownKeys` | app/create-plan/page.tsx:58-91 | After a successful save, the link of every exercise whose key was already catalogued points to that existing row. |
| `CreatePlan.SaveAddsNoKnownKey` | app/create-plan/page.tsx:72-84 | A successful save of exercises whose keys are all catalogued leaves the catalogue unchanged. |
| `CreatePlan.SaveAbortsOnFailure` | app/create-plan/page.tsx:42-97 | A sign-in error or a rejected plan insert leaves all tables as they were. A rejection inside the loop at exercise n leaves exactly the exercises before n linked, and no later exercise gets a catalogue row. |
| `CreatePlan.SaveSucceedsWithoutFaults` | app/create-plan/page.tsx:41-94 | With a signed-in user and no rejected request, the save always succeeds. |
| `Plans.FormatExercises` | app/plans/page.tsx:78-83 | Exactly one exercise per link row, in order. Id, name and type come from the joined catalogue row and the set count from the link row. |
| `Plans.FormatPlans` | app/plans/page.tsx:75-84 | Exactly one plan per query row, in order, with id and name copied and the exercises reshaped from that row's links. |
| `Plans.PlansScreen.FetchPlans` | app/plans/page.tsx:48-92 | Without a user the error is 'No user found'. A rejected query records its message. Otherwise the shown list is the reshaped rows. Loading ends in every case. |
| `Plans.PlansScreen.HandleCopyPlan` | app/plans/page.tsx:102-106 | The plan becomes the selected one, the new name is "Copy of " followed by its name, and the dialog opens. |
| `Plans.CopyLinks` | app/plans/page.tsx:127-131 | One link row per exercise of the selected plan, in order. Each has the new plan's id and the exercise's id and set count. |
| `Plans.CopyDuplicatesLinks` | app/plans/page.tsx:118-135 | If the plan shows its stored links, then after the copy the new plan (under a fresh id) has those same links, re-pointed to the new id. The source plan's links are unchanged. |
| `Plans.CopyOfFetchedPlan` | app/plans/page.tsx:75-131 | Copying a fetched plan yields the fetched link rows' exercise ids and set counts, in order, under the new plan id. |
| `Plans.PlansScreen.HandleCreateCopy` | app/plans/page.tsx:108-144 | With no selected plan nothing happens. A missing user gives 'No user found' before any insert. Otherwise the new plan row and then the copied links are inserted. The dialog closes and the list is re-fetched only if both succeed, and any rejection is recorded. The catalogue and all existing rows are unchanged. |
| `StartWorkout.StartWorkoutScreen.FetchWorkoutPlans` | app/start-workout/page.tsx:35-59 | A loaded non-empty list selects its first plan. An empty list keeps the selection. Errors are recorded and keep list and selection. Loading ends either way. |
| `StartWorkout.StartWorkoutScreen.HandlePlanChange` | app/start-workout/page.tsx:61-63 | The selection becomes the chosen value, and nothing else changes. |
| `StartWorkout.StartWorkoutScreen.StartWorkout` | app/start-workout/page.tsx:65-69 | With a non-empty selection, navigation goes to "/log-workout/" followed by the selected id. With an empty one, which is exactly when the Start button is disabled (line 116), nothing happens. |

## Left out

- The workout-logging screen, app/log-workout/[planId]/page.tsx, is not part of this model. That covers its timers, exercise/set cursor and log assembly. The model ends at the navigation to it.
- The plan edit screen (app/edit-plan/[id]/page.tsx), account, dashboard, workouts history, sign-up, confirmation, landing page, e-mail confirmation route, layout components and session helpers (lib/supabase.ts) are not part of this model. They are remote I/O, redirects and rendering.
- The network, authentication and row-level security are reduced to in-memory tables. Request outcomes and sign-in results are parameters. Error messages are the parameters' strings.
- Store.Find: the backend's single-row lookup reports an error when two rows match, and the editor then treats the key as absent and creates another row. The model returns the first match instead. The two agree whenever catalogue keys are unique. `SaveKeepsKeysUnique` shows that the editor's saves keep them unique. The plan edit screen (app/edit-plan/[id]/page.tsx:122-127), which is not part of this model, upserts catalogue rows by id with a new name and type, so duplicate keys can arise there.
- CreatePlan.ParseInt: returns the exact integer where parseInt returns the nearest double. The model does not capture rounding beyond 2^53, `Infinity` for very long numerals, or the -0 that "-0" yields.
- CreatePlan.ParseIntReadsDecimal: an integer n with |n| > 2^53 reads back as n in the model but as the nearest double in JavaScript, because the model's value is exact.
- CreatePlan.ParseIntReadsHex: a long hexadecimal numeral reads back exactly in the model. JavaScript rounds it to the nearest double.
- Store.Database.SelectExercise: the same divergence as `Store.Find`. With a key stored twice, the backend's lookup fails and the editor creates another row, whereas the model yields the first row holding the key.
- CreatePlan.CreatePlanForm.AddExercise: parseInt's NaN is stored as 0 (`SetCount`). NaN arises when no digit follows the white space, the optional sign and the `0x` prefix. The set count is otherwise an unbounded integer and is not claimed positive. parseInt's `0x` prefix is modelled, although the number field the text comes from never holds one. Its truthiness check of the exercise type is always true, since the type is one of six named values, and is omitted.
- CreatePlan.CreatePlanForm.SavePlan: a sign-in that returns no user without an error is not modelled; sign-in either yields a user or an error. The save itself does not check the form's validity; only the disabled button does, as in the code.
- Server-side ordering (newest first by creation time, and the order of embedded link rows) is taken as given. The model keeps whatever order the rows arrive in.
- React rendering, loading spinners, input onChange setters, the dialog's Cancel button, and the navigation-only handlers `handleCreateNewPlan` and `handleEditPlan` are left out. They set one field or push a fixed route.
- Asynchrony is left out. The re-fetch after a copy is not awaited in the code; the model performs it immediately after the dialog closes. Two saves running concurrently, and their check-then-create race on the catalogue, are not modelled.
- Logging to the console on a start-workout fetch error is left out.
