# Weighttrack workout bookkeeping, in Dafny

This project models the core logic of the weighttrack web app and proves properties of it:

- the in-memory workout store of the `useWorkouts` hook. It holds logged sets and folders of exercises. The model has its seven mutations and its four queries.
- the "compared to previous" statistics of the comparison card.
- the main page's day grouping, its choice of latest and previous session, its set numbering, and the guards and record updates of its forms.
- the trainer–client invitation server actions.

Modules, one per concern:

- `Wrappers`: the `Option` type (JavaScript `null`/`undefined`).
- `Seqs`: the array operations the app relies on. These are `filter`, the stable descending `sort`, `findIndex`, de-duplication by `findIndex`, and grouping by key, with their laws.
- `Text`: `String.prototype.trim` and the case-insensitive name comparison built on `toLowerCase`.
- `Workouts`: the set, exercise and folder records; the `Store` class, whose two `seq` fields the mutations reassign; and the query functions.
- `Comparison`: `calculateStats`, `getChange` and the comparison card's early return.
- `Page`: the `groupedSets` loop (a method over a `map`), session selection, and the form handlers.
- `Invitations`: the `InvitationTable` class, whose `rows` field is the hosted table, and the four server actions.

Dates are integer timestamps. Weights are exact reals. Ids and the current time are passed in by the caller, fresh.

## Model

| member | source | states |
|---|---|---|
| Seqs.FilterMembers | src/hooks/use-workouts.ts:57 | the filtered list holds exactly the elements of the input that pass the predicate |
| Seqs.FilterCount | src/hooks/use-workouts.ts:115 | filtering keeps every passing element exactly as often as the input has it, and drops every other one |
| Seqs.FilterSubsumed | src/hooks/use-workouts.ts:95 | filtering by a stronger predicate after a weaker one is filtering by the stronger one alone |
| Seqs.FilterKeepsDistinct | src/hooks/use-workouts.ts:57 | a filter never introduces duplicate ids |
| Seqs.SortDesc | src/hooks/use-workouts.ts:116 | the sort returns a permutation of its input, ordered by key, largest first |
| Seqs.SortDescStable | src/hooks/use-workouts.ts:116 | the sort is stable: elements with equal keys keep their input order |
| Seqs.SortDescSorted | src/hooks/use-workouts.ts:116 | sorting an already sorted list changes nothing |
| Seqs.PermutationKeepsDistinct | src/app/page.tsx:181 | a permutation of a duplicate-free list is duplicate-free |
| Seqs.IndexOfKeyFrom | src/hooks/use-workouts.ts:106-108 | `findIndex` gives -1 exactly when no element has the key, otherwise the first index that has it |
| Seqs.UniqueBy | src/hooks/use-workouts.ts:105-109 | de-duplication keeps one element per key, every key of the input is represented, each kept element is the first with its key, and kept elements are in input order |
| Seqs.UniqueByDistinct | src/hooks/use-workouts.ts:105-109 | without duplicate keys, de-duplication returns its input |
| Seqs.ConcatGroupsPermutation | src/app/page.tsx:168-175 | when the keys are distinct and cover every element, the groups together are a permutation of the input |
| Text.ContentStart | src/app/page.tsx:443 | the index of the first character that is not white space; everything before it is white space |
| Text.ContentEnd | src/app/page.tsx:443 | the index just past the last character that is not white space; everything after it is white space |
| Text.Trim | src/app/page.tsx:443 | the result is a slice of the input that neither starts nor ends with white space, and only white space is cut from either end |
| Text.TrimEmpty | src/app/page.tsx:443 | a string trims to the empty string exactly when it is all white space |
| Text.TrimIdempotent | src/app/page.tsx:308 | trimming twice is trimming once |
| Text.Lower | src/hooks/use-workouts.ts:82 | lower-casing keeps the length and lower-cases each character |
| Text.LowerIdempotent | src/hooks/use-workouts.ts:82 | lower-casing twice is lower-casing once |
| Text.SameAsLowered | src/hooks/use-workouts.ts:82 | a name compares equal, ignoring case, to its lower-case form |
| Workouts.ReplaceById | src/hooks/use-workouts.ts:53 | the length is kept; every entry with the id becomes the given set; every other entry stays in place |
| Workouts.AddExerciseIn | src/hooks/use-workouts.ts:79-88 | other folders are unchanged; the target folder is unchanged when it has the name, ignoring case; otherwise the new exercise is appended to it |
| Workouts.RemoveExerciseIn | src/hooks/use-workouts.ts:92-99 | other folders are unchanged; the target folder loses every exercise with the id |
| Workouts.AddExerciseToMissingFolder | src/hooks/use-workouts.ts:79-88 | adding to an unknown folder id changes nothing |
| Workouts.AddExerciseTwice | src/hooks/use-workouts.ts:82-84 | adding a name a second time, in any letter case, changes nothing |
| Workouts.Store.constructor | src/hooks/use-workouts.ts:11-12 | the store starts from the given lists, with unique ids |
| Workouts.Store.AddWorkout | src/hooks/use-workouts.ts:42-50 | the head of the new list carries the form's fields, the fresh id, the current time and notes defaulting to `""`; the tail is the old list; folders are unchanged |
| Workouts.Store.UpdateWorkoutSet | src/hooks/use-workouts.ts:52-54 | the length is kept; matching entries become the given set; others are unchanged and in place; ids stay unique |
| Workouts.Store.DeleteWorkoutSet | src/hooks/use-workouts.ts:56-58 | the remaining sets are exactly the old ones without the id, in order |
| Workouts.Store.AddFolder | src/hooks/use-workouts.ts:60-68 | one empty folder is appended; the sets are unchanged |
| Workouts.Store.DeleteFolder | src/hooks/use-workouts.ts:70-72 | only folders with the id are removed; the sets are unchanged, with no cascade |
| Workouts.Store.AddExerciseToFolder | src/hooks/use-workouts.ts:74-89 | the folders become the case-insensitive add of the exercise; the sets are unchanged |
| Workouts.Store.DeleteExerciseFromFolder | src/hooks/use-workouts.ts:91-100 | if the folder exists, the exercise leaves it and all its sets are deleted, and every other set is kept; if not, nothing changes |
| Workouts.FlatExercisesMembers | src/hooks/use-workouts.ts:104 | `flatMap` holds exactly the exercises of the folders |
| Workouts.AllExercises | src/hooks/use-workouts.ts:103-111 | every exercise id appears once; the first occurrence in `flatMap` order is kept; the order is first-occurrence order |
| Workouts.AllExercisesMembers | src/hooks/use-workouts.ts:103-111 | every folder's exercise id is listed, and every listed exercise comes from a folder |
| Workouts.AllExercisesWithoutDuplicates | src/hooks/use-workouts.ts:105-109 | with unique exercise ids, the list is the plain flattening |
| Workouts.History | src/hooks/use-workouts.ts:113-117 | the history holds exactly the exercise's sets, as a permutation of the filtered list, sorted newest first |
| Workouts.HistoryStable | src/hooks/use-workouts.ts:116 | sets with the same date keep their store order |
| Workouts.HistoryIdempotent | src/hooks/use-workouts.ts:113-117 | the history of a history is itself |
| Workouts.HistoryUntouchedByOtherDeletes | src/hooks/use-workouts.ts:95 | deleting one exercise's sets leaves every other exercise's history as it was |
| Workouts.HeaviestFromIsFirstMax | src/hooks/use-workouts.ts:122 | the strict `>` fold ends on the first of the heaviest sets |
| Workouts.HeaviestIsFirstMax | src/hooks/use-workouts.ts:122 | over a whole non-empty history, the fold gives a first maximum |
| Workouts.PersonalBest | src/hooks/use-workouts.ts:119-123 | null exactly when the history is empty; otherwise a heaviest set, with no earlier set in the history as heavy |
| Workouts.LatestWorkout | src/hooks/use-workouts.ts:125-128 | null exactly when the history is empty; otherwise the history's head, a set of the exercise dated no earlier than any other |
| Workouts.BenchPressScenario | src/hooks/use-workouts.ts:119-128 | after a 60 kg set and then a 65 kg set, the 65 kg set is both the personal best and the latest set |
| Comparison.CalculateStats | src/components/workout-comparison.tsx:10-19 | an empty session gives all zeros; `sets` is the length; weight per rep times reps is the volume when there are reps; weight per rep is 0 without reps |
| Comparison.SumsOfConcat | src/components/workout-comparison.tsx:15-16 | total reps and volume add up over concatenated sessions |
| Comparison.StatsNonNegative | src/components/workout-comparison.tsx:15-17 | with non-negative weights and reps, reps, volume and weight per rep are non-negative, and the volume is 0 when the reps are 0 |
| Comparison.VolumeBetween | src/components/workout-comparison.tsx:16 | the volume lies between the lightest and the heaviest weight times the total reps |
| Comparison.AvgWeightBetween | src/components/workout-comparison.tsx:17 | the weight per rep lies between the lightest and the heaviest weight of the session |
| Comparison.GetChange | src/components/workout-comparison.tsx:52-57 | the change and the percentage are null exactly when the previous value is 0; otherwise previous plus change is latest, and percentage times previous is 100 times the change |
| Comparison.ChangeDirection | src/components/workout-comparison.tsx:54 | the change is positive or negative exactly when the latest value is above or below the previous one, and so is the percentage for a positive previous value |
| Comparison.Compare | src/components/workout-comparison.tsx:46-62 | nothing is shown exactly when the latest session is empty; otherwise the latest statistics are shown, and each of the four cards (sets, reps, volume, weight per rep) is `getChange` of the latest and previous statistic |
| Comparison.FirstSessionHasNoChanges | src/components/workout-comparison.tsx:53 | against an empty previous session, all four changes are null |
| Comparison.RepeatedSessionUnchanged | src/components/workout-comparison.tsx:52-60 | repeating a session shows zero change and zero percent in sets and reps |
| Page.GroupByDay | src/app/page.tsx:168-175 | the object has one key per day label, in first-appearance order, and each day's entry holds that day's sets in input order |
| Page.PushOntoDay | src/app/page.tsx:173 | pushing a set onto an existing day keeps the grouping of the prefix seen so far |
| Page.StartDay | src/app/page.tsx:170-173 | creating a day's entry at its first set keeps the grouping of the prefix, with the new key last |
| Page.GroupingPartitions | src/app/page.tsx:168-175 | rendered day after day, the groups hold every set exactly once, and their total length is the input length |
| Page.SetInItsDayOnly | src/app/page.tsx:168-175 | a set lies in its own day's group and in no other |
| Page.GroupKeepsOrder | src/app/page.tsx:173 | of two sets on the same day, the one earlier in the input is also earlier in the day's group |
| Page.SessionDates | src/app/page.tsx:181 | the sorted labels are a permutation of the keys, ordered newest first |
| Page.SessionDatesDistinct | src/app/page.tsx:181 | distinct labels stay distinct once sorted |
| Page.SelectSessions | src/app/page.tsx:182-183 | latest is `[]` without groups and previous is `[]` with fewer than two; otherwise each is the group of the first or second sorted label when that label is not empty, and `[]` when it is the empty string |
| Page.LatestIsNewest | src/app/page.tsx:181-182 | the latest session is the group of a day ranked no lower than any other |
| Page.PreviousIsNextNewest | src/app/page.tsx:181-183 | the previous session is the group of another day, ranked highest among all days except the latest |
| Page.ComparisonShownForNonEmptyHistory | src/app/page.tsx:182 | a non-empty history with non-empty labels always shows the comparison card |
| Page.SetNumber | src/app/page.tsx:232 | a day's sets are numbered from the day's size down to 1 |
| Page.SetNumbersDescending | src/app/page.tsx:232 | later sets get smaller numbers |
| Page.FolderToAdd | src/app/page.tsx:443-444 | a folder is added exactly when the name is not blank, with the trimmed name and description |
| Page.ExerciseToAdd | src/app/page.tsx:308-309 | the trimmed custom name when it is not blank, else the popular pick, else nothing |
| Page.HandleAddFolder | src/app/page.tsx:442-449 | a blank name leaves the folders unchanged; otherwise one folder with the trimmed fields is appended |
| Page.HandleAddExercise | src/app/page.tsx:307-316 | the store gets the chosen name, or stays unchanged when there is none |
| Page.EditedSet | src/app/page.tsx:75-81 | the saved set keeps id, exercise id and exercise name, and takes the new weight, reps, notes and date |
| Page.SaveEditKeepsIdentity | src/app/page.tsx:74-83 | saving an edit of a stored set changes that entry only, and keeps every entry's id, exercise and position |
| Invitations.StatusOf | src/app/invitations/actions.ts:143 | a decision is never `pending` |
| Invitations.InsertErrorMessage | src/app/invitations/actions.ts:39-45 | code `23505` gives the "already been sent" message; any other error gives its own message |
| Invitations.ApplyUpdate | src/app/invitations/actions.ts:167-171 | only rows with the id that are addressed to the caller change, and they take the payload |
| Invitations.Field | src/app/invitations/actions.ts:88-89 | a metadata field is defined exactly when the metadata exists and holds it |
| Invitations.Reshape | src/app/invitations/actions.ts:87-90 | the details are the `full_name` and `email` metadata fields, both undefined without metadata |
| Invitations.WithDetails | src/app/invitations/actions.ts:85-91 | each row is kept, in order, with its reshaped details |
| Invitations.InvitationTable.constructor | src/lib/database.types.ts:133-139 | the table starts from rows with unique ids, with no client on pending rows and a client on accepted rows |
| Invitations.InvitationTable.SendInvitation | src/app/invitations/actions.ts:7-48 | a signed-out caller and a self-invite are refused before any write; a failed insert returns its message and adds nothing; otherwise exactly one pending row from the caller is appended |
| Invitations.InvitationTable.UpdateInvitationStatus | src/app/invitations/actions.ts:143-179 | a signed-out caller or a failed update changes nothing; otherwise the selected rows take the payload; rows not addressed to the caller never change |
| Invitations.InvitationTable.ClientsForTrainer | src/app/invitations/actions.ts:50-94 | the listing holds exactly the caller's rows as trainer, with reshaped details, or the right error |
| Invitations.InvitationTable.PendingInvitationsForClient | src/app/invitations/actions.ts:96-140 | the listing holds exactly the pending rows addressed to the caller's email, with reshaped details, or the right error |
| Invitations.PayloadFor | src/app/invitations/actions.ts:162-165 | the payload carries the decided status, and a client id exactly on acceptance, equal to the caller's id |
| Invitations.DecidedLeavesPending | src/app/invitations/actions.ts:162-171 | after a decision, the caller's pending invitations are the ones they had, minus the decided one |
| Invitations.AcceptBindsClient | src/app/invitations/actions.ts:162-165 | acceptance sets the status and binds the caller as client; rejection sets only the status |
| Invitations.SentIsListed | src/app/invitations/actions.ts:31-37 | a sent invitation is listed among the invitee's pending invitations and the sender's clients |

## Left out

- Loading from and saving to `localStorage` (src/hooks/use-workouts.ts:15-40) is browser I/O. `Store` starts from given lists.
- React state mechanics are left out: `useState`, `useCallback`, `useMemo` and dialog state. Each store operation is one atomic transition. In `deleteExerciseFromFolder`, the source calls `setWorkouts` inside the `setFolders` callback; the model applies both updates together.
- Ids and timestamps come from `new Date().toISOString() + Math.random()`. The model takes them as parameters, and `AddWorkout` and `AddFolder` require a fresh id.
- Workouts.Store.AddWorkout: it requires weight ≥ 0 and reps ≥ 1, the logging form's validation in src/components/workout-logger.tsx. The hook itself does not check them.
- The logging form (src/components/workout-logger.tsx:56-61) builds the new set with a key `exercise_id`, while `NewWorkoutSet` (src/lib/types.ts:4,10) and the history filter (src/hooks/use-workouts.ts:115) use `exerciseId`. The model has a single `exerciseId` field, so it does not capture that a set logged through the form carries no `exerciseId` and would not match that filter.
- Reps are modelled as integers (`reps: int`). The log form's coercing number check (src/components/workout-logger.tsx:28) and the edit dialog's `Number` conversion (src/app/page.tsx:78) also accept fractional reps, which the model does not represent.
- Invitations.InvitationTable.ClientsForTrainer: it returns the caller's rows in table order. The select has no ordering, so the source promises only which rows come back, not their order.
- Invitations.InvitationTable.PendingInvitationsForClient: it returns the pending rows in table order. The select has no ordering, so the source promises only which rows come back, not their order.
- Workouts.Store.AddExerciseToFolder: the new exercise's id is not required to be fresh, so exercise-id uniqueness is not an invariant of the store. `AllExercises` is what de-duplicates by id.
- Day labels (date-fns `format`) are the parameter `dayOf`. The newest-first order of labels (re-parsing them with `new Date`, which depends on the host) is the parameter `rank`. A `NaN` comparison is not modelled.
- Page.GroupByDay: JavaScript orders integer-like object keys before other keys. Day labels are never integer-like, so keys are modelled in insertion order.
- Display formatting with `toFixed` and the `isNaN` guard (src/components/workout-comparison.tsx:56) is left out. `GetChange` returns the exact percentage rather than its one-decimal string.
- Comparison: JavaScript numbers are modelled as exact reals, with no floating-point rounding.
- Text.Lower: only ASCII and Latin-1 capitals are mapped. The full Unicode case mapping of `toLowerCase` is left out.
- The Supabase client and authentication service are parameters of each action: `auth` is the signed-in user or none, and the write or read error is an optional `StoreError`. The users join is a function `join`. Which constraint raises `23505` is left to the database.
- The user's email is modelled as always present. Supabase allows a user without an email.
- The `created_at` column and the server's `console.error` logging are left out.
- Invitations.InvitationTable.UpdateInvitationStatus: like the source, it does not check that the invitation is still pending. A client can re-decide an invitation, and a rejection after an acceptance keeps the bound client id.
- Comparison.GetChange: with a previous value of 0, the source returns a null change as well as a null percentage. This model follows the source.
- JSX and all other UI are not part of this model. Neither are the AI weight-suggestion flow, the login actions, the role update and the progress-tracker guard.
