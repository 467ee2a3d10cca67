# Front-end core logic, modelled in Dafny

This project models the small pure routines at the heart of the front-end
application, and proves what they promise. The routines are:

- **The string reformatter** (`reformatString`). It drops spaces and dashes and cuts the rest into blocks of three. A remainder of one becomes two blocks of two. The blocks are joined with single spaces and a semicolon is appended.
- **Linked-list digit addition** (`addTwoNumbers`, `createList`). Little-endian decimal digit lists are added with a carry.
- **The spiral matrix fill** (`generateMatrix`). An n-by-n matrix is filled with 1 .. n*n clockwise, walking four shrinking boundaries.
- **The two counter reducers** (`CounterComponent.tsx` and `Counter.tsx`).
- **The user form context.** It covers `updateField` with per-field error clearing, `validate` with its three rules including the e-mail pattern, and the gating done by `submitForm`.
- **The settings and filter contexts.** These hold the theme toggle, the page size, the search text and the sort order.
- **The `usePolling` hook as a state machine.** Its events are start, stop, refetch, fetch outcomes, mount and unmount.
- **The user profiles component.** It covers the success type guard, the id-keyed dictionary built by a last-write-wins reduce, the previews, and the view chosen from the state.

Each source file becomes one module. Values are immutable datatypes, operations are functions or methods with contracts, and properties that relate several calls are lemmas. React's state setters are modelled as immediate updates of one record. Timers, promises and `fetch` become parameters or events:

- a timer handle is supplied by the caller;
- a fetch is split into the moment it begins and the moment its outcome arrives;
- the calls the hook makes on the outside world are returned as a list of effects.

Files:

| file | module | models |
|---|---|---|
| wrappers.dfy | Wrappers | `Option`, standing for `undefined` / `null` |
| reformat_string.dfy | ReformatString | `utils/reformatString.ts` |
| reformat_string_examples.dfy | ReformatStringExamples | the documented examples of `reformatString` |
| two_numbers.dfy | TwoNumbers | `utils/twoNumbers.ts` |
| spiral_matrix.dfy | SpiralMatrix | `utils/spiralMatrix2.ts` |
| counter_component.dfy | CounterComponent | `Counter/CounterComponent.tsx` |
| counter.dfy | Counter | `Counter/Counter.tsx` |
| settings.dfy | Settings | `contexts/SettingsContext.tsx` |
| filter.dfy | Filter | `contexts/FilterContext.tsx` |
| polling.dfy | Polling | `polling/usePolling.ts` |
| user_form.dfy | UserForm | `Users/UserFormContext/UserFormContext.tsx` |
| user_profiles.dfy | UserProfiles | `UserProfiles/UserProfilesComponent.tsx` |

## Model

| member | source | states |
|---|---|---|
| ReformatString.StripSpec | frontend/frontend-app/src/app/utils/reformatString.ts:25 | After the `[ -]` replacement no space or dash is left, and every other character occurs exactly as often as in the input. |
| ReformatString.Slice | frontend/frontend-app/src/app/utils/reformatString.ts:35-43 | `slice` clamps both ends to the string: an in-range slice is the substring, an end past the length stops at the length, and a start past the length gives the empty string. |
| ReformatString.ReformatStringLoop | frontend/frontend-app/src/app/utils/reformatString.ts:24-46 | The loop as written walks in steps of three up to `limit`, then pushes the tail as one block or as two and two. Its output is the reference grouping of the kept characters, joined with spaces, followed by `;`. |
| ReformatString.ConcatGroups | frontend/frontend-app/src/app/utils/reformatString.ts:34-44 | Gluing the blocks back together gives exactly the kept characters, in order. |
| ReformatString.GroupSizes | frontend/frontend-app/src/app/utils/reformatString.ts:31-44 | The kept length n decides every block length. There are (n+2)/3 blocks. If n mod 3 = 0 all blocks are threes. If n mod 3 = 2 only the last block is a two. If n mod 3 = 1 and n >= 4 exactly the last two blocks are twos. A single character is one block. |
| ReformatString.GroupSizesByIndex | frontend/frontend-app/src/app/utils/reformatString.ts:31-44 | The number of blocks is (n+2)/3 for n kept characters, and the length of each block is fixed by n and the block's position alone. |
| ReformatString.GroupsAreNonEmptyPieces | frontend/frontend-app/src/app/utils/reformatString.ts:34-44 | Every block is non-empty and made of characters of the kept string. |
| ReformatString.SplitJoin | frontend/frontend-app/src/app/utils/reformatString.ts:46 | Joining space-free blocks with single spaces and splitting the result on spaces gives the blocks back. |
| ReformatString.ReformatEndsWithSemicolon | frontend/frontend-app/src/app/utils/reformatString.ts:46 | The output is non-empty and its last character is `;`. An input without `;` has no other `;` in the output. |
| ReformatString.ReformatRoundTrip | frontend/frontend-app/src/app/utils/reformatString.ts:25-46 | Deleting the final `;` and every space from the output gives the input with all spaces and dashes removed, order kept. |
| ReformatString.ReformatBlocks | frontend/frontend-app/src/app/utils/reformatString.ts:25-46 | Splitting the output (without `;`) on single spaces gives exactly the blocks, none of which contains a space or a dash. |
| ReformatString.ReformatBlockSizesTwoOrThree | frontend/frontend-app/src/app/utils/reformatString.ts:31-44 | With at least two kept characters, every block has length 2 or 3. |
| ReformatString.StripAppend | frontend/frontend-app/src/app/utils/reformatString.ts:25 | Removing the separators distributes over concatenation. |
| ReformatStringExamples.ReformatExampleMixed | frontend/frontend-app/src/app/utils/reformatString.ts:7 | "AA-44 BB 55CD 83FG" becomes "AA4 4BB 55C D83 FG;". |
| ReformatStringExamples.ReformatExampleDigits | frontend/frontend-app/src/app/utils/reformatString.ts:11 | "00-44 48 5555 8361" becomes "004 448 555 583 61;". |
| ReformatStringExamples.ReformatExampleTail | frontend/frontend-app/src/app/utils/reformatString.ts:12 | "0 - 22 1985--324" becomes "022 198 53 24;". |
| ReformatStringExamples.ReformatExampleExact | frontend/frontend-app/src/app/utils/reformatString.ts:13 | "ABC372654" becomes "ABC 372 654;". |
| TwoNumbers.AddTwoNumbers | frontend/frontend-app/src/app/utils/twoNumbers.ts:20-38 | For digit lists, the result is again a digit list and its little-endian value is the sum of the inputs' values. Two empty lists give the empty list. |
| TwoNumbers.AddLoopSum | frontend/frontend-app/src/app/utils/twoNumbers.ts:25-36 | From any point of the loop with a carry of 0 or 1, the remaining output holds digits 0..9 only, and its value is the two remaining values plus the carry. |
| TwoNumbers.AddLoopLength | frontend/frontend-app/src/app/utils/twoNumbers.ts:25-36 | From any point of the loop, the remaining output is as long as the longer remaining input. It is one node longer exactly when the sum plus carry does not fit in that many digits. |
| TwoNumbers.AddTwoNumbersLength | frontend/frontend-app/src/app/utils/twoNumbers.ts:25 | The sum list has max(len l1, len l2) nodes or one more. The extra node appears exactly when the sum reaches 10^max. |
| TwoNumbers.AddLoopCommutes | frontend/frontend-app/src/app/utils/twoNumbers.ts:25-36 | From any point of the loop and for either carry, exchanging the two cursors gives the same remaining output. |
| TwoNumbers.AddTwoNumbersCommutes | frontend/frontend-app/src/app/utils/twoNumbers.ts:26-28 | Swapping the operands gives the same list. |
| TwoNumbers.ValueBounds | frontend/frontend-app/src/app/utils/twoNumbers.ts:12-19 | A digit list of length k denotes a value in 0 .. 10^k - 1. |
| TwoNumbers.CreateList | frontend/frontend-app/src/app/utils/twoNumbers.ts:47-56 | The list has as many nodes as the array, and it is null exactly for the empty array. |
| TwoNumbers.ElementsCreateList | frontend/frontend-app/src/app/utils/twoNumbers.ts:47-56 | Reading the list back gives the array, in order. |
| TwoNumbers.CreateListElements | frontend/frontend-app/src/app/utils/twoNumbers.ts:47-56 | Every list is the list built from its own elements, so the two directions are inverse. |
| TwoNumbers.AddTwoNumbersExample | frontend/frontend-app/src/app/utils/twoNumbers.ts:79-94 | [2,4,3] + [5,6,4] (342 + 465) gives [7,0,8]. |
| SpiralMatrix.GenerateMatrix | frontend/frontend-app/src/app/utils/spiralMatrix2.ts:1-47 | The result is n rows of n cells. The cells hold 1 .. n*n, each value exactly once. Values k and k+1 sit in orthogonally adjacent cells. Row 0 reads 1 .. n left to right, and the last column continues n+1 .. 2n-1 downwards. |
| SpiralMatrix.SpiralPass | frontend/frontend-app/src/app/utils/spiralMatrix2.ts:16-44 | One pass of the outer loop keeps the walk invariant: the k-th cell written holds k, every cell outside the shrunk rectangle is filled, and the rest is still 0. The pass also strictly increases `current`, so the loop terminates. |
| SpiralMatrix.FillTop | frontend/frontend-app/src/app/utils/spiralMatrix2.ts:18-21 | The top row of the current rectangle is written left to right with the next values, and `top` moves down. |
| SpiralMatrix.FillRight | frontend/frontend-app/src/app/utils/spiralMatrix2.ts:24-27 | The right column is written top to bottom with the next values, and `right` moves left. |
| SpiralMatrix.FillBottom | frontend/frontend-app/src/app/utils/spiralMatrix2.ts:30-35 | When rows remain, the bottom row is written right to left with the next values, and `bottom` moves up. |
| SpiralMatrix.FillLeft | frontend/frontend-app/src/app/utils/spiralMatrix2.ts:38-43 | When columns remain, the left column is written bottom to top with the next values, and `left` moves right. |
| SpiralMatrix.SpiralDone | frontend/frontend-app/src/app/utils/spiralMatrix2.ts:16 | Once `current` exceeds n*n, the walk covers every cell, and the matrix is a square, in range, duplicate-free, onto 1 .. n*n, stepwise adjacent and clockwise. |
| CounterComponent.CounterReducer | frontend/frontend-app/src/app/components/EngineComponents/Counter/CounterComponent.tsx:20-42 | Increment adds one and decrement subtracts one. A reset with a payload yields the payload, and a reset without one yields the initial state, count 0. |
| CounterComponent.IncrementDecrementInverse | frontend/frontend-app/src/app/components/EngineComponents/Counter/CounterComponent.tsx:25-29 | Increment then decrement, and decrement then increment, give back the original state. |
| CounterComponent.ResetForgets | frontend/frontend-app/src/app/components/EngineComponents/Counter/CounterComponent.tsx:31-33 | A reset does not depend on the state it is applied to. |
| CounterComponent.ResetZeroPayload | frontend/frontend-app/src/app/components/EngineComponents/Counter/CounterComponent.tsx:18-33 | `??` falls back only on an absent payload: an explicit 0 is kept and agrees with the fallback. |
| CounterComponent.ResetIdempotent | frontend/frontend-app/src/app/components/EngineComponents/Counter/CounterComponent.tsx:31-33 | Resetting twice with one payload is resetting once. |
| CounterComponent.RunCounts | frontend/frontend-app/src/app/components/EngineComponents/Counter/CounterComponent.tsx:25-29 | Without resets, a dispatched sequence moves the count by the number of increments minus the number of decrements. |
| CounterComponent.RunAfterReset | frontend/frontend-app/src/app/components/EngineComponents/Counter/CounterComponent.tsx:31-33 | Whatever state and actions came before, the outcome after a reset depends only on that reset and what follows. |
| CounterComponent.RunAppend | frontend/frontend-app/src/app/components/EngineComponents/Counter/CounterComponent.tsx:20-42 | Dispatching two sequences one after the other equals dispatching their concatenation. |
| Counter.Reducer | frontend/frontend-app/src/app/components/EngineComponents/Counter/Counter.tsx:12-30 | `increment` adds one, `decrement` subtracts one and `reset` yields count 0. An unrecognised tag leaves the state unchanged. |
| Counter.PayloadIgnored | frontend/frontend-app/src/app/components/EngineComponents/Counter/Counter.tsx:7-30 | The next state depends on the tag and the state alone, never on the payload. |
| Counter.ChangesExactlyOnKnown | frontend/frontend-app/src/app/components/EngineComponents/Counter/Counter.tsx:13-28 | The state changes exactly under increment, decrement, or a reset of a non-zero count. |
| Counter.IncrementDecrementInverse | frontend/frontend-app/src/app/components/EngineComponents/Counter/Counter.tsx:14-21 | Increment and decrement undo each other, whatever their payloads. |
| Counter.AgreesWithCounterComponent | frontend/frontend-app/src/app/components/EngineComponents/Counter/Counter.tsx:12-35 | On its three tags this reducer gives the same count as the other counter's reducer (reset without a payload), and both start at 0. |
| Settings.Provide | frontend/frontend-app/src/app/contexts/SettingsContext.tsx:27-31 | A given prop is used as it is. An absent theme gives `light` and an absent page size gives 20. |
| Settings.ToggleTheme | frontend/frontend-app/src/app/contexts/SettingsContext.tsx:32-34 | The theme changes and the page size does not. |
| Settings.ChangePageSize | frontend/frontend-app/src/app/contexts/SettingsContext.tsx:35-36 | The page size becomes the argument and the theme does not change. |
| Settings.ToggleInvolution | frontend/frontend-app/src/app/contexts/SettingsContext.tsx:33 | Toggling twice is the identity. |
| Settings.ToggleMaps | frontend/frontend-app/src/app/contexts/SettingsContext.tsx:33 | `light` goes to `dark` and `dark` goes to `light`. |
| Settings.ToggleCommutesWithChangePageSize | frontend/frontend-app/src/app/contexts/SettingsContext.tsx:32-36 | The two setters commute. |
| Settings.ChangePageSizeLastWins | frontend/frontend-app/src/app/contexts/SettingsContext.tsx:35-36 | Of two page-size changes only the later counts. |
| Filter.DoSearch | frontend/frontend-app/src/app/contexts/FilterContext.tsx:28 | The search text becomes `q`, and the sort field and direction are unchanged. |
| Filter.DoSort | frontend/frontend-app/src/app/contexts/FilterContext.tsx:29-30 | As written: the sort field becomes `field`, the search is unchanged, and `sortDir` is unchanged. |
| Filter.SearchSortCommute | frontend/frontend-app/src/app/contexts/FilterContext.tsx:28-30 | A search and a sort commute. |
| Filter.DoSortDropsDirection | frontend/frontend-app/src/app/contexts/FilterContext.tsx:27-30 | From the initial state, asking for a descending sort leaves the order ascending. The intended update would make it descending. |
| Filter.RunKeepsAscending | frontend/frontend-app/src/app/contexts/FilterContext.tsx:27-30 | As written, no sequence of calls ever changes the visible direction from `asc`. |
| Filter.DoSortIntended | frontend/frontend-app/src/app/contexts/FilterContext.tsx:29-30 | The intended update sets both the sort field and the direction, and keeps the search. |
| Filter.RunIntendedFollowsLastSort | frontend/frontend-app/src/app/contexts/FilterContext.tsx:28-30 | With the intended update, the field and direction are those of the latest sort call. |
| Filter.RunAgreesOnSearchAndField | frontend/frontend-app/src/app/contexts/FilterContext.tsx:28-30 | On every call sequence, the update as written and the intended one agree on the search text and the sort field. |
| Polling.Interval | frontend/frontend-app/src/app/components/polling/usePolling.ts:47 | The interval defaults to 5000 only when it is absent. |
| Polling.Immediate | frontend/frontend-app/src/app/components/polling/usePolling.ts:47 | `immediate` defaults to true only when it is absent. |
| Polling.FetchBegin | frontend/frontend-app/src/app/components/polling/usePolling.ts:60-63 | A fetch sets `loading` and calls the service once, changing nothing else. |
| Polling.FetchSuccess | frontend/frontend-app/src/app/components/polling/usePolling.ts:63-75 | While mounted, a result sets `data`, clears `error` and ends `loading`. Unmounted, nothing changes. |
| Polling.FetchFailure | frontend/frontend-app/src/app/components/polling/usePolling.ts:68-75 | While mounted, an error is stored, `loading` ends, and `onError` is called once if given. Unmounted, nothing changes and nothing is called. |
| Polling.Start | frontend/frontend-app/src/app/components/polling/usePolling.ts:80-85 | With a timer installed, nothing happens. Otherwise polling shows and the new timer is recorded. The effects are exactly these: one service call when `immediate` holds, then the installation of the interval, and nothing else. `loading` is set exactly when `immediate` holds. Data, error and the mounted flag are unchanged. |
| Polling.Stop | frontend/frontend-app/src/app/components/polling/usePolling.ts:88-94 | Without a timer nothing happens. Otherwise exactly that timer is cleared and polling stops showing. |
| Polling.Refetch | frontend/frontend-app/src/app/components/polling/usePolling.ts:97-99 | A refetch is one more fetch. |
| Polling.Mount | frontend/frontend-app/src/app/components/polling/usePolling.ts:102-104 | Mounting marks the hook mounted and then starts it. From idle, polling shows and the new timer is recorded. The effects are exactly these: one service call when `immediate` holds, then the installation of the interval, and nothing else. `loading` is set exactly when `immediate` holds. Data and error are unchanged. With a timer already installed, nothing else changes. |
| Polling.Unmount | frontend/frontend-app/src/app/components/polling/usePolling.ts:105-108 | Unmounting leaves the hook unmounted with no timer, clears the installed timer if there was one, and keeps data, error and loading. |
| Polling.StartIdempotent | frontend/frontend-app/src/app/components/polling/usePolling.ts:81 | A second start does nothing. |
| Polling.StopIdempotent | frontend/frontend-app/src/app/components/polling/usePolling.ts:89 | A second stop does nothing. |
| Polling.StartThenStop | frontend/frontend-app/src/app/components/polling/usePolling.ts:80-94 | From idle, a stop after a start clears exactly the timer the start installed and keeps data and error. |
| Polling.HandleConsistent | frontend/frontend-app/src/app/components/polling/usePolling.ts:80-94 | Every event keeps `isPolling` true exactly while a timer is installed. |
| Polling.RunConsistent | frontend/frontend-app/src/app/components/polling/usePolling.ts:80-94 | The invariant `isPolling` iff timer installed holds after any sequence of events. |
| Polling.OutcomesIgnoredWhenUnmounted | frontend/frontend-app/src/app/components/polling/usePolling.ts:64-75 | Unmounted, a fetch outcome changes no state and calls nothing. |
| Polling.UnmountedOutcomesInert | frontend/frontend-app/src/app/components/polling/usePolling.ts:64-107 | After unmounting, any sequence of outcomes, stops and unmounts leaves data, error and loading as they were. |
| Polling.MountDefaults | frontend/frontend-app/src/app/components/polling/usePolling.ts:80-104 | Mounting with default options fetches at once, installs a 5000 ms interval and shows polling. |
| Polling.SuccessAfterFailure | frontend/frontend-app/src/app/components/polling/usePolling.ts:63-75 | While mounted, a success after a failure shows the result and clears the error. |
| UserForm.Provide | frontend/frontend-app/src/app/components/Users/UserFormContext/UserFormContext.tsx:68-69 | The form starts with the initial data and no errors. |
| UserForm.UpdateField | frontend/frontend-app/src/app/components/Users/UserFormContext/UserFormContext.tsx:76-78 | The field takes the value, while `id` and the other fields are unchanged. The field's error is cleared, and the other errors are kept as they were. |
| UserForm.UpdateFieldLastWins | frontend/frontend-app/src/app/components/Users/UserFormContext/UserFormContext.tsx:76-78 | Two updates of one field leave only the later value. |
| UserForm.UpdateFieldsCommute | frontend/frontend-app/src/app/components/Users/UserFormContext/UserFormContext.tsx:76-78 | Updates of different fields commute. |
| UserForm.TrimSpec | frontend/frontend-app/src/app/components/Users/UserFormContext/UserFormContext.tsx:88-90 | `trim` returns a slice of the input with only whitespace cut off either side, and the result neither starts nor ends with whitespace. |
| UserForm.TrimEmpty | frontend/frontend-app/src/app/components/Users/UserFormContext/UserFormContext.tsx:88-90 | The trimmed string is empty exactly when the input is all whitespace. |
| UserForm.EmailMatchIff | frontend/frontend-app/src/app/components/Users/UserFormContext/UserFormContext.tsx:89 | The pattern `^[^@\s]+@[^@\s]+\.[^@\s]+$` accepts exactly the addresses with an `@` at some position: a non-empty part before it without `@` or whitespace, and a domain after it without `@` or whitespace that has a `.` neither first nor last. |
| UserForm.EmailShapeOneAt | frontend/frontend-app/src/app/components/Users/UserFormContext/UserFormContext.tsx:89 | An accepted address has exactly one `@` and no whitespace. |
| UserForm.NewErrors | frontend/frontend-app/src/app/components/Users/UserFormContext/UserFormContext.tsx:87-90 | There is a name error iff the trimmed name is empty, an e-mail error iff the pattern rejects the address, and a role error iff the trimmed role is empty. Each carries its message. |
| UserForm.Validate | frontend/frontend-app/src/app/components/Users/UserFormContext/UserFormContext.tsx:86-93 | The data is kept and the errors are replaced by the new ones. The form is valid iff there are none. |
| UserForm.ValidateRules | frontend/frontend-app/src/app/components/Users/UserFormContext/UserFormContext.tsx:88-92 | The same rules in the form's own terms: blank name, malformed address, blank role. The form is valid iff the name and role are not blank and the address is well formed. |
| UserForm.ValidateForgetsOldErrors | frontend/frontend-app/src/app/components/Users/UserFormContext/UserFormContext.tsx:87-91 | Errors from an earlier run do not influence the outcome: only the data decides. |
| UserForm.SubmitForm | frontend/frontend-app/src/app/components/Users/UserFormContext/UserFormContext.tsx:98-101 | `onSubmit` is called, with the current data, iff validation passes, and the errors are those of the validation. |
| UserForm.SubmitBlankForm | frontend/frontend-app/src/app/components/Users/UserFormContext/UserFormContext.tsx:88-99 | A blank form is refused with all three messages. |
| UserForm.SubmitGoodForm | frontend/frontend-app/src/app/components/Users/UserFormContext/UserFormContext.tsx:88-101 | A well-formed record is submitted as it is and a stale error is dropped. |
| UserProfiles.IsSuccessNarrows | frontend/frontend-app/src/app/components/EngineComponents/UserProfiles/UserProfilesComponent.tsx:80-81 | The guard holds exactly for the success variant. |
| UserProfiles.DictionarySpec | frontend/frontend-app/src/app/components/EngineComponents/UserProfiles/UserProfilesComponent.tsx:112-116 | The dictionary's keys are exactly the ids in `data`, and each id maps to the last profile carrying it. |
| UserProfiles.DictionaryUniqueIds | frontend/frontend-app/src/app/components/EngineComponents/UserProfiles/UserProfilesComponent.tsx:112-116 | With unique ids, every profile is found under its own id. |
| UserProfiles.DuplicateIdExample | frontend/frontend-app/src/app/components/EngineComponents/UserProfiles/UserProfilesComponent.tsx:113 | Two profiles with one id leave only the later in the dictionary. |
| UserProfiles.Previews | frontend/frontend-app/src/app/components/EngineComponents/UserProfiles/UserProfilesComponent.tsx:140 | There is one preview per profile, in order, with the profile's id, name and e-mail. |
| UserProfiles.PreviewIdsAreKeys | frontend/frontend-app/src/app/components/EngineComponents/UserProfiles/UserProfilesComponent.tsx:112-140 | The previews list exactly the ids the dictionary is keyed by. |
| UserProfiles.LoadProfiles | frontend/frontend-app/src/app/components/EngineComponents/UserProfiles/UserProfilesComponent.tsx:105-122 | A completed load always sets a response. A thrown error gives the error `Network error`. A received response is stored. A success replaces the dictionary by the one the reduce builds from the returned profiles, so its keys are exactly the returned ids and each id maps to the last profile carrying it. Anything else keeps the dictionary. |
| UserProfiles.LoadReplacesDictionary | frontend/frontend-app/src/app/components/EngineComponents/UserProfiles/UserProfilesComponent.tsx:110-118 | A success replaces the dictionary whole: nothing of the previous one survives. |
| UserProfiles.Render | frontend/frontend-app/src/app/components/EngineComponents/UserProfiles/UserProfilesComponent.tsx:127-140 | No response shows loading. An error shows its message. A success shows the previews of the returned profiles: one per profile, in order, with its id, name and e-mail. |
| UserProfiles.NetworkErrorShown | frontend/frontend-app/src/app/components/EngineComponents/UserProfiles/UserProfilesComponent.tsx:119-133 | A failed load shows `Network error` and keeps the dictionary. |

## Left out

- The event-loop phase demonstration script (`frontend/scripts/eventloop-phases.mjs`) is not part of this model. What it shows is how the runtime schedules timers, I/O and microtasks, not logic of its own.
- Numbers follow mathematical integers, not JavaScript doubles: no rounding, overflow or NaN is modelled. Counts, page sizes, digits and timestamps are `int`.
- `fetch`, `res.json()` and the `service` promise are not modelled. A load or fetch is represented only by its outcome (a response or a thrown error), so malformed JSON is the same as a thrown error.
- `setInterval`, `clearInterval` and timer firing are represented by caller-supplied handles and effects. Each firing of the interval is a `RefetchCall` event.
- React rendering, batching and asynchronous ordering are not modelled. State setters are immediate updates. The rendered markup of the profiles component is reduced to the choice of view.
- `printList` and the console demonstration in `twoNumbers.ts` (lines 63-98) only print, and only the sum they show is modelled.
- TwoNumbers.AddTwoNumbers: requires digits 0..9 in both lists. The source also runs on other numbers, and a negative digit can make its loop never end, since the carry stays -1.
- That `addTwoNumbers` does not modify its inputs holds by construction, because lists are immutable values.
- SpiralMatrix.GenerateMatrix: takes `n: nat`. For a negative `n` the source builds an empty matrix, yet `current <= n*n` stays true with no cell written, so it never returns.
- The spiral matrix is a sequence of rows rather than a mutable array. Each write is a functional update of one cell.
- `getUserDectionary` (`UserProfilesComponent.tsx` lines 63-71) builds a dictionary and discards it, so nothing of it is observable.
- Whitespace for `trim` and the regular expression's `\s` is the ASCII set: space, tab, line feed, vertical tab, form feed and carriage return. The other Unicode spaces that JavaScript also counts are not modelled.
- The action tag of `Counter.tsx` is a free string, so its `default` branch is modelled, although the declared union never reaches it.
- Writing `[field]: undefined` into the error record is modelled as removing the key. Both read back as "no error".
- `useUserForm` throwing outside a provider, and the context plumbing of all providers, are React wiring.
- Polling.Unmount: ensures `isPolling` is false only when the state was consistent beforehand. That holds in every reachable state (Polling.RunConsistent).
- The `never` exhaustiveness branch of `counterReducer` is unreachable for the closed action datatype and is not modelled.
- UserProfiles.Render: follows the declared `Date` type of `createdAt` and `updatedAt`, kept as opaque timestamps. The response is `res.json()` cast to `ApiResponse`, and parsed JSON holds no `Date`, so `createdAt` arrives as a string, number or nothing. The dictionary listing (`UserProfilesComponent.tsx` lines 154-164) then calls `createdAt.toLocaleDateString()` on it, and the success view throws a `TypeError` for any non-empty `data`. The model shows the previews instead and does not model that thrown render.
- UserProfiles.DictionarySpec: the dictionary is a map from ids to profiles, not a JavaScript object. With `{}` as the accumulator, a profile whose id is `__proto__` replaces the object's prototype and adds no own key, so the source does not keep that profile as an entry. The model does.
- UserProfiles.PreviewIdsAreKeys: inherits the same gap. With a profile whose id is `__proto__`, the source's dictionary has no such key while the previews list that id; the model's dictionary keeps it, so the previews and the keys agree.
- ReformatString.Reformat: characters are Unicode code points. JavaScript's `length` and `slice` count UTF-16 code units, so block lengths differ for characters outside the Basic Multilingual Plane; the documented input is ASCII letters, digits, spaces and dashes, where the two agree.

## Findings

| source | as written | input that shows it | evidently intended | confidence | as-written member | corrected member |
|---|---|---|---|---|---|---|
| frontend/frontend-app/src/app/contexts/FilterContext.tsx:29-30 | `doSort` spreads the previous state and writes `sortBy` and a key `dir` that the state does not have. `sortDir` is never updated. | `doSort('name', 'desc')` from the initial state leaves `sortDir` at `asc`. | Write the direction into `sortDir`. | not executed | Filter.DoSortDropsDirection | Filter.RunIntendedFollowsLastSort |

The filter context is modelled as written (`Filter.Run`). The intended update (`Filter.DoSortIntended`, `Filter.RunIntended`) is defined beside it, and `Filter.RunAgreesOnSearchAndField` proves that the two agree on everything except the direction.
