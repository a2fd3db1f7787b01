# Emotion diary and tap counter: a Dafny model

This project models the local decision logic and state of two small React Native
demo apps.

- **Emotion diary, auth screen.** `handleAuth` runs a chain of guards: both fields
  filled in, then (sign-up only) password equal to its confirmation, then at least
  six characters. After that it calls the hosted authentication service and maps
  the service's error code to a message. `toggleMode` switches between login and
  sign-up and clears the form. The screen holds `isLogin`, `email`, `password`,
  `confirmPassword` and `loading`.
- **Emotion diary, diary screen.** There is a fixed set of eight emotions. The list
  of entries is saved to, deleted from and reloaded from a hosted document store:
  `handleSave`, the confirmed branch of `handleDelete`, and `loadEntries`.
  `formatDate` and `getRelativeDate` produce the date labels.
- **Tap counter.** A press adds one to `count`; reset sets it to 0.

Modules:

- `JsStrings` (js_strings.dfy) holds the JavaScript string built-ins the screens
  use, on `seq<char>`: `trim`, `padStart`, `split`, `String(n)`, and `length` in
  UTF-16 code units.
- `DiaryDates` (diary_dates.dfy): `formatDate` and `getRelativeDate`.
- `Auth` (auth.dfy): the auth screen.
- `Diary` (diary.dfy): the diary screen.
- `Counter` (counter.dfy): the tap counter.
- `Options` and `Ui` (common.dfy): `Option` and the `Alert(title, message)` a
  handler shows.

Each screen is a class whose fields are the React state. A state setter becomes a
field assignment. Every service call and clock reading becomes a parameter:

- the authentication service's answer (`Succeeded` or `Failed(code)`);
- the store's answers: `Added(id)` or `AddFailed` for a save, `Fetched(docs)` or
  `FetchFailed` for a load, `Removed` or `RemoveFailed` for a delete;
- `Timestamp.now()` as an integer `createdAt`, and `new Date().toISOString()` as a
  string `now`;
- `now - date` as a millisecond difference, and the local-time `Date` getters as
  already-decomposed `DateFields`.

Each handler that sets a busy flag around its `await` (`handleAuth` and
`loadEntries` set `loading`, `handleSave` sets `saving`) is split at the `await`:

- `Begin…` runs up to the `await` and returns the request it sends.
- `Complete…` takes the service's answer.
- `Handle…` (or `LoadEntries`) runs the two halves back to back.

The flag's value between the halves is its value while the call is in flight.
After `Complete…` it is false, whatever the answer.

What is proved:

- **Auth guards.** `Validate` lets an attempt through exactly when every guard
  holds. Lemmas pin down the order of the guards and show that login mode never
  reads the confirmation field. Each of the six known error codes has its own
  message, and any other code gets the generic one. Toggling twice gives back the
  mode with every field empty.
- **Diary list.**
  - A save with nothing selected changes nothing and writes nothing.
  - A successful save puts the new entry at index 0, ahead of the old list
    unchanged. Its memo is the trimmed memo, and its emotion is one of the eight.
  - A failed save or delete leaves the list as it was.
  - Delete is a filter that keeps order (it distributes over concatenation). It
    keeps every other entry with its multiplicity, and an absent id changes
    nothing.
  - A load replaces the list with the fetched documents in their order.
- **Dates.**
  - `formatDate` loses nothing: it parses back to its fields.
  - In the getters' ranges, every field after the year is two digits.
  - `split(' ')` yields the date half and the time half.
  - The buckets of `getRelativeDate` hold, stated on the millisecond difference.
  - A future date shows a negative count of days ("-1일 전").
- **Counter.** The count equals the number of presses since the last reset, or
  since start, so it is never negative.

## Model

| member | source | states |
|---|---|---|
| `Auth.Validate` | emotion-diary/AuthScreen.js:27-40 | an attempt passes exactly when email and password are non-empty, sign-up's confirmation matches, and the password is at least 6 UTF-16 code units |
| `Auth.RejectionMessage` | emotion-diary/AuthScreen.js:28-38 | each guard's notice, none of them the generic failure message |
| `Auth.EmptyFieldsRejectedFirst` | emotion-diary/AuthScreen.js:27-30 | an empty email or password is rejected with the "enter email and password" reason whatever the mode and the other fields |
| `Auth.LoginIgnoresConfirmation` | emotion-diary/AuthScreen.js:32-35 | in login mode the verdict does not depend on `confirmPassword` |
| `Auth.MismatchReportedBeforeLength` | emotion-diary/AuthScreen.js:32-40 | in sign-up mode with both fields filled, a mismatch is reported whatever the password's length |
| `Auth.ShortPasswordRejected` | emotion-diary/AuthScreen.js:37-40 | once the earlier guards pass, a password under 6 code units is rejected in both modes |
| `Auth.ShortMismatchExample` | emotion-diary/AuthScreen.js:27-40 | sign-up with mismatched 3-character passwords reports the mismatch, not the length |
| `Auth.ErrorMessage` | emotion-diary/AuthScreen.js:54-75 | the generic message comes out exactly for codes outside the six listed ones |
| `Auth.ErrorMessagesDistinct` | emotion-diary/AuthScreen.js:56-75 | two different listed codes get two different messages |
| `Auth.CallFor` | emotion-diary/AuthScreen.js:45-51 | sign-in is used in login mode and sign-up otherwise, with the form's email and password |
| `Auth.CompletionAlert` | emotion-diary/AuthScreen.js:51-77 | no alert exactly after a successful sign-in; a failure shows the code's mapped message under '오류'; a sign-up success the welcome |
| `Auth.ToggleTwice` | emotion-diary/AuthScreen.js:83-88 | two toggles restore the mode with all three fields empty, and differ from the start exactly when some field was filled |
| `Auth.Toggled` | emotion-diary/AuthScreen.js:83-88 | the form after `toggleMode`: the other mode and all three fields empty; `ToggleTwice` proves two toggles restore the mode |
| `Auth.AuthScreen.constructor` | emotion-diary/AuthScreen.js:20-24 | the screen starts in login mode with empty fields and not loading |
| `Auth.AuthScreen.EditEmail` | emotion-diary/AuthScreen.js:112 | typing sets `email` and nothing else |
| `Auth.AuthScreen.EditPassword` | emotion-diary/AuthScreen.js:126 | typing sets `password` and nothing else |
| `Auth.AuthScreen.EditConfirmPassword` | emotion-diary/AuthScreen.js:139 | typing sets `confirmPassword` and nothing else |
| `Auth.AuthScreen.ToggleMode` | emotion-diary/AuthScreen.js:83-88 | the mode is negated and email, password and confirmation become empty; `loading` is untouched |
| `Auth.AuthScreen.BeginAuth` | emotion-diary/AuthScreen.js:26-42 | a rejected attempt shows the guard's notice, makes no call and leaves `loading` as it was; a valid one sets `loading` and returns the call for the mode |
| `Auth.AuthScreen.CompleteAuth` | emotion-diary/AuthScreen.js:44-80 | `loading` ends false whatever the answer; a sign-up success shows the welcome, a sign-in success nothing, a failure the code's message |
| `Auth.AuthScreen.HandleAuth` | emotion-diary/AuthScreen.js:26-81 | the service is called exactly when every guard passes; the alert and the final `loading` follow the two halves above; the form fields are untouched |
| `Diary.EntryOf` | emotion-diary/App.js:64-71 | an entry keeps the document's id, emotion and memo; its date is the converted `createdAt` when present and non-empty, else the stored `date` |
| `Diary.CollectEntries` | emotion-diary/App.js:63-72 | one entry per fetched document, in the order the query returned them |
| `Diary.WithoutId` | emotion-diary/App.js:144 | the filtered list is never longer than the list |
| `Diary.WithoutIdMembers` | emotion-diary/App.js:144 | the result holds exactly the entries whose id differs from the deleted one |
| `Diary.WithoutIdAppend` | emotion-diary/App.js:144 | deleting from a concatenation is concatenating the deletions, so kept entries stay in their original order |
| `Diary.WithoutAbsentId` | emotion-diary/App.js:144 | deleting an id no entry carries leaves the list unchanged |
| `Diary.WithoutIdMultiplicity` | emotion-diary/App.js:144 | every entry with another id keeps its number of occurrences; none with the id remains |
| `Diary.WithoutIdIdempotent` | emotion-diary/App.js:144 | deleting the same id twice is deleting it once |
| `Diary.SaveThenDelete` | emotion-diary/App.js:113-144 | deleting a just-saved entry whose id was new restores the previous list |
| `Diary.EmotionsDistinct` | emotion-diary/App.js:29-38 | there are eight emotions with pairwise different emojis |
| `Diary.DiaryScreen.constructor` | emotion-diary/App.js:44-48 | the screen starts with nothing selected, an empty memo and list, `loading` true and `saving` false |
| `Diary.DiaryScreen.SelectEmotion` | emotion-diary/App.js:200-207 | selecting sets the selection to one of the eight emotions |
| `Diary.DiaryScreen.EditMemo` | emotion-diary/App.js:229 | typing sets `memo` and nothing else |
| `Diary.DiaryScreen.BeginLoad` | emotion-diary/App.js:58 | `loading` is set before the query |
| `Diary.DiaryScreen.CompleteLoad` | emotion-diary/App.js:61-80 | a successful query replaces the list with the documents' entries in query order; a failed one keeps the list and shows the connection alert; `loading` ends false |
| `Diary.DiaryScreen.LoadEntries` | emotion-diary/App.js:56-81 | the whole of `loadEntries`: as above, nothing but the list and `loading` changes |
| `Diary.DiaryScreen.BeginSave` | emotion-diary/App.js:84-101 | with nothing selected: the notice, no document, `saving` untouched; otherwise `saving` is set and the document carries the selected emotion (one of the eight), the trimmed memo and the clock readings |
| `Diary.DiaryScreen.CompleteSave` | emotion-diary/App.js:104-125 | on success the new entry is prepended to the old list and selection and memo are reset; on failure list, selection and memo are unchanged; `saving` ends false |
| `Diary.DiaryScreen.HandleSave` | emotion-diary/App.js:84-126 | the whole of `handleSave`: no selection means no write and no change; a successful save makes the list one longer with the new entry at index 0 and the old entries after it; a failed one changes only `saving` |
| `Diary.DiaryScreen.HandleDelete` | emotion-diary/App.js:138-148 | a confirmed delete leaves exactly the filtered list; a failed one leaves the list and shows the failure alert |
| `DiaryDates.TwoDigits` | emotion-diary/App.js:158-161 | `String(n).padStart(2, '0')` is at least two characters; `TwoDigitsWidth` and `TwoDigitsRoundTrip` prove it is exactly two digits in range and reads back as `n` |
| `DiaryDates.DateHalf` | emotion-diary/App.js:157-162 | the 'YYYY.MM.DD' part of `formatDate`, with the month shifted to 1-based; `FormatDateHalves` proves it is what `split(' ')[0]` returns |
| `DiaryDates.TimeHalf` | emotion-diary/App.js:160-162 | the 'HH:MM' part of `formatDate`; `FormatDateHalves` proves it is the second part of `split(' ')` |
| `DiaryDates.FormatDate` | emotion-diary/App.js:155-163 | `formatDate`: the date half, a space and the time half; `FormatDateRoundTrip` proves it parses back to its fields and `FormatDateLayout` fixes its width |
| `DiaryDates.RelativeDate` | emotion-diary/App.js:165-175 | `getRelativeDate`: a week or more shows the date half of `formatDate`; `RelativeDateBuckets` states the other buckets |
| `DiaryDates.DaysElapsed` | emotion-diary/App.js:168-169 | the day count is the floor of the millisecond difference over 86400000 |
| `DiaryDates.RelativeDateBuckets` | emotion-diary/App.js:165-175 | under one day: '오늘'; one to two days: '어제'; two to seven days: the day count and '일 전'; a week or more: the date half of `formatDate` |
| `DiaryDates.FutureDateShowsNegativeDays` | emotion-diary/App.js:169-173 | a negative difference yields a negative day count in the "days ago" label, '-1일 전' within one day ahead |
| `DiaryDates.FormatDateRoundTrip` | emotion-diary/App.js:155-163 | the rendering parses back to the year, zero-based month, day, hours and minutes it came from |
| `DiaryDates.FormatDateLayout` | emotion-diary/App.js:157-162 | in the getters' ranges month, day, hours and minutes are two characters each, the date half is the year plus 6 characters, the time half 5, and the rendering the year plus 12 |
| `DiaryDates.FormatDateHalves` | emotion-diary/App.js:162-174 | `split(' ')` of the rendering is the 'YYYY.MM.DD' half and the 'HH:MM' half, which split into their fields |
| `DiaryDates.TwoDigitsRoundTrip` | emotion-diary/App.js:158-161 | zero-padding never changes the number a field reads back as |
| `DiaryDates.TwoDigitsWidth` | emotion-diary/App.js:158-161 | numbers 0 to 99 are padded to exactly two digits |
| `JsStrings.Utf16Length` | emotion-diary/AuthScreen.js:37 | the password length counts each code point above U+FFFF twice: between the number of code points and twice that |
| `JsStrings.Utf16LengthOfBmp` | emotion-diary/AuthScreen.js:37 | for text without astral characters the length is the number of characters |
| `JsStrings.Trim` | emotion-diary/App.js:98 | the trimmed memo is a slice of the memo with only whitespace cut away, and neither of its ends is whitespace |
| `JsStrings.TrimIsUnique` | emotion-diary/App.js:98 | any such slice is the trimmed memo |
| `JsStrings.TrimIdempotent` | emotion-diary/App.js:98 | trimming twice is trimming once |
| `JsStrings.PadStart` | emotion-diary/App.js:158-161 | the result is as long as the input or the target width, whichever is larger |
| `JsStrings.PadStartShape` | emotion-diary/App.js:158-161 | the result ends with the input and is padded in front with the fill character only |
| `JsStrings.Split` | emotion-diary/App.js:174 | there is always at least one part |
| `JsStrings.SplitPartsFree` | emotion-diary/App.js:174 | no part holds the separator |
| `JsStrings.JoinSplit` | emotion-diary/App.js:174 | joining the parts with the separator gives back the string |
| `JsStrings.SplitJoin` | emotion-diary/App.js:174 | splitting a join of separator-free parts gives back the parts |
| `JsStrings.IntToString` | emotion-diary/App.js:162-173 | a number renders as a non-empty numeral that starts with '-' exactly when it is negative |
| `JsStrings.IntToStringRoundTrip` | emotion-diary/App.js:162-173 | the numeral reads back as the number |
| `Counter.Step` | counter-app/App.js:16-36 | one handler's effect on `count`: a press adds one, a reset gives 0; `RunSnoc` proves a run ends with the last tap's step |
| `Counter.Run` | counter-app/App.js:13-36 | the count after a sequence of taps from a given count; with no reset among them it is the start plus the number of taps |
| `Counter.Replay` | counter-app/App.js:13-36 | the count after a sequence of taps from `useState(0)`; with no reset it is the number of taps |
| `Counter.PressesSinceReset` | counter-app/App.js:16-36 | the reference count: never more than the taps, and all of them exactly when there was no reset |
| `Counter.ReplayCountsPresses` | counter-app/App.js:13-36 | the count after any sequence of taps is the number of presses since the last reset (or since start), hence never negative |
| `Counter.RunCountsPresses` | counter-app/App.js:16-36 | from any starting count, a run of taps leaves the presses since the last reset, plus the start if there was no reset |
| `Counter.TapCounter.constructor` | counter-app/App.js:13 | the counter starts at 0 with an empty history |
| `Counter.TapCounter.HandlePress` | counter-app/App.js:16-17 | a press sets `count` to one more and keeps it equal to the presses since the last reset |
| `Counter.TapCounter.HandleReset` | counter-app/App.js:34-36 | a reset sets `count` to 0 from any state |

## Left out

- The Firebase Auth and Firestore calls (`signInWithEmailAndPassword`, `createUserWithEmailAndPassword`, `addDoc`, `getDocs`, `query`/`orderBy`, `deleteDoc`) are library calls. Each becomes an outcome parameter. The descending `createdAt` order of `loadEntries` is the store's promise and is taken as the order of `Fetched(docs)`.
- The conversion `data.createdAt?.toDate?.()?.toISOString()` works on a library object. Its result arrives already computed, as `StoredDoc.createdAtIso`. Only the `|| data.date` fallback is modelled.
- `Alert.alert` is returned as an `Alert` value. `console.error`, the delete confirmation dialog and its cancel branch are left out. So is the `onAuthStateChanged` switch that follows a sign-in: that code is not part of this model.
- The clock (`Timestamp.now()`, `new Date()`) and the time-zone-dependent `Date` getters are parameters. `formatDate` and `getRelativeDate` take the getters' values and the millisecond difference `now - date`. Parsing an ISO string into a `Date` is not modelled.
- Each handler is atomic between its `await` points. Async interleaving is not modelled, nor the stale `entries` captured by the save and delete closures (emotion-diary/App.js:113, 144).
- The auth button is disabled while `loading` and the save button while `saving`; the refresh button stays enabled during a load. The handlers themselves do not check the flags, so the model does not either.
- `Auth.AuthScreen.HandleAuth`: the outcome of a sign-in (a signed-in session) is not modelled, only the alert and `loading`.
- `DiaryDates.DaysElapsed`: the day count is taken on integer milliseconds. The floating-point rounding of `diffTime / 86400000` before `Math.floor` is not modelled, nor `NaN` for an unparsable date.
- `Counter.TapCounter.HandlePress`: `count` is a mathematical integer. JavaScript numbers stop counting exactly above 2^53.
- The counter's press animation (`Animated.sequence`), all JSX rendering and every `StyleSheet`.
- The unit converter (unit-converter/App.js) is floating-point arithmetic and number formatting. It is not part of this model, and neither is the Firebase configuration file.
