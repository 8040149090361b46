# Teacher portfolio tracker: record store, sign-in gate and dashboard rules

This Dafny project models the logic of a browser app for teachers and administrators. Teachers record "practice" and "seminar" activities, optionally with a PDF proof. Administrators browse what every teacher has submitted. The model covers:

- **The record store** (`services/db.ts`), as the class `Store.Db`. Browser storage holds two separate keys, `tps_users` and `tps_activities`. Each key is one field of the class: `None` while the key is missing, otherwise the stored array. Reading a missing key gives `[]`. Each mutator reads its array, rebuilds it by appending, by `map` (replace by id) or by `filter` (delete by id), and writes it back. It touches only its own key.
- **The sign-in gate** (`pages/Login.tsx`, `handleSubmit`), as `Login.HandleSubmit`. Registration refuses an email that is already stored. Otherwise it appends the new user, who becomes the session user. Sign-in returns the first stored user whose email and password both match.
- **The dashboard** (`pages/Dashboard.tsx`), as the class `DashboardPage.Dashboard` over a `Db`. It covers:
  - the view for each role;
  - `filteredActivities` for a selected teacher;
  - the two tallies shown in the chart;
  - when the PDF-extraction service is called;
  - the merge rules for creating and for updating an activity;
  - deletion after confirmation.
- **The activity form** (`components/ActivityModal.tsx`), as the class `ActivityForm.ActivityModal`. It covers:
  - the blank default contents;
  - the field edits, and the `required` title and date inputs that gate submission;
  - the PDF-only file gate;
  - the draft handed to the dashboard: the base64 part of the data URL (`split(',')[1]`, modelled by an exact `Split`), and the stored file kept when no new file is chosen. That last fact holds for a form built from the activity at each opening; the form as the dashboard mounts it does not keep the file (see the finding below).
- **The records of `types.ts`**, as datatypes in `Types`. `UserRole` has two constructors, as does `ActivityType` (the `'PRACTICE' | 'SEMINAR'` union of `Activity.type`). Optional properties are `Option` fields.

`Partial<Activity>` is `Types.Draft`. Each of its keys is `Absent` or `Present(v)`. For an optional property, `Present(None)` is a key whose value is `undefined`. Such a key still overrides when spread, which is what `{...a, ...d}` (`Types.Overlay`) does. The activity form always supplies the `fileData` and `fileName` keys.

The extraction service, the random ids, `Date.now()`, the confirmation dialog's answer and the file the user picks are all parameters. The generic array operations (`filter`, `map` used as replace, `find`) live in `Seqs`. Each one's contract states what it means. Lemmas give order preservation (`SubsequenceOf`), copy counts, idempotence and no-op cases. `Walkthrough.RegisterSignInCreateList` composes a whole session from the contracts: register, sign in, fail with a wrong password, create a practice through the form, and list it.

The model follows the code in these points:

- The store itself never checks for duplicate emails or ids. Only the sign-in gate checks emails.
- A new activity's id and `teacherId` are taken from the draft when the draft carries them.
- A created activity without a file stores `extractedContent` as `""`, not as a missing property.
- Neither `teacherId` nor `fromDate <= toDate` is validated.

## Model

| member | source | states |
|---|---|---|
| `Seqs.Filter` | services/db.ts:29 | the result is no longer than the input; every element of it is an input element that passes; every input element that passes is in it |
| `Seqs.FilterIsSubsequence` | pages/Dashboard.tsx:32 | filtering keeps the relative order of the surviving elements |
| `Seqs.FilterCount` | pages/Dashboard.tsx:32 | every copy of a passing element is kept, and no copy of a failing one |
| `Seqs.FilterAllPass` | services/db.ts:29 | when every element passes, filtering is the identity |
| `Seqs.FilterIdempotent` | services/db.ts:29 | filtering twice with the same predicate is filtering once |
| `Seqs.FilterAppend` | pages/Dashboard.tsx:83-84 | filtering `xs + [x]` appends `x` to the filtered `xs` exactly when `x` passes |
| `Seqs.FilterComplementLength` | pages/Dashboard.tsx:83-84 | the lengths of two complementary filters add up to the input length |
| `Seqs.ReplaceWhere` | services/db.ts:34 | `map(x => m(x) ? v : x)` keeps the length and puts `v` at exactly the matching positions |
| `Seqs.ReplaceNoMatch` | services/db.ts:34 | replacing where nothing matches changes nothing |
| `Seqs.ReplaceIdempotent` | services/db.ts:34 | replacing twice with the same value is replacing once |
| `Seqs.FirstIndex` | pages/Login.tsx:36 | returns a position whose element matches, with none matching before it; returns nothing only when no element matches |
| `Seqs.Find` | pages/Login.tsx:22 | `find` gives a value exactly when some element matches, and then it is the element at the first matching position |
| `Types.UserRole` | types.ts:2-5 | the two roles, TEACHER and ADMIN |
| `Types.TeacherProfile` | types.ts:16-21 | a teacher's contact info, qualifications, bio and specialization |
| `Types.User` | types.ts:7-14 | a user record; `password` and `profile` are optional |
| `Types.ActivityType` | types.ts:26 | the `'PRACTICE' \| 'SEMINAR'` union of `Activity.type` |
| `Types.Activity` | types.ts:23-35 | an activity record; `fileName`, `fileData` and `extractedContent` are optional |
| `Types.Draft` | components/ActivityModal.tsx:7 | `Partial<Activity>`: every key may be missing, and an optional key may be present holding `undefined` |
| `Types.Overlay` | pages/Dashboard.tsx:53-66 | `{...base, ...d}`: every key present in the draft overrides, even when it holds `undefined`; every key it lacks keeps the base's value |
| `Types.AsDraft` | components/ActivityModal.tsx:13 | an activity used as the form's contents carries all the form's keys, and reading its optional keys gives the activity's own values |
| `Types.OverlayEmpty` | pages/Dashboard.tsx:53-57 | spreading an object with no keys changes nothing |
| `Types.OverlayWhole` | pages/Dashboard.tsx:53-57 | spreading a whole activity yields that activity, except that an optional property it lacks keeps the other record's value |
| `Types.OverlaySelf` | pages/Dashboard.tsx:53-57 | spreading an activity over itself changes nothing |
| `Types.OverlayIdempotent` | pages/Dashboard.tsx:53-57 | spreading the same draft twice is spreading it once |
| `Store.ReplaceUser` | services/db.ts:15-18 | `updateUser`'s rebuild keeps the length and order and replaces exactly the users whose id equals the new user's id |
| `Store.ReplaceActivity` | services/db.ts:32-35 | `updateActivity`'s rebuild keeps the length and order and replaces exactly the activities with the same id |
| `Store.RemoveActivity` | services/db.ts:27-30 | after deletion no activity has the id; every activity with another id survives; order is kept |
| `Store.ReplaceUserAbsent` | services/db.ts:15-18 | updating a user whose id is not stored is a no-op |
| `Store.ReplaceActivityAbsent` | services/db.ts:32-35 | updating an activity whose id is not stored is a no-op |
| `Store.ReplaceActivityIdempotent` | services/db.ts:32-35 | applying the same activity update twice equals applying it once |
| `Store.RemoveActivityAbsent` | services/db.ts:27-30 | deleting an absent id changes nothing |
| `Store.RemoveActivityIdempotent` | services/db.ts:27-30 | deleting the same id twice equals deleting it once |
| `Store.RemoveActivityCount` | services/db.ts:27-30 | deletion keeps every copy of each activity with another id and drops all with the id |
| `Store.Db.constructor` | services/db.ts:4-5 | fresh storage has both keys missing |
| `Store.Db.GetUsers` | services/db.ts:8 | returns the stored users; a missing key reads as the empty sequence |
| `Store.Db.GetActivities` | services/db.ts:20 | returns the stored activities; a missing key reads as the empty sequence |
| `Store.Db.SaveUser` | services/db.ts:10-13 | the users key afterwards holds the old users with the new one appended, with no duplicate check; the activities key is untouched |
| `Store.Db.UpdateUser` | services/db.ts:15-18 | the users key holds the replaced sequence; the activities key is untouched |
| `Store.Db.SaveActivity` | services/db.ts:22-25 | the activities key holds the old activities with the new one appended; the users key is untouched |
| `Store.Db.DeleteActivity` | services/db.ts:27-30 | the activities key holds the old activities without those with the id; the users key is untouched |
| `Store.Db.UpdateActivity` | services/db.ts:32-35 | the activities key holds the replaced sequence; the users key is untouched |
| `Login.FindByEmail` | pages/Login.tsx:22 | finds a user exactly when some stored user has the email, and the one it finds has it |
| `Login.FindByCredentials` | pages/Login.tsx:36-38 | sign-in succeeds exactly when some stored user matches both email and password, and it returns the first such user in store order |
| `Login.NewUser` | pages/Login.tsx:26-32 | the registered user has the entered id, name and role, no profile, and matches the entered email and the entered password |
| `Login.RegisterKeepsEmailsUnique` | pages/Login.tsx:22-33 | if emails were unique and the new email is not stored, they stay unique after the append |
| `Login.HandleSubmit` | pages/Login.tsx:17-43 | registering a stored email alerts and leaves users unchanged; otherwise exactly the new user (entered email, password, name, role) is appended and becomes the session user; sign-in never changes users and yields the first matching user or the alert; activities are never touched; email uniqueness is preserved |
| `ActivityForm.Split` | components/ActivityModal.tsx:45 | `split` gives at least one piece, and no piece contains the separator |
| `ActivityForm.SplitJoin` | components/ActivityModal.tsx:45 | joining the pieces with the separator gives back the string |
| `ActivityForm.SplitNoSeparator` | components/ActivityModal.tsx:45 | a string without the separator splits into itself alone |
| `ActivityForm.SplitFirst` | components/ActivityModal.tsx:45 | splitting at the first separator gives the text before it, then the pieces of the rest |
| `ActivityForm.SplitSeveralPieces` | components/ActivityModal.tsx:45 | a string splits into more than one piece exactly when it contains the separator |
| `ActivityForm.Base64Part` | components/ActivityModal.tsx:45 | `split(',')[1]` is defined exactly when the data URL has a comma, and it contains no comma |
| `ActivityForm.Base64PartOfDataUrl` | components/ActivityModal.tsx:45 | for a data URL `<header>,<payload>` with no further comma, `split(',')[1]` is the payload |
| `ActivityForm.InitialForm` | components/ActivityModal.tsx:13-19 | without `initialData` the form is a PRACTICE with empty title, description and dates; with it, spreading the form over the activity gives back the activity |
| `ActivityForm.Submitted` | components/ActivityModal.tsx:41-48 | every form key passes through unchanged except `fileData` and `fileName`, which are always present; without a new file they keep the form's values |
| `ActivityForm.SubmittedWithNewFile` | components/ActivityModal.tsx:45-46 | after a PDF was read, the draft carries its base64 payload and its new name |
| `ActivityForm.SubmittedKeepsStoredFile` | components/ActivityModal.tsx:45-46 | submitting an activity's own contents without a new file and spreading them over it leaves the activity unchanged |
| `ActivityForm.Edited` | components/ActivityModal.tsx:66-121 | an input handler keeps the form's required keys present |
| `ActivityForm.EditedAll` | components/ActivityModal.tsx:66-121 | a series of input events keeps the form's required keys, and never changes the file keys, the id, the owner, the summary or the timestamp |
| `ActivityForm.RequiredFilled` | components/ActivityModal.tsx:83-110 | the `required` inputs: the form is submitted only with a non-empty title and both dates |
| `ActivityForm.ActivityModal.constructor` | components/ActivityModal.tsx:13-21 | the form starts from `InitialForm(initialData)` with no chosen file |
| `ActivityForm.ActivityModal.Edit` | components/ActivityModal.tsx:66-121 | an input handler replaces exactly one field and keeps the form valid |
| `ActivityForm.ActivityModal.HandleFileChange` | components/ActivityModal.tsx:25-39 | no file does nothing; a non-PDF is rejected with the alert and the chosen base64 and name stay as they were; a PDF sets both |
| `ActivityForm.ActivityModal.HandleSubmit` | components/ActivityModal.tsx:41-48 | once the required inputs are filled, returns the submitted draft, which carries the form's keys and keeps the required values non-empty |
| `DashboardPage.ActivitiesOf` | pages/Dashboard.tsx:32 | exactly the activities whose `teacherId` is the given id, in store order |
| `DashboardPage.ActivitiesOfCount` | pages/Dashboard.tsx:32 | every copy of each of the teacher's activities is kept, and nothing else |
| `DashboardPage.TeachersAmong` | pages/Dashboard.tsx:29 | exactly the users with role TEACHER, in store order |
| `DashboardPage.VisibleActivities` | pages/Dashboard.tsx:27-36 | an admin sees all activities; a teacher sees exactly their own activities, all of them and no others; order is kept |
| `DashboardPage.Displayed` | pages/Dashboard.tsx:87-89 | an admin with a selected (non-empty) teacher id sees `ActivitiesOf` that teacher, so exactly their activities in order with every copy; anyone else sees the loaded list unchanged |
| `DashboardPage.TallyOf` | pages/Dashboard.tsx:82-85 | the practice count plus the seminar count is the number of activities |
| `DashboardPage.TallyAppend` | pages/Dashboard.tsx:82-85 | one more activity adds one to the count of its own type and leaves the other count alone |
| `DashboardPage.HasPayload` | pages/Dashboard.tsx:48 | `data.fileData && data.fileName`: both keys are present and hold non-empty strings |
| `DashboardPage.ExtractedText` | pages/Dashboard.tsx:47-50 | with a service that never answers `""`, the text is non-empty exactly when the draft carries a payload and a name |
| `DashboardPage.ExtractionNeedsPayload` | pages/Dashboard.tsx:47-50 | without a truthy `fileData` and `fileName` the text is `""` whatever the service would answer; with both it is the service's answer |
| `DashboardPage.UpdatedRecord` | pages/Dashboard.tsx:53-57 | the summary is the new text when non-empty, else the previous one; everything else is the draft spread over the existing record |
| `DashboardPage.CreatedRecord` | pages/Dashboard.tsx:60-66 | the new record takes the fresh id, the owner's id, the timestamp and the text unless the draft carries those keys; the form fields and file keys come from the draft |
| `DashboardPage.UpdateWithoutPayloadKeepsSummary` | pages/Dashboard.tsx:47-56 | updating from a draft without a file keeps the stored `extractedContent` |
| `DashboardPage.UpdateWithPayloadReplacesSummary` | pages/Dashboard.tsx:47-56 | with a file and a service that never answers `""`, the update stores the service's answer |
| `DashboardPage.CreatedSummary` | pages/Dashboard.tsx:47-64 | a created activity's summary is non-empty exactly when the draft carried a file |
| `DashboardPage.Dashboard.constructor` | pages/Dashboard.tsx:14-25 | the page starts with no selected teacher and nothing being edited, and the mount effect has already loaded the role's view; an admin also has the teacher list, a teacher an empty one |
| `DashboardPage.Dashboard.RefreshData` | pages/Dashboard.tsx:27-36 | loads the role's view; an admin also gets the teacher list; a teacher's reload leaves the teacher list as it was |
| `DashboardPage.Dashboard.SelectTeacher` | pages/Dashboard.tsx:164-172 | sets the selected teacher |
| `DashboardPage.Dashboard.EditActivity` | pages/Dashboard.tsx:229-231 | sets the activity being edited |
| `DashboardPage.Dashboard.HandleSaveActivity` | pages/Dashboard.tsx:45-73 | when editing, the store's activities are replaced by id with the merged record; otherwise the created record is appended; users are untouched; editing ends and the view is reloaded |
| `DashboardPage.Dashboard.HandleDelete` | pages/Dashboard.tsx:75-80 | without confirmation nothing changes; with it the id is removed from the store and the view reloaded; users are untouched |
| `DashboardPage.Dashboard.ChartData` | pages/Dashboard.tsx:82-85 | the two bar counts sum to the number of loaded activities |
| `DashboardPage.Dashboard.FilteredActivities` | pages/Dashboard.tsx:87-89 | it is `Displayed` of the page state: an admin with a selected teacher sees exactly that teacher's loaded activities; an admin with no selection, and any teacher, sees the whole loaded list; order is kept |
| `Walkthrough.RegisterSignInCreateList` | pages/Login.tsx:17-43 | register, then sign in with the same credentials succeeds, a wrong password fails, and after creating a practice "Workshop" the teacher's list holds exactly that one activity |
| `Walkthrough.StaleFormErasesStoredFile` | components/ActivityModal.tsx:13-48 | the form as mounted, after any input events that fill the required fields, submitted with no new file, sets the edited activity's `fileData` and `fileName` to `undefined` and keeps its old summary and its id; its title and description are whatever the form held |
| `Walkthrough.FreshFormKeepsEditedActivity` | components/ActivityModal.tsx:13-19 | a form built from the edited activity, saved unchanged, keeps every property but the summary, and keeps that too when there is no stored file |

## Left out

- `services/gemini.ts`: `extractPdfContent` is the parameter `extract` of `HandleSaveActivity`. Its fallbacks (`"No content extracted."`, the error text) always return a non-empty string; that is the `NeverEmpty` precondition of the lemmas about summaries. `getPortfolioAdvice` and the dashboard's `fetchAiInsights` are network calls with no logic to model.
- `App.tsx` session persistence (`tps_current_user`, `JSON.parse`, logout) and `components/Navbar.tsx`: UI and I/O with no logic beyond set and clear. The session user is the `SignedIn` outcome of `Login.HandleSubmit` and the `user` of `Dashboard`.
- JSX rendering, recharts, `alert` (modelled as the returned message), `window.confirm` (the `confirmed` parameter) and the asynchronous `FileReader`. A picked file arrives together with its data URL, so the model does not capture a file read finishing after another event.
- Id generation (`Math.random().toString(36)`) and `Date.now()` are parameters. Their uniqueness is not guaranteed by the code and is not assumed.
- JSON serialisation. Storage is assumed to return exactly the array last written. A corrupt value, which would make `JSON.parse` throw, is not modelled.
- The loading flag, `isModalOpen` and `viewingActivity` UI state, beyond the choice between the create and update branches (`Dashboard.editing`).
- The `DashboardStats` interface of `types.ts`: nothing in the modelled files uses it.
- String values of the enums (`'TEACHER'`, `'PRACTICE'`, ...): only their distinctness matters to the modelled logic.
- `ActivityForm.ActivityModal`: the model builds one form per opening. The source mounts the form once, so its `fileBase64` and `fileName` state also survive from one opening to the next. The model does not capture that carry-over, by which a file chosen during an earlier opening is attached to a later save. The finding below shows the effect of the form contents surviving; `Walkthrough.StaleFormErasesStoredFile` covers the case where no file was chosen since the form was mounted.

## Findings

| source | as written | input that shows it | evidently intended | confidence | as-written member | corrected member |
|---|---|---|---|---|---|---|
| pages/Dashboard.tsx:311-316 | the form (components/ActivityModal.tsx:13) is always mounted without a `key`, so its `useState` initialiser runs once, while nothing is being edited; an opening for an edit shows whatever the form last held, never the activity's own values or file keys | edit an activity that has a stored PDF: type a title and both dates (the required inputs), pick no file and save; the draft carries `fileData` and `fileName` holding `undefined`, the spread erases the stored PDF and its name, the description becomes what the form held (`""` on first use), and the old summary stays | the form is initialised from the activity being edited each time it opens | high, since it follows from React's documented `useState` initialiser semantics; not executed | `Walkthrough.StaleFormErasesStoredFile` | `Walkthrough.FreshFormKeepsEditedActivity` |

The model's `ActivityModal` constructor takes the `initialData` of the opening, which is the corrected behaviour. The corrected lemma also shows one kept behaviour of the source: re-saving an activity that has a stored file asks the extraction service again, because the stored `fileData` and `fileName` travel in the draft.
