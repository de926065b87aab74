# Clinic queue — a Dafny model

This project models the patient queue behind the two pages of a small clinic system
built on the Firebase realtime database.

- The **receptionist page** (`js/receptionist.js`):
  - allocates consecutive token numbers from a shared counter;
  - registers patients under those tokens;
  - calls and checks them off;
  - moves them to an archive;
  - shows the live queue, with a status filter and a text search.
- The **doctor page** (`js/doctor.js`):
  - shows the same queue;
  - opens a patient;
  - saves a prescription both to the record and to a per-patient history;
  - marks the visit checked;
  - lists that history, newest first.

The database is reduced to the four locations the pages use:

| location | Dafny |
|---|---|
| `meta/lastToken` | `lastToken` |
| `patients/{key}` | `patients` |
| `archive/patients/{key}` | `archive` |
| `records/{key}/{entryKey}` | `records` |

These are the fields of the class `Store.Db`. `Store.DbState` is the value of those fields at one moment.

The database primitives the pages call are modelled by their effect:

- A `transaction` is one step. It either commits (the counter becomes `update(current)`) or changes nothing.
- A multi-path `update` is a list of typed writes, each with its database path (`Store.PathOf`).
  - The database refuses it whole when one path is an ancestor of, or the same as, another.
  - Otherwise every write takes effect.
- `push().key` is a non-empty key no child of the location already has (`Store.FreshKey`).
- `Object.entries` gives the entries of a snapshot in an order the model leaves open (`Store.Entries`).
- The server timestamp is a parameter `now`.
- Whether a transaction commits is a parameter `commit`.

Modules:

- **Text**: the JavaScript string operations the pages rely on: `trim`, `toLowerCase`, `includes`, `padStart`, and `String(n)`.
- **Token**: `formatToken`, and reading a label back as its number.
- **Sorting**: the stable `Array.prototype.sort` with a `key(a) - key(b)` comparator, as an insertion sort.
- **Store**: the database and its primitives.
- **Queue**: code the two pages share. It covers:
  - the display fallbacks of `renderRow`;
  - the filter and search loop of `renderQueue`;
  - the ascending `tokenNumber` sort of snapshots.
- **Receptionist**: `obtainNextToken`, `addPatient`, `updateStatus`, `archivePatient` and the queue listener.
- **Doctor**: the doctor page as a class, `DoctorPage`. It holds the selection (`currentSelectionKey`) and the kept snapshot (`latestEntries`), with:
  - `openPatient`;
  - `savePrescription`;
  - `markChecked`;
  - `loadHistoryForPatient`;
  - the listener and the re-renders.

## Model

| member | source | states |
|---|---|---|
| Text.SkipBlanks | js/doctor.js:185 | the index where the text left by `trim` starts: everything before it from the given point is whitespace, and the character there is not |
| Text.BackBlanks | js/doctor.js:185 | the index where the text left by `trim` ends: everything from it to the end is whitespace, and the character before it is not |
| Text.Trim | js/doctor.js:185 | `trim`: the text between the first and the last non-whitespace character (its properties are `Text.TrimSpec`) |
| Text.TrimSpec | js/doctor.js:185 | `trim` gives an infix of the input surrounded only by whitespace; it neither starts nor ends with whitespace; it is empty exactly when the input is all whitespace |
| Text.TrimUntrimmed | js/doctor.js:101-102 | `trim` keeps a string that has no surrounding whitespace |
| Text.TrimTrailingBlank | js/doctor.js:185 | `trim` drops one trailing blank after such a string |
| Text.TrimExample | js/doctor.js:185 | the search text `"T-002 "` trims to `T-002` |
| Text.Lower | js/doctor.js:191-192 | `toLowerCase` keeps the length and lowers each letter in place |
| Text.LowerExample | js/doctor.js:185 | `T-002` and `t-002` both lower to `t-002` |
| Text.Contains | js/doctor.js:191-193 | `includes`: the query occurs at some index of the text; the empty query occurs everywhere |
| Text.ContainsSelf | js/doctor.js:191-193 | `includes`: every string contains itself |
| Text.PadStart | js/doctor.js:27 | `padStart` reaches the width without truncating; the input is its suffix and the fill char is its prefix |
| Text.DigitChar | js/doctor.js:27 | a digit below ten is written as a decimal digit character |
| Text.DigitValue | js/doctor.js:27 | a digit character stands for a value below ten |
| Text.NatToString | js/doctor.js:27 | `String(n)` is a non-empty string of digits, with a leading zero only for 0 |
| Text.DecimalValueOfNatToString | js/doctor.js:27 | reading back the digits of `String(n)` gives `n` |
| Text.DecimalValueLeadingZeros | js/doctor.js:27 | zero padding at the front does not change the number a digit string stands for |
| Token.FormatToken | js/doctor.js:26-28 | `formatToken(n)` is `T-`, then zeros, then the digits of `n`; it is at least three digits wide and never cut short |
| Token.LabelNumberOfFormatToken | js/receptionist.js:11-13 | a formatted label reads back as its number |
| Token.FormatTokenInjective | js/receptionist.js:11-13 | distinct numbers get distinct labels |
| Token.FormatTokenSeven | js/doctor.js:26-28 | 7 is labelled `T-007` |
| Token.FormatTokenOneTwoThree | js/doctor.js:26-28 | 123 is labelled `T-123` |
| Token.FormatTokenThousand | js/doctor.js:26-28 | 1000 is labelled `T-1000`, not truncated |
| Sorting.Insert | js/doctor.js:175 | one insertion step adds exactly the new element to the multiset |
| Sorting.InsertSorted | js/doctor.js:175 | inserting into a sorted sequence keeps it sorted |
| Sorting.SortBy | js/doctor.js:175 | the sort by a numeric key returns a permutation of the input whose keys ascend |
| Sorting.InsertWithKey | js/doctor.js:143-147 | an insertion puts the new element in front of the earlier elements with the same key |
| Sorting.SortByStable | js/doctor.js:143-147 | the sort is stable: for each key, the elements with it keep their input order |
| Sorting.SortBySorted | js/receptionist.js:146 | an input already in key order is left unchanged |
| Store.ApplyWrite | js/doctor.js:112-116 | one write of an update: the value replaces what its path held, a write below a missing record creates it, `null` deletes |
| Store.PathOf | js/receptionist.js:132-134 | the database path each kind of write addresses, segment by segment: `patients/{key}` and its `status`, `prescription` and `lastUpdated` children, `archive/patients/{key}` and its `archivedAt`, and `records/{key}/{entryKey}` |
| Store.Conflicting | js/receptionist.js:131-135 | the refusal test of a multi-path update: one listed path is an ancestor of, or the same as, another |
| Store.Updated | js/doctor.js:121 | `db.ref().update(updates)` on a state: the writes applied in turn, or no new state when the update is refused |
| Store.ApplyAllPair | js/receptionist.js:135 | an update of two writes applies them in turn |
| Store.ApplyAllTriple | js/doctor.js:121 | an update of three writes applies them in turn |
| Store.ApplyWriteHolds | js/doctor.js:121 | after a write, its location holds the value written |
| Store.ApplyWriteKeepsHolds | js/doctor.js:121 | a write leaves alone any location not on its own path |
| Store.ApplyAllKeepsHolds | js/doctor.js:121 | a run of writes, each apart from a location, leaves that location alone |
| Store.UpdateHoldsAll | js/doctor.js:111-121 | an accepted multi-path update leaves every listed path holding its listed value, whatever the listing order |
| Store.ApplyWriteFrame | js/receptionist.js:122 | a write changes neither the counter nor anything stored under another key |
| Store.ApplyAllFrame | js/receptionist.js:131-135 | an update changes neither the counter nor any key its writes do not name |
| Store.SetStatusEffect | js/receptionist.js:121-123 | a status write sets only the `status` child, creating the record when it is missing; it changes no other child, key, counter, archive or history |
| Store.FreshKey | js/doctor.js:115 | `push().key` returns a non-empty key not in use |
| Store.Entries | js/doctor.js:174 | `Object.entries` lists each entry of the snapshot, and no key twice |
| Store.EnumerationPermuted | js/doctor.js:174-175 | sorting the entries of a snapshot still lists each entry, and no key twice |
| Store.Db.Transaction | js/receptionist.js:21-23 | a committed transaction sets the counter to `update(current)` and resolves with it; one that does not commit changes nothing |
| Store.Db.Update | js/doctor.js:121 | a multi-path update moves the database to the state `Store.Updated` gives, or leaves it unchanged when that refuses it (when one path is an ancestor of another) |
| Store.Db.Set | js/receptionist.js:51 | `set` replaces one location |
| Queue.TokenOrZero | js/doctor.js:36 | `item.tokenNumber`, or 0 when it is missing |
| Queue.DisplayToken | js/doctor.js:36 | the token cell: the stored label unless it is missing or empty, otherwise `formatToken` of the token number, or of 0 when it is missing |
| Queue.DisplayStatus | js/doctor.js:52-53 | the status cell: the stored status, otherwise `waiting` |
| Queue.DisplayFallbacks | js/doctor.js:36-53 | a row shows the stored label when it is non-empty; otherwise it shows exactly `formatToken` of the token number (0 when missing), which reads back as that number; a missing status shows as `waiting` |
| Queue.RenderRow | js/doctor.js:31-73 | the cell texts of one row: key, token, name, age, contact, reason and status, each with its fallback |
| Queue.RenderRows | js/doctor.js:196-197 | one row per entry, in order |
| Queue.NormalizeQuery | js/doctor.js:185 | the query: the search text trimmed and lower-cased |
| Queue.TokenText | js/doctor.js:193 | `String(item.tokenNumber or '')`: the digits of the token number, nothing when it is missing or 0 |
| Queue.PassesFilter | js/doctor.js:189 | the status test: filter `all`, or a stored status equal to the filter (a missing status never passes a status filter) |
| Queue.MatchesQuery | js/doctor.js:190-194 | the search test: the query occurs in the lower-cased name, in the lower-cased label, or in the digits of the token number (nothing for a missing or zero number) |
| Queue.Shown | js/doctor.js:189-195 | an entry is drawn when it passes the status filter and, for a non-empty query, the search test |
| Queue.Visible | js/doctor.js:188-199 | the entries `renderQueue` draws: those shown, in input order |
| Queue.RenderStep | js/doctor.js:188-199 | one more entry adds its row exactly when it passes the filter and the search |
| Queue.RenderQueue | js/doctor.js:182-201 | the counting loop draws the rows of the entries that pass the filter and the search, in input order; it shows the notice exactly when it draws no row |
| Queue.VisibleIsSubsequence | js/doctor.js:188-199 | the listed entries are a subsequence of the input: some entries left out, the rest in order |
| Queue.VisibleMembers | js/doctor.js:189-195 | an entry is listed if and only if it is in the input, passes the status filter and, when the query is non-empty, matches it |
| Queue.VisibleDistinctKeys | js/doctor.js:188-199 | when the input repeats no key, neither does the listing |
| Queue.VisibleAllEmptyQuery | js/doctor.js:189-190 | filter `all` with an empty query lists the whole input |
| Queue.BlankSearchListsAll | js/doctor.js:185-190 | a blank search box gives an empty query, so filter `all` lists everything |
| Queue.VisibleHasFilterStatus | js/doctor.js:189 | under a status filter, every listed entry has that status |
| Queue.VisibleKeepsOrder | js/receptionist.js:146-171 | listing keeps the token order of a sorted snapshot |
| Queue.TokenKey | js/doctor.js:175 | the sort key of the snapshot comparator: the token number, 0 when missing |
| Queue.SortedSnapshot | js/receptionist.js:143-146 | the listener's snapshot lists every record once, in ascending `tokenNumber` order; a missing number counts as 0 |
| Queue.LiveViewContents | js/receptionist.js:140-171 | a live view lists exactly the records that pass the filter and the search, each once, in ascending token order |
| Queue.SearchFindsLabel | js/doctor.js:185-192 | a search for a record's label, in any letter case, finds the record |
| Queue.NormalizeDigits | js/doctor.js:185 | a search box holding the digits of a number gives exactly those digits as the query |
| Queue.SearchFindsNumber | js/doctor.js:185-193 | typing the digits of a non-zero token number in the search box finds the record |
| Queue.SearchExample | js/doctor.js:185-192 | `"T-002 "` and `"t-002"` both find the record labelled `T-002` |
| Receptionist.NextToken | js/receptionist.js:21-23 | the transaction's update gives 1 for a missing counter and one more than the counter otherwise |
| Receptionist.ObtainNextToken | js/receptionist.js:19-30 | a committed call returns the next number and changes only the counter; an uncommitted call fails with no number and changes nothing |
| Receptionist.AllocationsConsecutive | js/receptionist.js:19-30 | a run of calls hands out one token per commit: the consecutive numbers after the counter, with no gap |
| Receptionist.AllocationsDistinct | js/receptionist.js:19-30 | no two calls in a run receive the same token |
| Receptionist.OrNull | js/receptionist.js:44-45 | `x or null`: an empty form value is stored as no value |
| Receptionist.NewRecord | js/receptionist.js:40-50 | the payload `addPatient` writes: the token and its label, the form values (empty `age` and `gender` as no value), `waiting`, and the creation time |
| Receptionist.NewRecordShape | js/receptionist.js:38-50 | a new record displays its own label, which reads back as its token; it is `waiting`; the `waiting` filter and typing its number in the search box both find it; empty `age` is stored as no value |
| Receptionist.AddPatient | js/receptionist.js:35-57 | a failed allocation writes nothing and passes the error on; otherwise the new record is stored under a fresh, non-empty key, the counter advances, every other record is kept, and the payload is returned |
| Receptionist.UpdateStatus | js/receptionist.js:121-123 | the database changes exactly by the one status write |
| Receptionist.ArchiveUpdatesAsWritten | js/receptionist.js:131-134 | the update `archivePatient` builds as written: the copy, the deletion, and the `archivedAt` stamp on a path below the copy |
| Receptionist.ArchiveAsWrittenRefused | js/receptionist.js:131-135 | the update as written lists `archive/patients/{key}` and a path below it, so the database refuses it |
| Receptionist.ArchivePatientAsWritten | js/receptionist.js:126-137 | `archivePatient` as written never changes the database |
| Receptionist.ArchiveUpdates | js/receptionist.js:131-134 | the intended update: the copy with its stamp inside it, and the deletion |
| Receptionist.Archive | js/receptionist.js:128-135 | the intended effect of archiving: nothing for a missing record, otherwise the intended update applied |
| Receptionist.ArchiveMoves | js/receptionist.js:128-135 | archiving a missing record changes nothing; a present record is removed from `patients` and stored, with its stamp, in the archive, by one accepted update |
| Receptionist.ArchiveIdempotent | js/receptionist.js:130 | archiving twice is archiving once |
| Receptionist.ArchiveLeavesOthers | js/receptionist.js:131-135 | archiving does not touch other keys or the counter |
| Receptionist.ArchivePatient | js/receptionist.js:126-137 | the corrected `archivePatient` has the effect `ArchiveMoves` describes |
| Receptionist.ShowQueue | js/receptionist.js:140-171 | the listener draws the rows of exactly the records that pass the filter and the search, each once, in ascending token order, and shows the notice exactly when there are none |
| Doctor.DetailsOf | js/doctor.js:81-89 | the panel texts and the two inputs `openPatient` fills from a record |
| Doctor.DetailsMatchRow | js/doctor.js:76-89 | the panel shows a record as its row does; the inputs start from its prescription, or empty when there is none |
| Doctor.EntryTime | js/doctor.js:144-145 | the time a history entry sorts by: its prescription's `ts`, or 0 |
| Doctor.ShowsHistory | js/doctor.js:141-166 | what the history list shows: the notice for an empty history; the failure notice when an entry has no prescription; otherwise every entry once, newest first |
| Doctor.NewestFirst | js/doctor.js:144-146 | the sort key of the `bt - at` comparator: the entry time negated, so later entries come first |
| Doctor.NewestListedFirst | js/doctor.js:143-147 | in the history list, an entry later than all the others comes first |
| Doctor.SortedHistory | js/doctor.js:141-147 | the history entries are listed once each, newest first; a missing time counts as 0 |
| Doctor.PrescriptionOf | js/doctor.js:101-109 | the saved payload: trimmed medicine and notes, the user's email or `doctor`, and the server time |
| Doctor.PrescriptionUpdates | js/doctor.js:111-119 | the save's update: the record's prescription, its `lastUpdated`, and the history entry under the new key |
| Doctor.PrescriptionUpdatesAccepted | js/doctor.js:111-119 | the three paths of the save are apart, so the database accepts the update |
| Doctor.PrescriptionUpdatesApplied | js/doctor.js:111-121 | the save sets the record's prescription and `lastUpdated`, and adds the history entry |
| Doctor.PrescriptionUpdatesEffect | js/doctor.js:101-121 | a save is accepted and sets the record's prescription and `lastUpdated`; the history gains exactly one entry, under the fresh key and holding the payload; earlier entries are unchanged |
| Doctor.PrescriptionUpdatesFrame | js/doctor.js:111-121 | a save changes neither the counter nor the archive, nor anything under another key |
| Doctor.SaveAllAppends | js/doctor.js:115-121 | K saves with fresh keys, each at its own server time, grow the history by exactly K entries and keep every earlier one |
| Doctor.DoctorPage.constructor | js/doctor.js:22-23 | the page starts with no selection and no kept snapshot |
| Doctor.DoctorPage.Selected | js/doctor.js:97 | `currentSelectionKey` is set and is not the empty string, the opposite of `!currentSelectionKey` |
| Doctor.DoctorPage.OnPatientsValue | js/doctor.js:170-179 | the listener keeps the sorted snapshot of every record and draws it |
| Doctor.DoctorPage.Rerender | js/doctor.js:204-211 | a search or filter change redraws the kept snapshot; it lists exactly its entries that pass the filter and the search |
| Doctor.DoctorPage.LoadHistory | js/doctor.js:139-167 | the view is "no history" exactly for an empty history; "failed" exactly when an entry has no prescription; otherwise every entry, newest first |
| Doctor.DoctorPage.OpenPatient | js/doctor.js:76-93 | opening selects the key, fills the panel and loads that key's history |
| Doctor.DoctorPage.SavePrescription | js/doctor.js:96-129 | with no selection, nothing is written; otherwise one accepted update applies the save under a non-empty key new to the history, then the history is reloaded |
| Doctor.DoctorPage.MarkChecked | js/doctor.js:132-136 | with no selection, nothing changes; otherwise the database changes exactly by the `checked` status write |

## Left out

- `js/login.js` (sign-in and redirects) is not part of this model.
- The DOM is not modelled: element creation, `innerHTML`, `alert`, button state, form reset and focus. A table row is modelled as the record of its cell texts (`Queue.Row`). The action buttons are the calls they make.
- History blocks and date formatting are not modelled. A listed history is the sorted entries it draws, not their HTML.
- Debounce timers and event wiring are not modelled. Their effect is a call of the handler.
- On the receptionist page the filter `change` handler does nothing; the next snapshot redraws. Its debounced search re-reads the patients once and redraws, and that redraw is what `Receptionist.ShowQueue` describes.
- Concurrency, transaction retries and network failures are not modelled. A transaction is one sequential step with a commit flag. Every other database call is taken to reach the database. The `catch` paths that only log or alert are not modelled.
- `Store.Db.Update` is the refusal when one path is an ancestor of another. Nothing else refuses a write, because security rules and permissions are not modelled. An update listing the same path twice cannot arise from a JavaScript object, so it is treated like an ancestor clash.
- Doctor.DoctorPage.SavePrescription: the history reload happens after the update completes. The model reloads the key saved to. A selection change in between, which the source would follow, is not modelled.
- Doctor.DoctorPage.LoadHistory: the `orderByChild` query order is not modelled. The entries come from `Object.entries` in any order and are sorted in the page.
- Receptionist.AddPatient: the returned payload has `createdAt` resolved to `now`. The JavaScript returns the payload still holding the server-timestamp placeholder. Its only caller ignores the value.
- `firebase.auth().currentUser` is a parameter `user`. A user with no email address is not modelled.
- `ServerValue.TIMESTAMP` is a parameter `now`. All placeholders in one write resolve to the same time.
- Text.Lower: `toLowerCase` is modelled for the ASCII letters only. Other letters are left as they are.
- Store.FreshKey: `push()` keys are modelled only as non-empty and fresh, not by their format or time order.
- Status values are the three the pages write (`waiting`, `called`, `checked`), so a record never holds any other status string.
- Numbers are unbounded naturals. JavaScript number precision is not modelled, and the token counter cannot overflow in practice.
- The `patientSnapshotAt: null` child of a history entry is not stored by the database, so the model drops it.

## Findings

| source | as written | input that shows it | evidently intended | confidence | as-written member | corrected member |
|---|---|---|---|---|---|---|
| js/receptionist.js:131-135 | the multi-path update lists both `archive/patients/{key}` and `archive/patients/{key}/archivedAt`. The database refuses an update in which one path is an ancestor of another. The rejection is not caught, so nothing is archived. | any existing record, e.g. key `k` with `{name: "A"}` | the record moved to `archive/patients/{key}` with an `archivedAt` stamp, and deleted from `patients`, in one update | not executed | Receptionist.ArchivePatientAsWritten | Receptionist.ArchivePatient |
