# School office record store — Dafny model

A model of the record store behind the school office's Express server and of
its three identifier-migration scripts.

The server keeps two module-level arrays, `students` and `faculties`. At
start-up it loads each from its JSON file and gives every record without a
truthy `id` the id `Date.now() + index`. Route handlers then append enrolled
records with id `Date.now()`, list them, and look one up by
`parseInt(param, 10)` with strict `===`. They delete the first match with
`findIndex` and `splice`, and render a fee receipt or a salary slip for the
first match. After every change they write the array back with `saveData`.
The migration scripts apply the same `r.f || gen(index)` map:

- add-ids-to-students.js assigns `index + 1`.
- add-id-to-faculties.js assigns `Date.now() + index`.
- add-admission-no-to-students.js assigns `Math.floor(Math.random() * 1000000) + index`.

Files and modules:

- `js_values.dfy` (`JsValues`): JSON values and records as maps (an absent key
  is `undefined`), JavaScript truthiness, and what `${v}` prints.
- `parse_int.dfy` (`JsParseInt`): `parseInt(s, 10)` as in section 19.2.5 of
  ECMA-262, with its round trip through `String(n)`.
- `backfill.dfy` (`Backfill`): the generic backfill map and the clock-based id
  backfill the server runs at start-up.
- `add_ids_to_students.dfy`, `add_id_to_faculties.dfy`, `add_admission_no.dfy`:
  the three scripts.
- `documents.dfy` (`Documents`): the receipt and the slip as structured
  documents, meaning title, labelled lines and optional photo.
- `server.dfy` (`Server`): `find`, `findIndex`, `splice`, and the records built
  by the enroll forms. The class `RecordStore` holds the two arrays as `seq`
  fields, and ghost snapshots of the two files stand in for `saveData`. Its
  methods are the route handlers.

Where the code and the intended design disagree, the model follows the code:

- Backfilled ids are not checked against ids already present. One run's ids
  are distinct among themselves, but a filled-in id can equal an existing one
  (`Backfill.BackfillIdsMayRepeatExistingId`,
  `AddIdsToStudents.AddIdsMayRepeatExistingId`). So nothing keeps ids unique.
- Start-up writes the backfilled students back to their file but not the
  faculties (`Server.RecordStore.LoadFaculties`).
- The enroll routes give a new record the id `Date.now()`, despite the comment
  at server.js:93, and never check it against the ids already stored.
  Start-up hands out ids `Date.now() + index`, which run ahead of the clock.
  So a student enrolled shortly after start-up can share its id with a loaded
  student, and a look-up then returns the older record
  (`Server.EnrollMayReuseLoadedId`). The scenario lemmas therefore assume a
  fresh id.
- Deleting the first match leaves any later record with the same id in place
  (`Server.DeleteLeavesDuplicate`). "Deleted, then not found" holds only when
  ids are distinct (`Server.DeleteThenNotFound`).
- Look-ups compare with strict `===` against a parsed number. A record whose
  id is stored as a string is never found, and a non-numeric parameter (NaN)
  matches nothing.
- The photo is embedded when the `photo` field is truthy, not merely present.
  An empty file name gives no `<img>`.
- The admission-number script is idempotent only when it assigns no 0
  (`AddAdmissionNo.AddAdmissionNosZeroIsReplaced`). Its numbers can coincide,
  despite the comment at add-admission-no-to-students.js:26
  (`AddAdmissionNo.AddAdmissionNosMayCollide`).

## Model

| member | source | states |
|---|---|---|
| `JsParseInt.ParseIntOfNumberToString` | server.js:282 | `parseInt(String(n) + rest, 10) === n` for every integer n when rest does not start with a digit: trailing text is ignored |
| `JsParseInt.ParseIntOfDigits` | server.js:295 | an unsigned digit run followed by a non-digit parses to the digits' value |
| `JsParseInt.ParseIntOfNegatedDigits` | server.js:269 | a minus sign and a digit run parse to the negated value |
| `JsParseInt.ParseIntSkipsWhiteSpace` | server.js:155 | leading white space never changes the parsed value |
| `JsParseInt.ParseIntNaNIffNoDigits` | server.js:213 | the result is NaN exactly when no digit follows the white space and the optional sign |
| `JsParseInt.ParseIntOfUndefined` | server.js:155 | a missing id field (text "undefined") parses to NaN |
| `Backfill.FillRecord` | server.js:34-35 | the spread `{...r, f: ...}` with `r.f` or v: field f is always present; a truthy f leaves the record equal to the input; otherwise f is v; every other field is unchanged |
| `Backfill.FillField` | server.js:33-36 | the map keeps length and order; a record with truthy f is unchanged; any other record is itself with f set to the i-th generated number |
| `Backfill.FillFieldAllTruthy` | server.js:35 | when no generated number is 0, every record has a truthy f afterwards |
| `Backfill.FillFieldIdempotent` | server.js:45 | on a collection whose f is truthy everywhere, the map returns the collection unchanged |
| `Backfill.FillFieldTwice` | server.js:35 | a second run returns the first run's result whatever it generates, provided the first generated no 0 |
| `Backfill.BackfillIds` | server.js:43-46 | start-up backfill: same length; a truthy id is kept; any other record gets id `clock[i] + i` |
| `Backfill.BackfillIdsIncrease` | server.js:35 | with a non-decreasing clock, ids filled in at positions i < j are numbers with the one at i strictly smaller, so pairwise distinct |
| `Backfill.BackfillIdsMayRepeatExistingId` | server.js:35 | a filled-in id can equal an id already present: nothing checks against existing ids |
| `Backfill.BackfillIdsIdentifiesAll` | server.js:45 | with a positive clock every record has a truthy id afterwards |
| `Backfill.BackfillIdsIdempotent` | server.js:35 | once every id is truthy, rerunning the backfill returns the same collection |
| `AddIdsToStudents.AddIds` | add-ids-to-students.js:10-13 | same length and order; every non-id field unchanged; a truthy id kept; a falsy or missing id at i becomes i + 1; afterwards every id is truthy |
| `AddIdsToStudents.AddIdsTwice` | add-ids-to-students.js:12 | running the script twice equals running it once |
| `AddIdsToStudents.AddIdsFilledDistinct` | add-ids-to-students.js:12 | ids filled in by one run at different positions differ |
| `AddIdsToStudents.AddIdsMayRepeatExistingId` | add-ids-to-students.js:12 | a filled-in id can equal a pre-existing one, so uniqueness across the collection does not hold |
| `AddIdToFaculties.AddIds` | add-id-to-faculties.js:28-31 | same length and order; every non-id field unchanged; a truthy id kept; any other record gets `clock[i] + i`; with a positive clock every id is truthy afterwards |
| `AddIdToFaculties.AddIdsIncrease` | add-id-to-faculties.js:30 | with a non-decreasing clock, the ids filled in strictly increase with position |
| `AddIdToFaculties.AddIdsIdempotent` | add-id-to-faculties.js:30 | on a fully identified collection the script changes nothing |
| `AddAdmissionNo.GenerateAdmissionNo` | add-admission-no-to-students.js:8-10 | `Math.floor(u * 1000000)` is the whole number in [0, 999999] within 1 below `u * 1000000` |
| `AddAdmissionNo.AdmissionNumbers` | add-admission-no-to-students.js:26 | the number for position i is the generated number plus i, so it lies in [i, 999999 + i] |
| `AddAdmissionNo.AddAdmissionNos` | add-admission-no-to-students.js:23-28 | same length and order; every field but admissionNo (id included) unchanged; a truthy admissionNo kept; a falsy or missing one at i becomes `GenerateAdmissionNo(draws[i]) + i`, a number in [i, 999999 + i] |
| `AddAdmissionNo.AddAdmissionNosTwice` | add-admission-no-to-students.js:26 | a second run changes nothing, provided the first run did not assign 0 to a student 0 without a truthy admissionNo |
| `AddAdmissionNo.AddAdmissionNosZeroIsReplaced` | add-admission-no-to-students.js:26 | a draw of 0 at position 0 assigns the falsy admissionNo 0, which a second run replaces |
| `AddAdmissionNo.AddAdmissionNosMayCollide` | add-admission-no-to-students.js:26 | two students can receive the same admission number in one run |
| `Documents.PhotoOf` | server.js:197 | the `<img>` is present exactly when the photo field is truthy, and its source is `/uploads/<photo>` |
| `Documents.FeeReceipt` | server.js:161-203 | the receipt shows the student's name, father's name, class, admission date, payment date and amount, and embeds `/uploads/<photo>` exactly when the photo is truthy |
| `Documents.SalarySlip` | server.js:219-260 | the slip shows the member's name, subject, joining date, payment date and amount, and embeds `/uploads/<photo>` exactly when the photo is truthy |
| `Documents.FeeReceiptReadsOnlyItsFields` | server.js:187-197 | students agreeing on name, father's name, class, admission date and photo get identical receipts: no other field appears |
| `Documents.SalarySlipReadsOnlyItsFields` | server.js:245-254 | faculty members agreeing on name, subject, joining date and photo get identical slips |
| `Server.FindIndex` | server.js:270 | -1 exactly when no record's id is the parsed number; otherwise the index of the first such record, whose id is a number equal to it; NaN matches nothing |
| `Server.Find` | server.js:158 | `undefined` exactly when no record matches; otherwise the first matching record |
| `Server.RemoveAt` | server.js:273 | `splice(i, 1)`: length drops by one; records before i are kept in place and those after shift down by one; the multiset loses exactly the record at i |
| `Server.DeleteThenNotFound` | server.js:298-299 | with distinct ids, after removing the first match no record matches the same key |
| `Server.DeleteLeavesDuplicate` | server.js:296-299 | with two records sharing an id, deleting removes only the first, and the second is still found |
| `Server.FindIndexAppend` | server.js:296 | a matching record appended after non-matching ones is found at the end |
| `Server.FindAfterAppend` | server.js:283 | a record appended with id now, where no earlier record has that id, is what a lookup by the parameter `String(now)` returns |
| `Server.DistinctIdsAppend` | server.js:111 | appending a record whose id no earlier record has keeps ids distinct |
| `Server.CopyFields` | server.js:90 | each listed field reads as the submitted text, or as undefined when it was not submitted; nothing else is copied |
| `Server.StudentFromForm` | server.js:90-110 | the new student has id now, the uploaded file's name or null, each listed form field as submitted, the form's `class` under `currentClass`, and no other field |
| `Server.FacultyFromForm` | server.js:118-136 | the new faculty member has id now, the uploaded file's name or null, each listed form field as submitted, and no other field |
| `Server.AdminLogin` | server.js:310-319 | redirects to the dashboard exactly for username SAURAV007 and password Saurav@123, otherwise to the login page with `error=1` |
| `Server.RecordStore.constructor` | server.js:28-29 | both arrays start empty and nothing has been written |
| `Server.RecordStore.LoadStudents` | server.js:31-39 | on a readable, non-empty file the array becomes the backfilled collection and is saved; otherwise nothing changes; faculties untouched |
| `Server.RecordStore.LoadFaculties` | server.js:41-48 | on a readable, non-empty file the array becomes the backfilled collection, which is not saved; otherwise nothing changes |
| `Server.RecordStore.EnrollStudent` | server.js:89-114 | appends exactly one student, built from the form with id now, after the untouched earlier records; the saved file equals the new array; redirects to the dashboard; with now non-zero, keeps every id truthy |
| `Server.RecordStore.EnrollFaculty` | server.js:117-140 | appends exactly one faculty member, built from the form with id now; the saved file equals the new array; redirects to the dashboard; with now non-zero, keeps every id truthy |
| `Server.RecordStore.ListStudents` | server.js:143-145 | answers 200 with every student in insertion order |
| `Server.RecordStore.ListFaculties` | server.js:148-150 | answers 200 with every faculty member in insertion order |
| `Server.RecordStore.GetStudent` | server.js:281-290 | 404 "Student not found" exactly when no student's id is the parsed parameter; otherwise 200 with the first such student |
| `Server.RecordStore.GenerateFeeReceipt` | server.js:153-208 | 404 "Student not found" exactly when no student's id is the parsed studentId; otherwise 200 with the first such student's receipt for the posted amount and date; changes no state |
| `Server.RecordStore.GenerateSalarySlip` | server.js:211-265 | 404 "Faculty not found" exactly when no faculty id is the parsed facultyId; otherwise 200 with the first such member's slip; changes no state |
| `Server.RecordStore.DeleteStudent` | server.js:294-305 | with a match, removes exactly the first matching student, keeps the rest in order, saves, and answers 200; with no match (NaN included) nothing changes and it answers 404; keeps every id truthy |
| `Server.RecordStore.DeleteFaculty` | server.js:268-279 | with a match, removes exactly the first matching faculty member, keeps the rest in order, saves, and answers 200; with no match nothing changes and it answers 404; keeps every id truthy |
| `Server.ReceiptOfEnrolledStudent` | server.js:187-189 | the receipt of a student enrolled from a form shows the submitted father's name and class, and the text "undefined" for one the form did not carry |
| `Server.AppendKeepsIdsTruthy` | server.js:93-111 | appending a record whose id is a non-zero clock reading keeps every id in the collection truthy |
| `Server.RemoveAtKeepsIdsTruthy` | server.js:299 | removing a record keeps every remaining id truthy |
| `Server.ReceiptPhotoOfEnrolledStudent` | server.js:91 | an enrolled student's receipt embeds `/uploads/<name>` exactly when a file with a non-empty name was uploaded |
| `Server.EnrollMayReuseLoadedId` | server.js:93 | after start-up backfills ids 100 and 101, a student enrolled at 101 shares that id, and the look-up by 101 returns the older student, not the new one |
| `Server.EnrollLookUpDelete` | server.js:294-305 | enrolling a student with a fresh id, looking it up by `String(id)` and deleting it leaves the students as they were, even when earlier students share ids; the lookup answers 200 with the new student, the delete answers 200 "Student deleted successfully", the lookup after it answers 404 "Student not found", and the faculties are untouched |

## Left out

- HTTP plumbing is not modelled: routing, static pages, body parsing, multer's
  storage and file-name generation, and `res.*` formatting. A response is a
  status and a body value. The uploaded file name is an opaque optional string.
- File I/O is not modelled. `saveData` becomes a ghost assignment of the
  written collection. The unsynchronised asynchronous writes, write failures,
  and handlers that run before the start-up load finishes are concurrency
  matters outside the model.
- `JSON.parse` and `JSON.stringify` are not modelled. The loaded file arrives as
  `Option<seq<Record>>`, with `None` for a read error or empty text. A parse
  failure, which throws inside the callback, is not modelled, and neither are
  pretty-printing and key order.
- Numbers are unbounded integers. Fractional numbers, nested arrays or objects
  in records, and rounding above 2^53 (for example in `parseInt` of long digit
  strings) are not modelled. Records are flat and ids are clock values well
  below that bound.
- `Date.now()` and `Math.random()` are caller-supplied sequences with one
  reading per position. JavaScript reads the clock only for records whose
  field is falsy, so the model's clock is a superset of the real readings.
  `Math.random()` is an exact real in [0, 1), not a double.
- Request bodies are maps from field name to text. A JSON payload carrying a
  number for `studentId` goes through `ToString` before `parseInt`, and that is
  not modelled. A destructured field that is `undefined` is modelled as an
  absent key.
- The exact HTML and CSS of the receipt and the slip are not modelled. A
  document is its title, heading, labelled lines in order, and the optional
  photo image.
- The console logging is not modelled, and neither is the file reading and
  writing in the migration scripts, which only frames their map.
