/**
 * The record store of server.js: the two module-level arrays `students` and
 * `faculties`, the start-up load that backfills their ids, and the route
 * handlers that enroll, list, look up, delete and render documents for them.
 *
 * `saveData` is modelled by ghost snapshots of the two JSON files: each holds
 * the last collection written to that file, `None` while nothing was written.
 * A response is reduced to its status and a body value.
 */
module Server {
  import opened JsValues
  import opened JsParseInt
  import opened Backfill
  import opened Documents

  datatype Body =
    | Html(doc: Document)
    | Text(text: string)
    | JsonRecord(record: Record)
    | JsonRecords(records: seq<Record>)
    | JsonMessage(message: string)
    | Redirect(location: string)

  datatype Response = Response(status: int, body: Body)

  /** `res.redirect(location)` answers 302 Found. */
  function RedirectTo(location: string): Response
  {
    Response(302, Redirect(location))
  }

  const Dashboard := "/admin-dashboard.html"

  /** `r.id === key`: strict equality, so only a numeric id can match, and NaN never does. */
  predicate IdMatches(r: Record, key: ParsedInt)
  {
    key.Int? && "id" in r && r["id"] == JNum(key.value)
  }

  /** `records.findIndex(r => r.id === key)`: the first match, or -1. */
  function FindIndex(rs: seq<Record>, key: ParsedInt): (i: int)
    ensures -1 <= i < |rs|
    ensures i == -1 <==> forall j :: 0 <= j < |rs| ==> !IdMatches(rs[j], key)
    ensures 0 <= i ==> IdMatches(rs[i], key) && forall j :: 0 <= j < i ==> !IdMatches(rs[j], key)
    ensures 0 <= i ==> key.Int? && rs[i]["id"] == JNum(key.value)
  {
    if rs == [] then -1
    else if IdMatches(rs[0], key) then 0
    else
      var k := FindIndex(rs[1..], key);
      if k == -1 then -1 else k + 1
  }

  /** `records.find(r => r.id === key)`: the first match, or `undefined`. */
  function Find(rs: seq<Record>, key: ParsedInt): (found: Option<Record>)
    ensures found.None? <==> forall j :: 0 <= j < |rs| ==> !IdMatches(rs[j], key)
    ensures found.Some? ==> found.value in rs && IdMatches(found.value, key)
    ensures found.Some? ==> found.value == rs[FindIndex(rs, key)]
  {
    var i := FindIndex(rs, key);
    if i == -1 then None else Some(rs[i])
  }

  /** `records.splice(i, 1)`: the record at i removed, the others in their order. */
  function RemoveAt(rs: seq<Record>, i: int): (out: seq<Record>)
    requires 0 <= i < |rs|
    ensures |out| == |rs| - 1
    ensures forall j :: 0 <= j < i ==> out[j] == rs[j]
    ensures forall j :: i <= j < |out| ==> out[j] == rs[j + 1]
    ensures multiset(out) + multiset{rs[i]} == multiset(rs)
  {
    assert rs == rs[..i] + [rs[i]] + rs[i + 1..];
    rs[..i] + rs[i + 1..]
  }

  /** No two records carry the same id. */
  predicate DistinctIds(rs: seq<Record>)
  {
    forall i, j :: 0 <= i < j < |rs| && "id" in rs[i] && "id" in rs[j] ==> rs[i]["id"] != rs[j]["id"]
  }

  /**
   * When ids are distinct, the record removed by deleting the first match was
   * the only match: a later lookup with the same key finds nothing.
   */
  lemma DeleteThenNotFound(rs: seq<Record>, key: ParsedInt)
    requires DistinctIds(rs)
    requires FindIndex(rs, key) != -1
    ensures FindIndex(RemoveAt(rs, FindIndex(rs, key)), key) == -1
  {
  }

  /**
   * Deletion removes only the first of two records sharing an id; the second is
   * still found afterwards. Nothing in the store keeps ids distinct.
   */
  lemma DeleteLeavesDuplicate()
    ensures var rs: seq<Record> := [map["id" := JNum(7)], map["id" := JNum(7), "city" := JStr("Pune")]];
      FindIndex(rs, Int(7)) == 0 &&
      Find(RemoveAt(rs, 0), Int(7)) == Some(map["id" := JNum(7), "city" := JStr("Pune")])
  {
    var rs: seq<Record> := [map["id" := JNum(7)], map["id" := JNum(7), "city" := JStr("Pune")]];
    assert IdMatches(rs[0], Int(7));
    assert RemoveAt(rs, 0) == [rs[1]];
    assert IdMatches(rs[1], Int(7));
  }

  /** A record appended after records none of which match is found at the end. */
  lemma {:induction false} FindIndexAppend(rs: seq<Record>, rec: Record, key: ParsedInt)
    requires FindIndex(rs, key) == -1
    requires IdMatches(rec, key)
    ensures FindIndex(rs + [rec], key) == |rs|
  {
    if rs != [] {
      assert (rs + [rec])[1..] == rs[1..] + [rec];
      assert (rs + [rec])[0] == rs[0];
      FindIndexAppend(rs[1..], rec, key);
    }
  }

  /**
   * A record appended with id `now`, when no earlier record has that id, is
   * what a lookup by the route parameter `String(now)` returns.
   */
  lemma FindAfterAppend(rs: seq<Record>, rec: Record, now: int)
    requires "id" in rec && rec["id"] == JNum(now)
    requires FindIndex(rs, Int(now)) == -1
    ensures ParseInt(NumberToString(now)) == Int(now)
    ensures FindIndex(rs + [rec], Int(now)) == |rs|
    ensures Find(rs + [rec], ParseInt(NumberToString(now))) == Some(rec)
  {
    ParseIntOfNumberToString(now, []);
    assert NumberToString(now) + [] == NumberToString(now);
    FindIndexAppend(rs, rec, Int(now));
  }

  /** The body fields of /enroll-student copied verbatim into the record. */
  const StudentFields: set<string> := {
    "firstName", "lastName", "dob", "gender", "fatherName", "motherName", "schoolName",
    "tuitionFee", "mobileNo", "admissionDate", "address", "areaPinCode", "city", "state" }

  /** The body fields of /enroll-faculty copied verbatim into the record. */
  const FacultyFields: set<string> := {
    "firstName", "lastName", "dob", "gender", "facultyOf", "fatherName", "motherName",
    "mobileNo", "joiningDate", "address", "areaPinCode", "city", "state" }

  /** The stored photo: the uploaded file's name, or null when the form came without a file. */
  function PhotoValue(upload: Option<string>): (v: JsValue)
    ensures upload.None? <==> v == JNull
    ensures upload.Some? ==> v == JStr(upload.value) && Truthy(v) == (upload.value != "")
  {
    if upload.Some? then JStr(upload.value) else JNull
  }

  /** The listed body fields that were submitted, as strings. */
  function CopyFields(body: FormBody, fields: set<string>): (r: Record)
    ensures forall k :: k in fields ==> Get(r, k) == BodyField(body, k)
    ensures r.Keys <= fields
  {
    map k | k in fields && k in body :: JStr(body[k])
  }

  /**
   * The student record built by /enroll-student: id `now`, the submitted
   * fields, the form's `class` stored as `currentClass`, and the photo.
   */
  function StudentFromForm(body: FormBody, upload: Option<string>, now: int): (r: Record)
    ensures r.Keys <= StudentFields + {"currentClass", "id", "photo"}
    ensures "id" in r && r["id"] == JNum(now)
    ensures "photo" in r && r["photo"] == PhotoValue(upload)
    ensures upload.Some? ==> r["photo"] == JStr(upload.value)
    ensures forall k :: k in StudentFields ==> Get(r, k) == BodyField(body, k)
    ensures Get(r, "currentClass") == BodyField(body, "class")
  {
    assert "currentClass" !in StudentFields && "id" !in StudentFields && "photo" !in StudentFields;
    var copied := CopyFields(body, StudentFields);
    var withClass := if "class" in body then copied["currentClass" := JStr(body["class"])] else copied;
    assert forall k :: k in StudentFields ==> Get(withClass, k) == Get(copied, k);
    withClass["id" := JNum(now)]["photo" := PhotoValue(upload)]
  }

  /** The faculty record built by /enroll-faculty: id `now`, the submitted fields and the photo. */
  function FacultyFromForm(body: FormBody, upload: Option<string>, now: int): (r: Record)
    ensures r.Keys <= FacultyFields + {"id", "photo"}
    ensures "id" in r && r["id"] == JNum(now)
    ensures "photo" in r && r["photo"] == PhotoValue(upload)
    ensures upload.Some? ==> r["photo"] == JStr(upload.value)
    ensures forall k :: k in FacultyFields ==> Get(r, k) == BodyField(body, k)
  {
    assert "id" !in FacultyFields && "photo" !in FacultyFields;
    CopyFields(body, FacultyFields)["id" := JNum(now)]["photo" := PhotoValue(upload)]
  }

  /** POST /admin-login: the dashboard for the one fixed credential pair, else the login page flagged. */
  function AdminLogin(body: FormBody): (resp: Response)
    ensures resp.status == 302 && resp.body.Redirect?
    ensures resp.body.location == Dashboard <==>
      BodyField(body, "username") == Some(JStr("SAURAV007")) &&
      BodyField(body, "password") == Some(JStr("Saurav@123"))
    ensures resp.body.location != Dashboard ==> resp.body.location == "/admin-login.html?error=1"
  {
    if BodyField(body, "username") == Some(JStr("SAURAV007")) && BodyField(body, "password") == Some(JStr("Saurav@123"))
    then RedirectTo(Dashboard)
    else RedirectTo("/admin-login.html?error=1")
  }

  /**
   * Enrolling keeps every id truthy: the appended record's id is the clock
   * reading `now`, which is truthy whenever it is not 0.
   */
  lemma AppendKeepsIdsTruthy(rs: seq<Record>, rec: Record, now: int)
    requires "id" in rec && rec["id"] == JNum(now)
    ensures now != 0 && AllTruthy(rs, "id") ==> AllTruthy(rs + [rec], "id")
  {
    if now != 0 && AllTruthy(rs, "id") {
      var all := rs + [rec];
      forall i | 0 <= i < |all|
        ensures FieldTruthy(all[i], "id")
      {
        if i < |rs| {
          assert all[i] == rs[i];
        }
      }
    }
  }

  /** Deleting keeps every id truthy: `splice` only removes a record. */
  lemma RemoveAtKeepsIdsTruthy(rs: seq<Record>, i: int)
    requires 0 <= i < |rs|
    ensures AllTruthy(rs, "id") ==> AllTruthy(RemoveAt(rs, i), "id")
  {
  }

  class RecordStore {
    var students: seq<Record>
    var faculties: seq<Record>
    /** Last content `saveData` wrote to data/students.json. */
    ghost var studentsFile: Option<seq<Record>>
    /** Last content `saveData` wrote to data/faculties.json. */
    ghost var facultiesFile: Option<seq<Record>>

    /** Both arrays start empty, and nothing has been written to either file. */
    constructor ()
      ensures students == [] && faculties == []
      ensures studentsFile == None && facultiesFile == None
    {
      students, faculties := [], [];
      studentsFile, facultiesFile := None, None;
    }

    /**
     * Start-up load of data/students.json. `data` is the parsed file, `None`
     * when it could not be read or was empty; the backfilled collection
     * replaces the array and is written back.
     */
    method LoadStudents(data: Option<seq<Record>>, clock: seq<int>)
      requires data.Some? ==> |clock| == |data.value|
      modifies this
      ensures data.None? ==> students == old(students) && studentsFile == old(studentsFile)
      ensures data.Some? ==> students == BackfillIds(data.value, clock) && studentsFile == Some(students)
      ensures faculties == old(faculties) && facultiesFile == old(facultiesFile)
    {
      if data.Some? {
        students := BackfillIds(data.value, clock);
        studentsFile := Some(students);
      }
    }

    /**
     * Start-up load of data/faculties.json: the same backfill, but the
     * backfilled collection is not written back.
     */
    method LoadFaculties(data: Option<seq<Record>>, clock: seq<int>)
      requires data.Some? ==> |clock| == |data.value|
      modifies this
      ensures data.None? ==> faculties == old(faculties)
      ensures data.Some? ==> faculties == BackfillIds(data.value, clock)
      ensures facultiesFile == old(facultiesFile)
      ensures students == old(students) && studentsFile == old(studentsFile)
    {
      if data.Some? {
        faculties := BackfillIds(data.value, clock);
      }
    }

    /** POST /enroll-student: append the new student with id `now`, save, redirect. */
    method EnrollStudent(body: FormBody, upload: Option<string>, now: int) returns (resp: Response)
      modifies this
      ensures students == old(students) + [StudentFromForm(body, upload, now)]
      ensures studentsFile == Some(students)
      ensures faculties == old(faculties) && facultiesFile == old(facultiesFile)
      ensures resp == RedirectTo(Dashboard)
      ensures now != 0 && AllTruthy(old(students), "id") ==> AllTruthy(students, "id")
    {
      AppendKeepsIdsTruthy(students, StudentFromForm(body, upload, now), now);
      students := students + [StudentFromForm(body, upload, now)];
      studentsFile := Some(students);
      resp := RedirectTo(Dashboard);
    }

    /** POST /enroll-faculty: append the new faculty member with id `now`, save, redirect. */
    method EnrollFaculty(body: FormBody, upload: Option<string>, now: int) returns (resp: Response)
      modifies this
      ensures faculties == old(faculties) + [FacultyFromForm(body, upload, now)]
      ensures facultiesFile == Some(faculties)
      ensures students == old(students) && studentsFile == old(studentsFile)
      ensures resp == RedirectTo(Dashboard)
      ensures now != 0 && AllTruthy(old(faculties), "id") ==> AllTruthy(faculties, "id")
    {
      AppendKeepsIdsTruthy(faculties, FacultyFromForm(body, upload, now), now);
      faculties := faculties + [FacultyFromForm(body, upload, now)];
      facultiesFile := Some(faculties);
      resp := RedirectTo(Dashboard);
    }

    /** GET /api/students: the whole collection in insertion order. */
    method ListStudents() returns (resp: Response)
      ensures resp.status == 200 && resp.body == JsonRecords(students)
    {
      resp := Response(200, JsonRecords(students));
    }

    /** GET /api/faculties: the whole collection in insertion order. */
    method ListFaculties() returns (resp: Response)
      ensures resp.status == 200 && resp.body == JsonRecords(faculties)
    {
      resp := Response(200, JsonRecords(faculties));
    }

    /**
     * GET /api/students/:id: the first student whose id is the number
     * `parseInt(param, 10)`, else 404.
     */
    method GetStudent(param: string) returns (resp: Response)
      ensures resp.status == 200 || resp.status == 404
      ensures resp.status == 404 <==> forall j :: 0 <= j < |students| ==> !IdMatches(students[j], ParseInt(param))
      ensures resp.status == 404 ==> resp.body == JsonMessage("Student not found")
      ensures resp.status == 200 ==> resp.body == JsonRecord(students[FindIndex(students, ParseInt(param))])
    {
      var found := Find(students, ParseInt(param));
      if found.Some? {
        resp := Response(200, JsonRecord(found.value));
      } else {
        resp := Response(404, JsonMessage("Student not found"));
      }
    }

    /**
     * POST /generate-fee-receipt: the receipt of the first student whose id is
     * `parseInt(studentId, 10)`, else 404 with plain text. Changes nothing.
     */
    method GenerateFeeReceipt(body: FormBody) returns (resp: Response)
      ensures resp.status == 200 || resp.status == 404
      ensures var key := ParseInt(Display(BodyField(body, "studentId")));
        resp.status == 404 <==> forall j :: 0 <= j < |students| ==> !IdMatches(students[j], key)
      ensures resp.status == 404 ==> resp.body == Text("Student not found")
      ensures resp.status == 200 ==>
        var key := ParseInt(Display(BodyField(body, "studentId")));
        resp.body == Html(FeeReceipt(students[FindIndex(students, key)],
                                     Display(BodyField(body, "amount")),
                                     Display(BodyField(body, "paymentDate"))))
    {
      var key := ParseInt(Display(BodyField(body, "studentId")));
      var selected := Find(students, key);
      if selected.Some? {
        resp := Response(200, Html(FeeReceipt(selected.value,
                                              Display(BodyField(body, "amount")),
                                              Display(BodyField(body, "paymentDate")))));
      } else {
        resp := Response(404, Text("Student not found"));
      }
    }

    /**
     * POST /generate-salary-slip: the slip of the first faculty member whose
     * id is `parseInt(facultyId, 10)`, else 404 with plain text. Changes nothing.
     */
    method GenerateSalarySlip(body: FormBody) returns (resp: Response)
      ensures resp.status == 200 || resp.status == 404
      ensures var key := ParseInt(Display(BodyField(body, "facultyId")));
        resp.status == 404 <==> forall j :: 0 <= j < |faculties| ==> !IdMatches(faculties[j], key)
      ensures resp.status == 404 ==> resp.body == Text("Faculty not found")
      ensures resp.status == 200 ==>
        var key := ParseInt(Display(BodyField(body, "facultyId")));
        resp.body == Html(SalarySlip(faculties[FindIndex(faculties, key)],
                                     Display(BodyField(body, "amount")),
                                     Display(BodyField(body, "paymentDate"))))
    {
      var key := ParseInt(Display(BodyField(body, "facultyId")));
      var selected := Find(faculties, key);
      if selected.Some? {
        resp := Response(200, Html(SalarySlip(selected.value,
                                              Display(BodyField(body, "amount")),
                                              Display(BodyField(body, "paymentDate")))));
      } else {
        resp := Response(404, Text("Faculty not found"));
      }
    }

    /**
     * DELETE /delete-student/:id: splice out the first student whose id is
     * `parseInt(param, 10)` and save; with no match, change nothing and answer 404.
     */
    method DeleteStudent(param: string) returns (resp: Response)
      modifies this
      ensures var i := FindIndex(old(students), ParseInt(param));
        if i == -1 then
          && resp == Response(404, JsonMessage("Student not found"))
          && students == old(students) && studentsFile == old(studentsFile)
        else
          && resp == Response(200, JsonMessage("Student deleted successfully"))
          && students == RemoveAt(old(students), i) && studentsFile == Some(students)
      ensures faculties == old(faculties) && facultiesFile == old(facultiesFile)
      ensures AllTruthy(old(students), "id") ==> AllTruthy(students, "id")
    {
      var i := FindIndex(students, ParseInt(param));
      if i != -1 {
        RemoveAtKeepsIdsTruthy(students, i);
        students := RemoveAt(students, i);
        studentsFile := Some(students);
        resp := Response(200, JsonMessage("Student deleted successfully"));
      } else {
        resp := Response(404, JsonMessage("Student not found"));
      }
    }

    /**
     * DELETE /delete-faculty/:id: splice out the first faculty member whose id
     * is `parseInt(param, 10)` and save; with no match, change nothing and answer 404.
     */
    method DeleteFaculty(param: string) returns (resp: Response)
      modifies this
      ensures var i := FindIndex(old(faculties), ParseInt(param));
        if i == -1 then
          && resp == Response(404, JsonMessage("Faculty not found"))
          && faculties == old(faculties) && facultiesFile == old(facultiesFile)
        else
          && resp == Response(200, JsonMessage("Faculty deleted successfully"))
          && faculties == RemoveAt(old(faculties), i) && facultiesFile == Some(faculties)
      ensures students == old(students) && studentsFile == old(studentsFile)
      ensures AllTruthy(old(faculties), "id") ==> AllTruthy(faculties, "id")
    {
      var i := FindIndex(faculties, ParseInt(param));
      if i != -1 {
        RemoveAtKeepsIdsTruthy(faculties, i);
        faculties := RemoveAt(faculties, i);
        facultiesFile := Some(faculties);
        resp := Response(200, JsonMessage("Faculty deleted successfully"));
      } else {
        resp := Response(404, JsonMessage("Faculty not found"));
      }
    }
  }

  /** Appending a record whose id no earlier record has keeps ids distinct. */
  lemma DistinctIdsAppend(rs: seq<Record>, rec: Record, now: int)
    requires DistinctIds(rs)
    requires "id" in rec && rec["id"] == JNum(now)
    requires FindIndex(rs, Int(now)) == -1
    ensures DistinctIds(rs + [rec])
  {
    var all := rs + [rec];
    forall i, j | 0 <= i < j < |all| && "id" in all[i] && "id" in all[j]
      ensures all[i]["id"] != all[j]["id"]
    {
      if j == |rs| {
        assert !IdMatches(rs[i], Int(now));
      } else {
        assert all[i] == rs[i] && all[j] == rs[j];
      }
    }
  }

  /**
   * The receipt of a student enrolled from a form shows the submitted father's
   * name and class; a field the form did not carry is stored as `undefined`
   * and printed as the text "undefined".
   */
  lemma ReceiptOfEnrolledStudent(body: FormBody, upload: Option<string>, now: int, amount: string, paymentDate: string)
    ensures var d := FeeReceipt(StudentFromForm(body, upload, now), amount, paymentDate);
      && Shows(d, "Father's Name", if "fatherName" in body then body["fatherName"] else "undefined")
      && Shows(d, "Student's Class", if "class" in body then body["class"] else "undefined")
  {
    var r := StudentFromForm(body, upload, now);
    assert "fatherName" in StudentFields;
    assert Get(r, "fatherName") == BodyField(body, "fatherName");
  }

  /**
   * The receipt of a student enrolled from a form embeds `/uploads/<name>`
   * exactly when a file with a non-empty name was uploaded.
   */
  lemma ReceiptPhotoOfEnrolledStudent(body: FormBody, upload: Option<string>, now: int, amount: string, paymentDate: string)
    ensures var d := FeeReceipt(StudentFromForm(body, upload, now), amount, paymentDate);
      && (d.photo.Some? <==> upload.Some? && upload.value != "")
      && (d.photo.Some? ==> d.photo.value.src == "/uploads/" + upload.value)
  {
    var r := StudentFromForm(body, upload, now);
    assert Get(r, "photo") == Some(PhotoValue(upload));
  }

  /**
   * The enroll routes do not check `Date.now()` against the ids already
   * stored. Start-up gives two id-less students 100 and 101 (clock at 100);
   * a student enrolled at 101 then shares id 101 with the second of them,
   * and GET /api/students/101 returns that older student, not the new one.
   */
  method EnrollMayReuseLoadedId() returns (got: Response)
    ensures got == Response(200, JsonRecord(map["id" := JNum(101)]))
    ensures got.body.record != StudentFromForm(map[], None, 101)
  {
    var store := new RecordStore();
    store.LoadStudents(Some([map[], map[]]), [100, 100]);
    LoadedIds();
    var _ := store.EnrollStudent(map[], None, 101);
    FirstOfTwoWithId(store.students, 101);
    ParseIntOfNumberToString(101, []);
    assert NumberToString(101) + [] == NumberToString(101);
    got := store.GetStudent(NumberToString(101));
    assert "photo" in StudentFromForm(map[], None, 101);
  }

  /** Start-up backfill of two id-less students with the clock at 100. */
  lemma LoadedIds()
    ensures BackfillIds([map[], map[]], [100, 100]) == [map["id" := JNum(100)], map["id" := JNum(101)]]
  {
    var loaded: seq<Record> := [map[], map[]];
    assert !FieldTruthy(loaded[0], "id") && !FieldTruthy(loaded[1], "id");
  }

  /** The second of the two loaded students is the first match for its id. */
  lemma FirstOfTwoWithId(rs: seq<Record>, id: int)
    requires |rs| >= 2 && id != 100
    requires rs[..2] == [map["id" := JNum(100)], map["id" := JNum(id)]]
    ensures FindIndex(rs, Int(id)) == 1
  {
    assert rs[0] == map["id" := JNum(100)] && rs[1] == map["id" := JNum(id)];
    assert !IdMatches(rs[0], Int(id)) && IdMatches(rs[1], Int(id));
  }

  /**
   * The enroll / look up / delete scenario: a student enrolled at time `now`
   * (no earlier student having that id) is returned by GET /api/students/<now>;
   * DELETE /delete-student/<now> then removes exactly that student, and the
   * same GET answers 404. Earlier students may share ids among themselves.
   */
  method EnrollLookUpDelete(store: RecordStore, body: FormBody, now: int) returns (got: Response, deleted: Response, gone: Response)
    requires FindIndex(store.students, Int(now)) == -1
    modifies store
    ensures got == Response(200, JsonRecord(StudentFromForm(body, None, now)))
    ensures deleted == Response(200, JsonMessage("Student deleted successfully"))
    ensures gone == Response(404, JsonMessage("Student not found"))
    ensures store.students == old(store.students)
    ensures store.faculties == old(store.faculties)
  {
    ghost var before := store.students;
    var rec := StudentFromForm(body, None, now);
    var param := NumberToString(now);
    FindAfterAppend(before, rec, now);
    var _ := store.EnrollStudent(body, None, now);
    assert store.students == before + [rec];
    got := store.GetStudent(param);
    deleted := store.DeleteStudent(param);
    assert (before + [rec])[..|before|] == before;
    assert store.students == before;
    gone := store.GetStudent(param);
  }
}
