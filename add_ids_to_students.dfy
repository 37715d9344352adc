/**
 * The one-off script add-ids-to-students.js: every student without a truthy
 * `id` gets its one-based position, `id: student.id || (index + 1)`.
 */
module AddIdsToStudents {
  import opened JsValues
  import opened Backfill

  /** The generated ids: position plus one. */
  function Positions(n: nat): (ids: seq<int>)
    ensures |ids| == n
    ensures forall i :: 0 <= i < n ==> ids[i] == i + 1
  {
    seq(n, i => i + 1)
  }

  /**
   * Same length and order, every other field unchanged; a truthy id is kept,
   * a falsy or missing id at position i becomes i + 1; afterwards every
   * student has a truthy id.
   */
  function AddIds(students: seq<Record>): (out: seq<Record>)
    ensures |out| == |students|
    ensures forall i :: 0 <= i < |out| ==> "id" in out[i]
    ensures forall i, k :: 0 <= i < |out| && k != "id" ==>
      (k in out[i] <==> k in students[i]) && (k in out[i] ==> out[i][k] == students[i][k])
    ensures forall i :: 0 <= i < |out| && FieldTruthy(students[i], "id") ==> out[i]["id"] == students[i]["id"]
    ensures forall i :: 0 <= i < |out| && !FieldTruthy(students[i], "id") ==> out[i]["id"] == JNum(i + 1)
    ensures AllTruthy(out, "id")
  {
    FillFieldAllTruthy(students, "id", Positions(|students|));
    FillField(students, "id", Positions(|students|))
  }

  /** Running the script twice gives what running it once gives. */
  lemma AddIdsTwice(students: seq<Record>)
    ensures AddIds(AddIds(students)) == AddIds(students)
  {
    FillFieldIdempotent(AddIds(students), "id", Positions(|students|));
  }

  /**
   * The ids filled in by one run are pairwise distinct. They are not checked
   * against the ids already present: a student at position 0 without an id
   * gets 1 even when the next student already has id 1.
   */
  lemma AddIdsFilledDistinct(students: seq<Record>, i: int, j: int)
    requires 0 <= i < j < |students|
    requires !FieldTruthy(students[i], "id") && !FieldTruthy(students[j], "id")
    ensures AddIds(students)[i]["id"] != AddIds(students)[j]["id"]
  {
    var out := AddIds(students);
    assert out[i]["id"] == JNum(i + 1) && out[j]["id"] == JNum(j + 1);
  }

  lemma AddIdsMayRepeatExistingId()
    ensures var out := AddIds([map[], map["id" := JNum(1)]]);
      out[0]["id"] == out[1]["id"] == JNum(1)
  {
    var students: seq<Record> := [map[], map["id" := JNum(1)]];
    assert !FieldTruthy(students[0], "id");
    assert FieldTruthy(students[1], "id");
  }
}
