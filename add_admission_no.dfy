/**
 * The one-off script add-admission-no-to-students.js: every student without a
 * truthy `admissionNo` gets `generateAdmissionNo() + index`, where
 * `generateAdmissionNo()` is `Math.floor(Math.random() * 1000000)`.
 * `draws[i]` is the value `Math.random()` returns at position `i`.
 */
module AddAdmissionNo {
  import opened JsValues
  import opened Backfill

  /** `Math.floor(u * 1000000)` for a draw `u` in [0, 1): a whole number in [0, 999999]. */
  function GenerateAdmissionNo(u: real): (n: int)
    requires 0.0 <= u < 1.0
    ensures 0 <= n <= 999999
    ensures n as real <= u * 1000000.0 < n as real + 1.0
  {
    (u * 1000000.0).Floor
  }

  predicate ValidDraws(draws: seq<real>)
  {
    forall i :: 0 <= i < |draws| ==> 0.0 <= draws[i] < 1.0
  }

  /** The numbers the script would assign: generated number plus position. */
  function AdmissionNumbers(draws: seq<real>): (nos: seq<int>)
    requires ValidDraws(draws)
    ensures |nos| == |draws|
    ensures forall i :: 0 <= i < |draws| ==> nos[i] == GenerateAdmissionNo(draws[i]) + i
    ensures forall i :: 0 <= i < |draws| ==> i <= nos[i] <= 999999 + i
  {
    seq(|draws|, i requires 0 <= i < |draws| => GenerateAdmissionNo(draws[i]) + i)
  }

  /**
   * Same length and order, every field other than admissionNo (the id
   * included) unchanged; a truthy admissionNo is kept; a missing or falsy one
   * at position i becomes the generated number plus i, which lies in
   * [i, 999999 + i].
   */
  function AddAdmissionNos(students: seq<Record>, draws: seq<real>): (out: seq<Record>)
    requires |draws| == |students| && ValidDraws(draws)
    ensures |out| == |students|
    ensures forall i :: 0 <= i < |out| ==> "admissionNo" in out[i]
    ensures forall i, k :: 0 <= i < |out| && k != "admissionNo" ==>
      (k in out[i] <==> k in students[i]) && (k in out[i] ==> out[i][k] == students[i][k])
    ensures forall i :: 0 <= i < |out| && FieldTruthy(students[i], "admissionNo") ==>
      out[i]["admissionNo"] == students[i]["admissionNo"]
    ensures forall i :: 0 <= i < |out| && !FieldTruthy(students[i], "admissionNo") ==>
      out[i]["admissionNo"] == JNum(GenerateAdmissionNo(draws[i]) + i)
    ensures forall i :: 0 <= i < |out| && !FieldTruthy(students[i], "admissionNo") ==>
      out[i]["admissionNo"].JNum? && i <= out[i]["admissionNo"].n <= 999999 + i
  {
    FillField(students, "admissionNo", AdmissionNumbers(draws))
  }

  /**
   * Running the script again changes nothing, provided the first run did not
   * assign 0; only position 0 can receive 0, when it has no truthy
   * admissionNo and its draw is below 1e-6.
   */
  lemma AddAdmissionNosTwice(students: seq<Record>, first: seq<real>, second: seq<real>)
    requires |first| == |students| && ValidDraws(first)
    requires |second| == |students| && ValidDraws(second)
    requires |students| > 0 && !FieldTruthy(students[0], "admissionNo") ==> GenerateAdmissionNo(first[0]) != 0
    ensures AddAdmissionNos(AddAdmissionNos(students, first), second) == AddAdmissionNos(students, first)
  {
    var once := AddAdmissionNos(students, first);
    forall i | 0 <= i < |once|
      ensures FieldTruthy(once[i], "admissionNo")
    {
      if !FieldTruthy(students[i], "admissionNo") {
        assert once[i]["admissionNo"] == JNum(GenerateAdmissionNo(first[i]) + i);
      }
    }
    FillFieldIdempotent(once, "admissionNo", AdmissionNumbers(second));
  }

  /**
   * A draw of 0 at position 0 assigns admission number 0, which is falsy, so a
   * second run replaces it.
   */
  lemma AddAdmissionNosZeroIsReplaced()
    ensures AddAdmissionNos([map[]], [0.0])[0]["admissionNo"] == JNum(0)
    ensures AddAdmissionNos(AddAdmissionNos([map[]], [0.0]), [0.5])[0]["admissionNo"] == JNum(500000)
  {
    var once := AddAdmissionNos([map[]], [0.0]);
    assert AdmissionNumbers([0.0])[0] == 0;
    assert !FieldTruthy(once[0], "admissionNo");
    assert AdmissionNumbers([0.5])[0] == 500000;
  }

  /**
   * Adding the index does not make the numbers unique: draws that floor to 2
   * and 1 at positions 0 and 1 both give 2.
   */
  lemma AddAdmissionNosMayCollide()
    ensures var out := AddAdmissionNos([map[], map[]], [0.000002, 0.000001]);
      out[0]["admissionNo"] == out[1]["admissionNo"] == JNum(2)
  {
    var nos := AdmissionNumbers([0.000002, 0.000001]);
    assert nos[0] == 2 && nos[1] == 2;
  }
}
