/**
 * The one-off script add-id-to-faculties.js: every faculty member without a
 * truthy `id` gets `Date.now() + index`, the same rule the server applies at
 * start-up. `clock[i]` is the clock reading taken at position `i`.
 */
module AddIdToFaculties {
  import opened JsValues
  import opened Backfill

  /**
   * Same length and order, every other field unchanged; a truthy id is kept,
   * any other record gets clock[i] + i; with a positive clock every faculty
   * member has a truthy id afterwards.
   */
  function AddIds(faculties: seq<Record>, clock: seq<int>): (out: seq<Record>)
    requires |clock| == |faculties|
    ensures |out| == |faculties|
    ensures forall i :: 0 <= i < |out| ==> "id" in out[i]
    ensures forall i, k :: 0 <= i < |out| && k != "id" ==>
      (k in out[i] <==> k in faculties[i]) && (k in out[i] ==> out[i][k] == faculties[i][k])
    ensures forall i :: 0 <= i < |out| && FieldTruthy(faculties[i], "id") ==> out[i]["id"] == faculties[i]["id"]
    ensures forall i :: 0 <= i < |out| && !FieldTruthy(faculties[i], "id") ==> out[i]["id"] == JNum(clock[i] + i)
    ensures (forall i :: 0 <= i < |clock| ==> clock[i] > 0) ==> AllTruthy(out, "id")
  {
    BackfillIdsIdentifiesAll(faculties, clock);
    BackfillIds(faculties, clock)
  }

  /**
   * With a non-decreasing clock, the ids the script fills in strictly increase
   * with position.
   */
  lemma AddIdsIncrease(faculties: seq<Record>, clock: seq<int>, i: int, j: int)
    requires |clock| == |faculties| && NonDecreasing(clock)
    requires 0 <= i < j < |faculties|
    requires !FieldTruthy(faculties[i], "id") && !FieldTruthy(faculties[j], "id")
    ensures AddIds(faculties, clock)[i]["id"].JNum? && AddIds(faculties, clock)[j]["id"].JNum?
    ensures AddIds(faculties, clock)[i]["id"].n < AddIds(faculties, clock)[j]["id"].n
  {
    BackfillIdsIncrease(faculties, clock, i, j);
  }

  /** On a fully identified collection the script changes nothing. */
  lemma AddIdsIdempotent(faculties: seq<Record>, clock: seq<int>)
    requires |clock| == |faculties|
    requires AllTruthy(faculties, "id")
    ensures AddIds(faculties, clock) == faculties
  {
    BackfillIdsIdempotent(faculties, clock);
  }
}
