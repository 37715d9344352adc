/**
 * The backfill map shared by server start-up and the three migration scripts:
 *
 *   records.map((r, index) => ({ ...r, f: r.f || gen(index) }))
 *
 * A record whose field `f` is truthy keeps it; any other record (the field is
 * missing, null, false, 0 or "") gets the generated number for its position.
 * The generator is a parameter: `gen[i]` is what `gen(i)` evaluates to.
 */
module Backfill {
  import opened JsValues

  /** `{ ...r, f: r.f || v }` */
  function FillRecord(r: Record, f: string, v: JsValue): (r': Record)
    ensures f in r'
    ensures FieldTruthy(r, f) ==> r' == r
    ensures !FieldTruthy(r, f) ==> r'[f] == v
    ensures forall k :: k != f ==> (k in r' <==> k in r)
    ensures forall k :: k in r && k != f ==> r'[k] == r[k]
  {
    r[f := if FieldTruthy(r, f) then r[f] else v]
  }

  /** Every record of the collection has a truthy field `f`. */
  predicate AllTruthy(rs: seq<Record>, f: string)
  {
    forall i :: 0 <= i < |rs| ==> FieldTruthy(rs[i], f)
  }

  /**
   * The map itself: same length and order; a truthy field is kept, any other
   * record is the same record with `f` set to `gen[i]`.
   */
  function FillField(rs: seq<Record>, f: string, gen: seq<int>): (out: seq<Record>)
    requires |gen| == |rs|
    ensures |out| == |rs|
    ensures forall i :: 0 <= i < |rs| && FieldTruthy(rs[i], f) ==> out[i] == rs[i]
    ensures forall i :: 0 <= i < |rs| && !FieldTruthy(rs[i], f) ==> out[i] == rs[i][f := JNum(gen[i])]
  {
    seq(|rs|, i requires 0 <= i < |rs| => FillRecord(rs[i], f, JNum(gen[i])))
  }

  /** When every generated number is non-zero, the field is truthy everywhere afterwards. */
  lemma FillFieldAllTruthy(rs: seq<Record>, f: string, gen: seq<int>)
    requires |gen| == |rs|
    requires forall i :: 0 <= i < |gen| ==> gen[i] != 0
    ensures AllTruthy(FillField(rs, f, gen), f)
  {
    var out := FillField(rs, f, gen);
    forall i | 0 <= i < |out|
      ensures FieldTruthy(out[i], f)
    {
      if !FieldTruthy(rs[i], f) {
        assert out[i][f] == JNum(gen[i]);
      }
    }
  }

  /** On a collection whose field is already truthy everywhere, the map changes nothing. */
  lemma FillFieldIdempotent(rs: seq<Record>, f: string, gen: seq<int>)
    requires |gen| == |rs|
    requires AllTruthy(rs, f)
    ensures FillField(rs, f, gen) == rs
  {
    var out := FillField(rs, f, gen);
    assert forall i :: 0 <= i < |rs| ==> out[i] == rs[i];
  }

  /**
   * Running the map a second time, whatever the second generator yields, gives
   * the result of the first run, provided the first run generated no zero.
   */
  lemma FillFieldTwice(rs: seq<Record>, f: string, first: seq<int>, second: seq<int>)
    requires |first| == |rs| && |second| == |rs|
    requires forall i :: 0 <= i < |first| ==> first[i] != 0
    ensures FillField(FillField(rs, f, first), f, second) == FillField(rs, f, first)
  {
    FillFieldAllTruthy(rs, f, first);
    FillFieldIdempotent(FillField(rs, f, first), f, second);
  }

  /** The numbers that the clock-based backfill assigns: `Date.now() + index`. */
  function ClockIds(clock: seq<int>): (ids: seq<int>)
    ensures |ids| == |clock|
    ensures forall i :: 0 <= i < |clock| ==> ids[i] - i == clock[i]
  {
    seq(|clock|, i requires 0 <= i < |clock| => clock[i] + i)
  }

  /** A clock that never goes backwards across the map. */
  predicate NonDecreasing(clock: seq<int>)
  {
    forall i, j :: 0 <= i <= j < |clock| ==> clock[i] <= clock[j]
  }

  /**
   * `id: r.id || Date.now() + index`, with `clock[i]` the value `Date.now()`
   * returns while the map visits position `i`.
   */
  function BackfillIds(rs: seq<Record>, clock: seq<int>): (out: seq<Record>)
    requires |clock| == |rs|
    ensures |out| == |rs|
    ensures forall i :: 0 <= i < |rs| && FieldTruthy(rs[i], "id") ==> out[i] == rs[i]
    ensures forall i :: 0 <= i < |rs| && !FieldTruthy(rs[i], "id") ==>
      out[i] == rs[i]["id" := JNum(clock[i] + i)]
  {
    FillField(rs, "id", ClockIds(clock))
  }

  /**
   * With a non-decreasing clock, the ids filled in by one run strictly
   * increase with position, so no two of them are equal.
   */
  lemma BackfillIdsIncrease(rs: seq<Record>, clock: seq<int>, i: int, j: int)
    requires |clock| == |rs| && NonDecreasing(clock)
    requires 0 <= i < j < |rs|
    requires !FieldTruthy(rs[i], "id") && !FieldTruthy(rs[j], "id")
    ensures BackfillIds(rs, clock)[i]["id"].JNum? && BackfillIds(rs, clock)[j]["id"].JNum?
    ensures BackfillIds(rs, clock)[i]["id"].n < BackfillIds(rs, clock)[j]["id"].n
  {
    var ids := ClockIds(clock);
    assert ids[i] < ids[j];
  }

  /**
   * Nothing compares a filled-in id against the ids already present: with the
   * clock at 4, the record at position 1 gets 5, the id record 0 already has.
   */
  lemma BackfillIdsMayRepeatExistingId()
    ensures var out := BackfillIds([map["id" := JNum(5)], map[]], [4, 4]);
      out[0]["id"] == out[1]["id"] == JNum(5)
  {
    var rs: seq<Record> := [map["id" := JNum(5)], map[]];
    assert FieldTruthy(rs[0], "id");
    assert !FieldTruthy(rs[1], "id");
    assert ClockIds([4, 4])[1] == 5;
  }

  /** With a positive clock, every record has a truthy id afterwards. */
  lemma BackfillIdsIdentifiesAll(rs: seq<Record>, clock: seq<int>)
    requires |clock| == |rs|
    ensures (forall i :: 0 <= i < |clock| ==> clock[i] > 0) ==> AllTruthy(BackfillIds(rs, clock), "id")
  {
    if forall i :: 0 <= i < |clock| ==> clock[i] > 0 {
      FillFieldAllTruthy(rs, "id", ClockIds(clock));
    }
  }

  /** Once every record has a truthy id, a later run returns the collection unchanged. */
  lemma BackfillIdsIdempotent(rs: seq<Record>, clock: seq<int>)
    requires |clock| == |rs|
    requires AllTruthy(rs, "id")
    ensures BackfillIds(rs, clock) == rs
  {
    FillFieldIdempotent(rs, "id", ClockIds(clock));
  }
}
