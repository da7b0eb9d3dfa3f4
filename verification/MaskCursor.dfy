/** The mask cursor of the streaming builder on strings: alternatives tried one after the other while a
    string is built and when it ends. */
module MaskCursor {
  import opened Wrappers
  import opened JsonValue
  import opened JsonMask

  function RowList(rows: Rows): seq<Row> { match rows case One(r) => [r] case Many(rs) => rs }

  /** An alternative a string may be built under. */
  predicate Fit(r: Row) { r.kind == TAny || r.kind == TString }

  /** The next such alternative from an index on. */
  function FirstFit(rows: seq<Row>, i: nat): (k: Option<nat>)
    ensures k.Some? ==> i <= k.value < |rows| && Fit(rows[k.value])
    ensures forall j :: i <= j < (if k.Some? then k.value else |rows|) ==> !Fit(rows[j])
    decreases |rows| - i
  {
    if i >= |rows| then None else if Fit(rows[i]) then Some(i) else FirstFit(rows, i + 1)
  }

  predicate MaxAdmits(size: nat, max: Option<int>) { max.Some? ==> size < AsSize(max.value) }
  predicate MinAdmits(size: nat, min: Option<int>) { min.Some? ==> min.value < 0 || size > min.value }
  predicate ValueAdmits(s: string, value: Option<Json>) { value.Some? ==> value.value == JString(s) }

  /** The alternative lets the finished string pass. */
  predicate Admits(s: string, r: Row) {
    || r.kind == TAny
    || (r.kind == TString && MaxAdmits(|s|, r.maxMean) && MinAdmits(|s|, r.minMean) && ValueAdmits(s, r.value))
  }

  predicate SomeAdmits(s: string, rows: seq<Row>, i: nat) {
    exists k :: i <= k < |rows| && Admits(s, rows[k])
  }

  class Cursor {
    const types: Rows
    /** current_types is not null. */
    var hasTypes: bool
    var currentType: nat
    var maxMeanSize: Option<int>
    var minMeanSize: Option<int>

    constructor (rows: Rows)
      ensures types == rows && hasTypes && currentType == 0
    {
      types, hasTypes, currentType, maxMeanSize, minMeanSize := rows, true, 0, None, None;
    }

    /** At an alternative: any ends the search, and a string's bounds are at hand. */
    predicate StandsAt(k: nat)
      reads this
    {
      && k < |RowList(types)| && currentType == k && Fit(RowList(types)[k])
      && hasTypes == (RowList(types)[k].kind == TString)
      && (hasTypes ==> (maxMeanSize, minMeanSize) == (RowList(types)[k].maxMean, RowList(types)[k].minMean))
    }

    /** _next_type. */
    method NextType() returns (thrown: bool)
      requires hasTypes && currentType < |RowList(types)|
      modifies this
      ensures var k := FirstFit(RowList(types), old(currentType) + 1);
        if thrown then k.None? else k.Some? && StandsAt(k.value)
      decreases |RowList(types)| - currentType, 0
    {
      currentType := currentType + 1;
      if types.Many? && currentType < |types.rows| {
        thrown := CheckEqType();
        return;
      }
      return true;
    }

    /** _check_eq_type, for a string. */
    method CheckEqType() returns (thrown: bool)
      requires currentType < |RowList(types)|
      modifies this
      ensures old(hasTypes) ==> var k := FirstFit(RowList(types), old(currentType));
        if thrown then k.None? else k.Some? && StandsAt(k.value)
      ensures !old(hasTypes) ==> !thrown && !hasTypes && currentType == old(currentType)
      decreases |RowList(types)| - currentType, 1
    {
      maxMeanSize, minMeanSize := None, None;
      if !hasTypes {
        return false;
      }
      var current := RowList(types)[currentType];
      maxMeanSize, minMeanSize := current.maxMean, current.minMean;
      if current.kind == TAny {
        hasTypes := false;
        return false;
      }
      if current.kind == TString {
        return false;
      }
      thrown := NextType();
      if !thrown {
        thrown := CheckEqType();
      }
    }

    /** _check_default: whether the alternative admits the string; if not, the next one has been taken. */
    method CheckDefault(s: string) returns (done: bool, thrown: bool)
      requires StandsAt(currentType)
      modifies this
      ensures done == Admits(s, RowList(types)[old(currentType)])
      ensures done ==> !thrown && currentType == old(currentType)
      ensures !done ==> var k := FirstFit(RowList(types), old(currentType) + 1);
        if thrown then k.None? else k.Some? && StandsAt(k.value)
    {
      thrown := false;
      if !hasTypes {
        return true, false;
      }
      var value := RowList(types)[currentType].value;
      if maxMeanSize.Some? && !(|s| < AsSize(maxMeanSize.value)) {
        thrown := NextType();
        return false, thrown;
      }
      if minMeanSize.Some? && !(minMeanSize.value < 0 || |s| > minMeanSize.value) {
        thrown := NextType();
        return false, thrown;
      }
      if value.Some? && !(value.value.JArray? || value.value.JObject?) && value.value != JString(s) {
        thrown := NextType();
        return false, thrown;
      }
      if value.Some? && value.value != JString(s) {
        thrown := NextType();
        return false, thrown;
      }
      return true, false;
    }

    /** _check_string. */
    method CheckString(s: string) returns (thrown: bool)
      requires StandsAt(currentType)
      modifies this
      ensures thrown <==> !SomeAdmits(s, RowList(types), old(currentType))
    {
      var done := false;
      thrown := false;
      while !done
        invariant !thrown && (!done ==> StandsAt(currentType) && old(currentType) <= currentType)
        invariant forall j :: old(currentType) <= j < currentType && j < |RowList(types)| ==>
          !Admits(s, RowList(types)[j])
        invariant done ==> SomeAdmits(s, RowList(types), old(currentType))
        decreases if done then 0 else 1 + |RowList(types)| - currentType
      {
        done, thrown := CheckDefault(s);
        if thrown {
          return;
        }
      }
    }
  }

  /** A string given to a builder with a mask: its first byte chooses an alternative, its end checks it.
      It passes exactly when some alternative lets it, and the search ends. */
  method StreamString(rows: Rows, s: string) returns (accepted: bool)
    requires RowList(rows) != []
    ensures accepted <==> SomeAdmits(s, RowList(rows), 0)
  {
    var cursor := new Cursor(rows);
    var thrown := cursor.CheckEqType();
    if thrown {
      return false;
    }
    thrown := cursor.CheckString(s);
    return !thrown;
  }

  // ---- against the validator of finished values ------------------------------------------------

  predicate HasTextValue(r: Row) { r.value.Some? ==> r.value.value.JString? }

  predicate NotNegative(r: Row) { r.minMean.Some? ==> r.minMean.value >= 0 }

  lemma RowAgrees(s: string, r: Row)
    requires HasTextValue(r) && NotNegative(r)
    ensures ValidRow(JString(s), r) == Holds(Admits(s, r))
  {
  }

  /** The two validators agree on a string when values are texts and lower bounds are not negative. */
  lemma {:induction false} Agree(s: string, rows: seq<Row>)
    requires forall k :: 0 <= k < |rows| ==> HasTextValue(rows[k]) && NotNegative(rows[k])
    ensures ValidRows(JString(s), rows) == Holds(SomeAdmits(s, rows, 0))
    decreases |rows|
  {
    hide Admits, HasTextValue, NotNegative, ValidRow;
    if rows != [] {
      RowAgrees(s, rows[0]);
      Agree(s, rows[1..]);
      assert forall k :: 0 <= k < |rows| - 1 ==> rows[1..][k] == rows[k + 1];
      assert forall k :: 1 <= k < |rows| ==> rows[1..][k - 1] == rows[k];
    }
  }

  /** On one string alternative without a value they agree on every string exactly then, or when the
      upper bound leaves nothing to admit. */
  lemma AgreeExactly(r: Row)
    requires r.kind == TString && r.value == None
    requires r.minMean.Some? ==> INT64_MIN <= r.minMean.value <= INT64_MAX
    requires r.maxMean.Some? ==> INT64_MIN <= r.maxMean.value <= INT64_MAX
    ensures NotNegative(r) || r.maxMean == Some(0) <==>
      forall s: string :: |s| <= INT64_MAX ==> ValidRow(JString(s), r) == Holds(Admits(s, r))
  {
    if !NotNegative(r) && r.maxMean != Some(0) {
      assert ValidRow(JString(""), r) != Holds(Admits("", r));
    }
  }
}
