/** `Meal`, `Ingredient` and `MealResults` as decoded from the recipe API's
    JSON: three required string fields, one optional one, and the twenty
    numbered ingredient/measure slots flattened into an ordered list. */
module MealData {
  import opened Json

  /** One (ingredient, measurement) pair. The UI-only surrogate `id` is left
      out, so two pairs are equal when their strings are. */
  datatype Ingredient = Ingredient(ingredientName: string, measurement: string)

  datatype Meal = Meal(
    idMeal: string,
    strMeal: string,
    strMealThumb: string,
    strInstructions: Option<string>,
    ingredients: Option<seq<Ingredient>>)
  {
    /** The `Identifiable` identity of a meal. */
    function Id(): string {
      idMeal
    }
  }

  /** The decoded response envelope `{ "meals": [...] }`. */
  datatype MealResults = MealResults(meals: seq<Meal>)

  /** Number of numbered ingredient/measure slot pairs in the API's schema. */
  const SlotCount: nat := 20

  /** The raw values of the cases of `Meal.CodingKeys`, in declaration order:
      the four named fields, then the twenty ingredient and twenty measure
      slots. */
  const FieldKeyNames: seq<string> := ["idMeal", "strMeal", "strMealThumb", "strInstructions"]

  const IngredientKeyNames: seq<string> := [
    "strIngredient1", "strIngredient2", "strIngredient3", "strIngredient4", "strIngredient5",
    "strIngredient6", "strIngredient7", "strIngredient8", "strIngredient9", "strIngredient10",
    "strIngredient11", "strIngredient12", "strIngredient13", "strIngredient14", "strIngredient15",
    "strIngredient16", "strIngredient17", "strIngredient18", "strIngredient19", "strIngredient20"
  ]

  const MeasureKeyNames: seq<string> := [
    "strMeasure1", "strMeasure2", "strMeasure3", "strMeasure4", "strMeasure5",
    "strMeasure6", "strMeasure7", "strMeasure8", "strMeasure9", "strMeasure10",
    "strMeasure11", "strMeasure12", "strMeasure13", "strMeasure14", "strMeasure15",
    "strMeasure16", "strMeasure17", "strMeasure18", "strMeasure19", "strMeasure20"
  ]

  const CodingKeyNames: seq<string> := FieldKeyNames + IngredientKeyNames + MeasureKeyNames

  /** `CodingKeys(stringValue:)`: the case whose raw value is `name`, if any. */
  function CodingKeyFor(name: string): (k: Option<string>)
    ensures k.Some? <==> name in CodingKeyNames
    ensures k.Some? ==> k.value == name
  {
    if name in CodingKeyNames then Some(name) else None
  }

  function DigitChar(d: nat): (c: char)
    requires d < 10
    ensures '0' <= c <= '9' && c as int - '0' as int == d
  {
    (d + '0' as int) as char
  }

  /** Swift's string interpolation of a non-negative `Int`: its decimal digits. */
  function DecimalString(n: nat): (r: string)
    ensures |r| >= 1
    ensures forall k :: 0 <= k < |r| ==> '0' <= r[k] <= '9'
  {
    if n < 10 then [DigitChar(n)] else DecimalString(n / 10) + [DigitChar(n % 10)]
  }

  /** The number a string of decimal digits denotes. */
  function DecimalValue(s: string): nat
  {
    if s == [] then 0
    else
      var d := s[|s| - 1] as int - '0' as int;
      DecimalValue(s[..|s| - 1]) * 10 + (if 0 <= d < 10 then d else 0)
  }

  /** Reading back the digits gives the index: distinct indices build
      distinct keys. */
  lemma {:induction false} DecimalRoundTrip(n: nat)
    ensures DecimalValue(DecimalString(n)) == n
  {
    var r := DecimalString(n);
    if n >= 10 {
      DecimalRoundTrip(n / 10);
      assert r[..|r| - 1] == DecimalString(n / 10);
    }
  }

  /** `"strIngredient\(index)"` and `"strMeasure\(index)"`. */
  function IngredientKey(i: nat): string {
    "strIngredient" + DecimalString(i)
  }

  function MeasureKey(i: nat): string {
    "strMeasure" + DecimalString(i)
  }

  /** The keys of every slot index in 1..n are the cases declared for that
      index; a predicate Dafny can evaluate on a literal `n`. */
  ghost predicate SlotKeysDeclaredUpTo(n: nat)
    requires n <= SlotCount
  {
    n == 0 || (
      && IngredientKey(n) == IngredientKeyNames[n - 1]
      && MeasureKey(n) == MeasureKeyNames[n - 1]
      && SlotKeysDeclaredUpTo(n - 1))
  }

  lemma {:induction false} SlotKeysDeclaredBelow(n: nat, i: int)
    requires n <= SlotCount && SlotKeysDeclaredUpTo(n) && 1 <= i <= n
    ensures IngredientKey(i) in CodingKeyNames && MeasureKey(i) in CodingKeyNames
  {
    if i < n {
      SlotKeysDeclaredBelow(n - 1, i);
    } else {
      assert CodingKeyNames[|FieldKeyNames| + i - 1] == IngredientKey(i);
      assert CodingKeyNames[|FieldKeyNames| + SlotCount + i - 1] == MeasureKey(i);
    }
  }

  // Dafny evaluates the predicate on a literal only a few levels deep, so
  // these lemmas climb to slot 20 four slots at a time.
  lemma SlotKeysDeclaredThrough4()
    ensures SlotKeysDeclaredUpTo(4)
  {
    assert SlotKeysDeclaredUpTo(2);
  }

  lemma SlotKeysDeclaredThrough8()
    ensures SlotKeysDeclaredUpTo(8)
  {
    SlotKeysDeclaredThrough4();
    assert SlotKeysDeclaredUpTo(6);
  }

  lemma SlotKeysDeclaredThrough12()
    ensures SlotKeysDeclaredUpTo(12)
  {
    SlotKeysDeclaredThrough8();
    assert SlotKeysDeclaredUpTo(10);
  }

  lemma SlotKeysDeclaredThrough16()
    ensures SlotKeysDeclaredUpTo(16)
  {
    SlotKeysDeclaredThrough12();
    assert SlotKeysDeclaredUpTo(14);
  }

  lemma SlotKeysDeclaredThrough20()
    ensures SlotKeysDeclaredUpTo(20)
  {
    SlotKeysDeclaredThrough16();
    assert SlotKeysDeclaredUpTo(18);
  }

  /** Every key built for an index in 1...20 is a declared coding key, so the
      force-unwrap of `CodingKeys(stringValue:)` never traps. */
  lemma SlotKeysDeclared(i: int)
    requires 1 <= i <= SlotCount
    ensures IngredientKey(i) in CodingKeyNames && MeasureKey(i) in CodingKeyNames
  {
    SlotKeysDeclaredThrough20();
    SlotKeysDeclaredBelow(20, i);
  }

  // ---------------------------------------------------------------------
  // The ingredient list: `(1...20).compactMap { ... }` under `try?`
  // ---------------------------------------------------------------------

  /** The `compactMap` closure for one index. The guard binds the ingredient
      first, so the measure is decoded only when the ingredient is a present
      string; either decode may throw; an empty string on either side drops
      the slot. Strings are not trimmed. */
  function SlotIngredient(obj: JObject, i: int): Result<Option<Ingredient>>
    requires 1 <= i <= SlotCount
  {
    SlotKeysDeclared(i);
    var name :- DecodeIfPresent(obj, CodingKeyFor(IngredientKey(i)).value);
    if name.None? then Ok(None)
    else
      var measure :- DecodeIfPresent(obj, CodingKeyFor(MeasureKey(i)).value);
      if measure.None? || name.value == [] || measure.value == [] then Ok(None)
      else Ok(Some(Ingredient(name.value, measure.value)))
  }

  /** `compactMap` over the indices from..20, in order: the first throwing slot
      makes the whole map throw. */
  function CompactSlots(obj: JObject, from: int): Result<seq<Ingredient>>
    requires 1 <= from <= SlotCount + 1
    decreases SlotCount + 1 - from
  {
    if from > SlotCount then Ok([])
    else
      var slot :- SlotIngredient(obj, from);
      var rest :- CompactSlots(obj, from + 1);
      Ok(if slot.Some? then [slot.value] + rest else rest)
  }

  /** `try? (1...20).compactMap { ... }`: any throw becomes `nil`. */
  function DecodeIngredients(obj: JObject): Option<seq<Ingredient>> {
    match CompactSlots(obj, 1)
    case Ok(pairs) => Some(pairs)
    case Err(_) => None
  }

  // The reference rules the ingredient list is judged against.

  /** Slot i contributes a pair: both of its fields are present, non-empty
      strings. */
  ghost predicate Qualifies(obj: JObject, i: nat) {
    && IngredientKey(i) in obj && obj[IngredientKey(i)].JStr? && obj[IngredientKey(i)].s != []
    && MeasureKey(i) in obj && obj[MeasureKey(i)].JStr? && obj[MeasureKey(i)].s != []
  }

  /** The pair a qualifying slot contributes. */
  ghost function PairAt(obj: JObject, i: nat): Ingredient
    requires Qualifies(obj, i)
  {
    Ingredient(obj[IngredientKey(i)].s, obj[MeasureKey(i)].s)
  }

  /** Slot i makes the decoding throw: its ingredient is present but not a
      string (nor null), or its ingredient is a string and its measure is
      present but not a string (nor null). */
  ghost predicate Malformed(obj: JObject, i: nat) {
    IngredientKey(i) in obj &&
    (WrongType(obj[IngredientKey(i)]) ||
     (obj[IngredientKey(i)].JStr? && MeasureKey(i) in obj && WrongType(obj[MeasureKey(i)])))
  }

  /** The qualifying indices among from..20, in increasing order. */
  ghost function QualifyingIndices(obj: JObject, from: int): (idx: seq<int>)
    requires 1 <= from <= SlotCount + 1
    ensures |idx| <= SlotCount + 1 - from
    ensures forall k :: 0 <= k < |idx| ==> from <= idx[k] <= SlotCount && Qualifies(obj, idx[k])
    ensures forall k, l :: 0 <= k < l < |idx| ==> idx[k] < idx[l]
    ensures forall i :: from <= i <= SlotCount && Qualifies(obj, i) ==> i in idx
    decreases SlotCount + 1 - from
  {
    if from > SlotCount then []
    else (if Qualifies(obj, from) then [from] else []) + QualifyingIndices(obj, from + 1)
  }

  /** One slot's outcome, in terms of the reference rules. */
  lemma SlotIngredientMeaning(obj: JObject, i: int)
    requires 1 <= i <= SlotCount
    ensures SlotIngredient(obj, i).Err? <==> Malformed(obj, i)
    ensures SlotIngredient(obj, i).Ok? ==>
      (SlotIngredient(obj, i).value.Some? <==> Qualifies(obj, i))
    ensures Qualifies(obj, i) ==> SlotIngredient(obj, i) == Ok(Some(PairAt(obj, i)))
  {
    SlotKeysDeclared(i);
  }

  /** The map over from..20 throws exactly when some slot there is malformed. */
  lemma {:induction false} CompactSlotsFails(obj: JObject, from: int)
    requires 1 <= from <= SlotCount + 1
    ensures CompactSlots(obj, from).Err? <==> exists i :: from <= i <= SlotCount && Malformed(obj, i)
    decreases SlotCount + 1 - from
  {
    if from <= SlotCount {
      SlotIngredientMeaning(obj, from);
      CompactSlotsFails(obj, from + 1);
      if exists i :: from <= i <= SlotCount && Malformed(obj, i) {
        var i :| from <= i <= SlotCount && Malformed(obj, i);
        assert i == from || (from + 1 <= i <= SlotCount && Malformed(obj, i));
      }
    }
  }

  /** `pairs` holds, position by position, the pairs of the slots `idx`. */
  ghost predicate PairsOfSlots(obj: JObject, pairs: seq<Ingredient>, idx: seq<int>) {
    && |pairs| == |idx|
    && forall k :: 0 <= k < |idx| ==> idx[k] >= 0 && Qualifies(obj, idx[k]) && pairs[k] == PairAt(obj, idx[k])
  }

  /** One step of the map, in terms of the reference rules. */
  lemma CompactSlotsStep(obj: JObject, from: int)
    requires 1 <= from <= SlotCount
    requires CompactSlots(obj, from).Ok?
    ensures CompactSlots(obj, from + 1).Ok?
    ensures CompactSlots(obj, from).value ==
      (if Qualifies(obj, from) then [PairAt(obj, from)] else []) + CompactSlots(obj, from + 1).value
  {
    SlotIngredientMeaning(obj, from);
  }

  lemma ConsPairsOfSlots(obj: JObject, i: nat, rest: seq<Ingredient>, idxRest: seq<int>)
    requires Qualifies(obj, i) && PairsOfSlots(obj, rest, idxRest)
    ensures PairsOfSlots(obj, [PairAt(obj, i)] + rest, [i] + idxRest)
  {
    var pairs, idx := [PairAt(obj, i)] + rest, [i] + idxRest;
    forall k | 0 <= k < |idx| ensures idx[k] >= 0 && Qualifies(obj, idx[k]) && pairs[k] == PairAt(obj, idx[k]) {
      if k > 0 {
        assert pairs[k] == rest[k - 1] && idx[k] == idxRest[k - 1];
      }
    }
  }

  /** When the map over from..20 succeeds, it holds the pairs of exactly the
      qualifying slots, in index order. */
  lemma {:induction false} CompactSlotsContents(obj: JObject, from: int)
    requires 1 <= from <= SlotCount + 1
    requires CompactSlots(obj, from).Ok?
    ensures PairsOfSlots(obj, CompactSlots(obj, from).value, QualifyingIndices(obj, from))
    decreases SlotCount + 1 - from
  {
    if from <= SlotCount {
      CompactSlotsStep(obj, from);
      CompactSlotsContents(obj, from + 1);
      var rest, idxRest := CompactSlots(obj, from + 1).value, QualifyingIndices(obj, from + 1);
      if Qualifies(obj, from) {
        ConsPairsOfSlots(obj, from, rest, idxRest);
        assert CompactSlots(obj, from).value == [PairAt(obj, from)] + rest;
        assert QualifyingIndices(obj, from) == [from] + idxRest;
      } else {
        assert CompactSlots(obj, from).value == rest;
        assert QualifyingIndices(obj, from) == idxRest;
      }
    }
  }

  /** The ingredient list is `nil` exactly when one of the twenty slots is
      malformed; a malformed slot after a good one still discards the list. */
  lemma IngredientsNilIff(obj: JObject)
    ensures DecodeIngredients(obj).None? <==> exists i :: 1 <= i <= SlotCount && Malformed(obj, i)
  {
    CompactSlotsFails(obj, 1);
  }

  /** Otherwise it lists, in increasing index order, the pair of every slot in
      1..20 whose two fields are non-empty strings, and nothing else. Gaps do
      not stop the scan, and there are at most twenty pairs. */
  lemma IngredientsAreQualifyingSlots(obj: JObject, pairs: seq<Ingredient>)
    requires DecodeIngredients(obj) == Some(pairs)
    ensures |pairs| <= SlotCount
    ensures var idx := QualifyingIndices(obj, 1);
      && |pairs| == |idx|
      && (forall k :: 0 <= k < |idx| ==> 1 <= idx[k] <= SlotCount && pairs[k] == PairAt(obj, idx[k]))
      && (forall k, l :: 0 <= k < l < |idx| ==> idx[k] < idx[l])
      && (forall i :: 1 <= i <= SlotCount && Qualifies(obj, i) ==> i in idx)
    ensures forall k :: 0 <= k < |pairs| ==> pairs[k].ingredientName != [] && pairs[k].measurement != []
  {
    CompactSlotsContents(obj, 1);
    var idx := QualifyingIndices(obj, 1);
    assert PairsOfSlots(obj, pairs, idx);
    forall k | 0 <= k < |pairs|
      ensures pairs[k].ingredientName != [] && pairs[k].measurement != []
    {
      assert Qualifies(obj, idx[k]) && pairs[k] == PairAt(obj, idx[k]);
    }
  }

  /** Distinct indices read distinct fields. */
  lemma SlotKeysDistinct(i: nat, j: nat)
    ensures IngredientKey(i) == IngredientKey(j) ==> i == j
    ensures MeasureKey(i) == MeasureKey(j) ==> i == j
    ensures IngredientKey(i) != MeasureKey(j)
  {
    assert IngredientKey(i)[3] != MeasureKey(j)[3];
    DecimalRoundTrip(i);
    DecimalRoundTrip(j);
    if IngredientKey(i) == IngredientKey(j) {
      assert DecimalString(i) == IngredientKey(i)[13..];
      assert DecimalString(j) == IngredientKey(j)[13..];
    }
    if MeasureKey(i) == MeasureKey(j) {
      assert DecimalString(i) == MeasureKey(i)[10..];
      assert DecimalString(j) == MeasureKey(j)[10..];
    }
  }

  /** A worked example: slot 1 is kept; slot 2 has an empty ingredient and
      slot 3 a null one, so both are dropped; slot 4 holds whitespace only and
      is kept, after the gap; slot 5's measure is a number, but its
      ingredient is absent, so the measure is never decoded and nothing
      throws. */
  function ExampleSlots(): JObject {
    map[
    "strIngredient1" := JStr("Flour"), "strMeasure1" := JStr("200g"),
    "strIngredient2" := JStr(""), "strMeasure2" := JStr("1 tbsp"),
    "strIngredient3" := JNull,
    "strIngredient4" := JStr(" "), "strMeasure4" := JStr(" "),
    "strMeasure5" := JOther]
  }

  lemma ExampleIngredientKeys(i: nat)
    requires 1 <= i <= SlotCount
    ensures IngredientKey(i) in ExampleSlots() ==> i <= 4
  {
    assert IngredientKey(1) == "strIngredient1" && IngredientKey(2) == "strIngredient2";
    assert IngredientKey(3) == "strIngredient3" && IngredientKey(4) == "strIngredient4";
    SlotKeysDistinct(i, 1);
    SlotKeysDistinct(i, 2);
    SlotKeysDistinct(i, 3);
    SlotKeysDistinct(i, 4);
  }

  lemma ExampleMeasureKeys(i: nat)
    requires 1 <= i <= SlotCount
    ensures MeasureKey(i) in ExampleSlots() ==> i <= 5
  {
    assert MeasureKey(1) == "strMeasure1" && MeasureKey(2) == "strMeasure2";
    assert MeasureKey(4) == "strMeasure4" && MeasureKey(5) == "strMeasure5";
    SlotKeysDistinct(1, i);
    SlotKeysDistinct(2, i);
    SlotKeysDistinct(4, i);
    SlotKeysDistinct(5, i);
  }

  lemma ExampleSlotRules(i: nat)
    requires 1 <= i <= SlotCount
    ensures !Malformed(ExampleSlots(), i)
    ensures Qualifies(ExampleSlots(), i) <==> i == 1 || i == 4
  {
    ExampleIngredientKeys(i);
    ExampleMeasureKeys(i);
    if i == 1 {
      assert IngredientKey(1) == "strIngredient1" && MeasureKey(1) == "strMeasure1";
    } else if i == 2 {
      assert IngredientKey(2) == "strIngredient2" && MeasureKey(2) == "strMeasure2";
    } else if i == 3 {
      assert IngredientKey(3) == "strIngredient3";
    } else if i == 4 {
      assert IngredientKey(4) == "strIngredient4" && MeasureKey(4) == "strMeasure4";
    } else if i == 5 {
      assert IngredientKey(5) == "strIngredient5";
    }
  }

  lemma {:induction false} NoQualifyingFrom(obj: JObject, from: int)
    requires 1 <= from <= SlotCount + 1
    requires forall i: nat :: from <= i <= SlotCount ==> !Qualifies(obj, i)
    ensures QualifyingIndices(obj, from) == []
    decreases SlotCount + 1 - from
  {
    if from <= SlotCount {
      NoQualifyingFrom(obj, from + 1);
    }
  }

  lemma ExampleHasNoMalformedSlot()
    ensures DecodeIngredients(ExampleSlots()).Some?
  {
    forall i: nat | 1 <= i <= SlotCount
      ensures !Malformed(ExampleSlots(), i)
    {
      ExampleSlotRules(i);
    }
    IngredientsNilIff(ExampleSlots());
  }

  lemma ExampleQualifyingSlots()
    ensures QualifyingIndices(ExampleSlots(), 1) == [1, 4]
  {
    forall i: nat | 1 <= i <= SlotCount
      ensures Qualifies(ExampleSlots(), i) <==> i == 1 || i == 4
    {
      ExampleSlotRules(i);
    }
    NoQualifyingFrom(ExampleSlots(), 5);
  }

  lemma ExamplePairs()
    ensures Qualifies(ExampleSlots(), 1) && PairAt(ExampleSlots(), 1) == Ingredient("Flour", "200g")
    ensures Qualifies(ExampleSlots(), 4) && PairAt(ExampleSlots(), 4) == Ingredient(" ", " ")
  {
    assert IngredientKey(1) == "strIngredient1" && MeasureKey(1) == "strMeasure1";
    assert IngredientKey(4) == "strIngredient4" && MeasureKey(4) == "strMeasure4";
  }

  lemma SeqOfTwo<T>(s: seq<T>)
    requires |s| == 2
    ensures s == [s[0], s[1]]
  {
  }

  lemma TwoQualifyingSlots(obj: JObject, a: nat, b: nat)
    requires CompactSlots(obj, 1).Ok? && QualifyingIndices(obj, 1) == [a, b]
    ensures Qualifies(obj, a) && Qualifies(obj, b)
    ensures DecodeIngredients(obj) == Some([PairAt(obj, a), PairAt(obj, b)])
  {
    CompactSlotsContents(obj, 1);
    var pairs, idx := CompactSlots(obj, 1).value, QualifyingIndices(obj, 1);
    assert idx[0] == a && idx[1] == b;
    assert Qualifies(obj, idx[0]) && pairs[0] == PairAt(obj, idx[0]);
    assert Qualifies(obj, idx[1]) && pairs[1] == PairAt(obj, idx[1]);
    assert |pairs| == 2;
    SeqOfTwo(pairs);
    assert DecodeIngredients(obj) == Some(pairs);
  }

  lemma IngredientsExample()
    ensures DecodeIngredients(ExampleSlots()) == Some([Ingredient("Flour", "200g"), Ingredient(" ", " ")])
  {
    ExampleHasNoMalformedSlot();
    ExampleQualifyingSlots();
    TwoQualifyingSlots(ExampleSlots(), 1, 4);
    ExamplePairs();
  }

  // ---------------------------------------------------------------------
  // Meal.init(from:) and MealResults
  // ---------------------------------------------------------------------

  /** `Meal.init(from:)`: the three required strings are decoded in order and
      any failure propagates; `strInstructions` may be absent or null; the
      ingredient list never makes the meal fail. A value that is not an
      object has no keyed container. */
  function DecodeMeal(v: JVal): Result<Meal> {
    var obj :- Container(v);
    var idMeal :- Decode(obj, "idMeal");
    var strMeal :- Decode(obj, "strMeal");
    var strMealThumb :- Decode(obj, "strMealThumb");
    var strInstructions :- DecodeIfPresent(obj, "strInstructions");
    Ok(Meal(idMeal, strMeal, strMealThumb, strInstructions, DecodeIngredients(obj)))
  }

  /** A field `Decode` accepts: present and a string. */
  predicate RequiredString(obj: JObject, key: string) {
    key in obj && obj[key].JStr?
  }

  /** A field `DecodeIfPresent` accepts: absent, null or a string. */
  predicate OptionalString(obj: JObject, key: string) {
    key !in obj || obj[key].JNull? || obj[key].JStr?
  }

  /** A meal object decodes exactly when its three required fields are
      strings and its instructions are absent, null or a string; the
      ingredient slots play no part in whether it decodes. */
  lemma DecodeMealSucceedsIff(obj: JObject)
    ensures DecodeMeal(JObj(obj)).Ok? <==>
      && RequiredString(obj, "idMeal")
      && RequiredString(obj, "strMeal")
      && RequiredString(obj, "strMealThumb")
      && OptionalString(obj, "strInstructions")
    ensures !RequiredString(obj, "idMeal") ==> DecodeMeal(JObj(obj)).Err?
    ensures "idMeal" !in obj ==> DecodeMeal(JObj(obj)) == Err(KeyNotFound("idMeal"))
  {
  }

  /** What a decoded meal holds: the strings of its fields verbatim, `nil`
      instructions for an absent or null field, and the ingredient list of
      its slots (itself `nil` when a slot is malformed). Its `id` is the
      `idMeal` field. */
  lemma DecodedMealFields(obj: JObject, m: Meal)
    requires DecodeMeal(JObj(obj)) == Ok(m)
    ensures m.idMeal == obj["idMeal"].s && m.Id() == obj["idMeal"].s
    ensures m.strMeal == obj["strMeal"].s
    ensures m.strMealThumb == obj["strMealThumb"].s
    ensures m.strInstructions ==
      if "strInstructions" in obj && obj["strInstructions"].JStr? then Some(obj["strInstructions"].s) else None
    ensures m.ingredients == DecodeIngredients(obj)
  {
  }

  /** Fault isolation: a malformed ingredient slot leaves `ingredients` nil
      but does not stop the rest of the meal from decoding. */
  lemma MalformedSlotKeepsMeal(obj: JObject, i: nat)
    requires RequiredString(obj, "idMeal") && RequiredString(obj, "strMeal")
    requires RequiredString(obj, "strMealThumb") && OptionalString(obj, "strInstructions")
    requires 1 <= i <= SlotCount && Malformed(obj, i)
    ensures DecodeMeal(JObj(obj)).Ok?
    ensures DecodeMeal(JObj(obj)).value.ingredients.None?
    ensures DecodeMeal(JObj(obj)).value.strMeal == obj["strMeal"].s
  {
    IngredientsNilIff(obj);
  }

  /** Element k is the first element of `items` that does not decode. */
  predicate FirstFailure(items: seq<JVal>, k: int) {
    && 0 <= k < |items|
    && DecodeMeal(items[k]).Err?
    && forall j :: 0 <= j < k ==> DecodeMeal(items[j]).Ok?
  }

  /** Decoding `[Meal]`: element by element, in order; the first element
      that fails makes the whole array fail, so there is no partial list. */
  function DecodeMealArray(items: seq<JVal>): (r: Result<seq<Meal>>)
    ensures r.Ok? <==> forall k :: 0 <= k < |items| ==> DecodeMeal(items[k]).Ok?
    ensures r.Ok? ==>
      && |r.value| == |items|
      && forall k :: 0 <= k < |items| ==> DecodeMeal(items[k]) == Ok(r.value[k])
    ensures r.Err? ==>
      exists k :: FirstFailure(items, k) && DecodeMeal(items[k]) == Err(r.error)
  {
    if items == [] then Ok([])
    else
      var first :- DecodeMeal(items[0]);
      var rest :- DecodeMealArray(items[1..]);
      Ok([first] + rest)
  }

  /** `MealResults` decoding: `meals` must be present and an array; a
      missing or null `meals` fails. */
  function DecodeMealResults(v: JVal): Result<MealResults> {
    var obj :- Container(v);
    if "meals" !in obj then Err(KeyNotFound("meals"))
    else match obj["meals"]
      case JNull => Err(ValueNotFound("meals"))
      case JArr(items) =>
        var meals :- DecodeMealArray(items);
        Ok(MealResults(meals))
      case _ => Err(TypeMismatch("meals"))
  }

  /** The envelope decodes exactly when `meals` is an array all of whose
      elements decode, and then it holds one meal per element, in order. */
  lemma DecodeMealResultsIff(obj: JObject)
    ensures DecodeMealResults(JObj(obj)).Ok? <==>
      && "meals" in obj && obj["meals"].JArr?
      && forall k :: 0 <= k < |obj["meals"].items| ==> DecodeMeal(obj["meals"].items[k]).Ok?
    ensures DecodeMealResults(JObj(obj)).Ok? ==>
      var items, meals := obj["meals"].items, DecodeMealResults(JObj(obj)).value.meals;
      |meals| == |items| && forall k :: 0 <= k < |items| ==> DecodeMeal(items[k]) == Ok(meals[k])
    ensures "meals" !in obj ==> DecodeMealResults(JObj(obj)) == Err(KeyNotFound("meals"))
    ensures "meals" in obj && obj["meals"].JNull? ==> DecodeMealResults(JObj(obj)) == Err(ValueNotFound("meals"))
  {
  }
}
