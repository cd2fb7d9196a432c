/** Concrete runs of the field processor on records shaped like the stored assessments:
    a dotted path into nested objects, a predicate path with no matching element, and a
    classification where two ranges overlap. */
module Scenarios {
  import opened Common
  import opened Text
  import opened Values
  import opened DataExtractor

  // ---------------------------------------------------------------------------
  // Heart rate through a dotted path, with a keyed classification

  const HeartRateRecord: Json :=
    Obj(map["accuracy" := Num(80.0),
            "vitalsMap" := Obj(map["vitals" := Obj(map["heart_rate" := Num(75.0)])])])

  /** The classification shape of the backend configuration: named ranges, no `ranges`
      list. */
  const KeyedClassification: Json :=
    Obj(map["excellent" := Obj(map["min" := Num(60.0), "max" := Num(80.0)])])

  const HeartRateField: Field :=
    Field(Str("heart_rate"), Str("Heart Rate"), Str("vitalsMap.vitals.heart_rate"), Str("bpm"),
          Undefined, KeyedClassification, Undefined)

  lemma HeartRatePath()
    ensures Join(["vitalsMap", "vitals", "heart_rate"], '.') == "vitalsMap.vitals.heart_rate"
  {
    assert Join(["heart_rate"], '.') == "heart_rate";
    assert ["vitalsMap", "vitals", "heart_rate"][1..] == ["vitals", "heart_rate"];
    assert ["vitals", "heart_rate"][1..] == ["heart_rate"];
  }

  lemma HeartRateExtract()
    ensures Extract(HeartRateRecord, "vitalsMap.vitals.heart_rate") == Num(75.0)
  {
    var keys := ["vitalsMap", "vitals", "heart_rate"];
    HeartRatePath();
    assert PlainKeys(keys);
    assert keys[1..] == ["vitals", "heart_rate"];
    assert keys[1..][1..] == ["heart_rate"];
    assert Addressed(HeartRateRecord, keys) == Some(Num(75.0));
    DotPathRoundTrip(HeartRateRecord, keys, Num(75.0));
  }

  /** The value is found and copied with its label and unit; the keyed classification is
      never consulted, so the record carries no classification. */
  lemma HeartRateScenario()
    ensures ProcessField(HeartRateRecord, HeartRateField) ==
            Normal(FieldRecord(Str("Heart Rate"), Num(75.0), Str("bpm"), None, Null))
  {
    HeartRateExtract();
    HeartRateFieldShape();
    ResolvedWithKeyedClassification(HeartRateRecord, HeartRateField, Num(75.0));
  }

  lemma HeartRateFieldShape()
    ensures HeartRateField.path == Str("vitalsMap.vitals.heart_rate")
    ensures !Truthy(HeartRateField.transform)
    ensures HeartRateField.classification.Obj? && "ranges" !in HeartRateField.classification.fields
    ensures Or(HeartRateField.unit, Str("")) == Str("bpm") && Or(HeartRateField.description, Null) == Null
  {
  }

  /** A field without a transform whose path resolves to a value, and whose classification
      has no `ranges` list, shows that value unclassified. */
  lemma ResolvedWithKeyedClassification(data: Json, field: Field, v: Json)
    requires ExtractAt(data, field.path) == v && !v.Null? && !v.Undefined?
    requires !Truthy(field.transform)
    requires field.classification.Obj? && "ranges" !in field.classification.fields
    ensures ProcessField(data, field) ==
            Normal(FieldRecord(field.fieldLabel, v, Or(field.unit, Str("")), None, Or(field.description, Null)))
  {
    KeyedClassificationIsIgnored(field.classification.fields, v);
  }

  // ---------------------------------------------------------------------------
  // An exercise id that no element has

  const Exercise: Json := Obj(map["id" := Num(235.0), "time" := Num(30.0)])

  const ExerciseRecord: Json := Obj(map["exercises" := Arr([Exercise])])

  const ExerciseTimeField: Field :=
    Field(Str("time"), Str("Time"), Str("exercises[id=999].time"), Str("s"), Undefined, Undefined, Undefined)

  /** The path `exercises[id=<value>].time`. */
  function ExerciseTimePath(value: string): string
  {
    BracketPart("exercises", "id=" + value) + ['.'] + "time"
  }

  lemma SelectorPieces(value: string)
    requires Plain(value)
    ensures Split("id=" + value, '=') == ["id", value]
    ensures '.' !in "id=" + value && '[' !in "id=" + value && ']' !in "id=" + value
  {
    assert "id=" + value == "id" + ['='] + value;
    SplitAfterPrefix("id", '=', value);
  }

  lemma ExercisePartPieces(value: string)
    requires Plain(value)
    ensures IsBracketPart(BracketPart("exercises", "id=" + value))
    ensures ArrayName(BracketPart("exercises", "id=" + value)) == "exercises"
    ensures Condition(BracketPart("exercises", "id=" + value)) == "id=" + value
    ensures '.' !in BracketPart("exercises", "id=" + value)
  {
    SelectorPieces(value);
    BracketPartPieces("exercises", "id=" + value);
    assert BracketPart("exercises", "id=" + value) == "exercises" + "[" + ("id=" + value) + "]";
  }

  /** A bracket segment followed by one plain key: the path is cut into the two, and the
      walk takes the segment's step, then reads the key. */
  lemma BracketThenKey(data: Json, part: string, key: string)
    requires IsBracketPart(part) && '.' !in part && '.' !in key
    ensures Extract(data, part + ['.'] + key) ==
      match Walk(data, [part, key])
      case Throw => Null
      case Normal(v) => v
  {
    var path := part + ['.'] + key;
    SplitAfterPrefix(part, '.', key);
    assert Split(path, '.') == [part, key];
    var i :| 0 <= i < |part| && part[i] == '[';
    assert path[i] == '[';
    var j :| 0 <= j < |part| && part[j] == ']';
    assert path[j] == ']';
  }

  /** The path resolves through the element the predicate selects, or to `null`. */
  lemma ExerciseTimeExtract(value: string)
    requires Plain(value)
    ensures Extract(ExerciseRecord, ExerciseTimePath(value)) ==
            if Selects(Exercise, "id", value) then Num(30.0) else Null
  {
    var part := BracketPart("exercises", "id=" + value);
    ExercisePartPieces(value);
    assert '.' !in "time";
    BracketThenKey(ExerciseRecord, part, "time");
    ExerciseStep(value);
    assert [part, "time"][1..] == ["time"];
    if Selects(Exercise, "id", value) {
      ExerciseTime();
    }
  }

  /** The bracket segment selects the exercise, or nothing. */
  lemma ExerciseStep(value: string)
    requires Plain(value)
    ensures Step(ExerciseRecord, BracketPart("exercises", "id=" + value)) ==
            if Selects(Exercise, "id", value) then Normal(Exercise) else Normal(Undefined)
  {
    assert Get(ExerciseRecord, "exercises") == Normal(Arr([Exercise]));
    assert Plain("id") && '[' !in "exercises";
    assert "id" + "=" + value == "id=" + value;
    PredicateStep(ExerciseRecord, "exercises", "id", value, [Exercise]);
    FindOneExercise(value);
  }

  lemma FindOneExercise(value: string)
    ensures FindIn([Exercise], "id", value) ==
            if Selects(Exercise, "id", value) then Normal(Exercise) else Normal(Undefined)
  {
    assert [Exercise][0] == Exercise && [Exercise][1..] == [];
  }

  lemma ExerciseTime()
    ensures Walk(Exercise, ["time"]) == Normal(Num(30.0))
  {
    assert ["time"][1..] == [];
  }

  /** `exercises[id=999].time` against a list whose only exercise has id 235: the
      predicate selects nothing, the path resolves to `null`, and the field shows "N/A". */
  lemma MissingExerciseScenario()
    ensures ExtractAt(ExerciseRecord, ExerciseTimeField.path) == Null
    ensures ProcessField(ExerciseRecord, ExerciseTimeField) ==
            Normal(FieldRecord(Str("Time"), NotAvailable, Str("s"), None, Null))
  {
    MissingExerciseExtract();
    MissingExercisePath();
    assert Or(Str("s"), Str("")) == Str("s");
    assert Or(Undefined, Null) == Null;
  }

  lemma MissingExerciseExtract()
    ensures Extract(ExerciseRecord, ExerciseTimePath("999")) == Null
  {
    PlainIds();
    NoExercise999();
    AbsentExercise("999");
  }

  lemma MissingExercisePath()
    ensures ExerciseTimeField.path == Str(ExerciseTimePath("999"))
  {
  }

  /** A plain id that the exercise does not have resolves to `null`. */
  lemma AbsentExercise(value: string)
    requires Plain(value) && !Selects(Exercise, "id", value)
    ensures Extract(ExerciseRecord, ExerciseTimePath(value)) == Null
  {
    ExerciseTimeExtract(value);
  }

  lemma NoExercise999()
    ensures !Selects(Exercise, "id", "999")
  {
    assert NatToDecimal(999) == "999" by {
      assert NatToDecimal(9) == "9";
      assert NatToDecimal(99) == NatToDecimal(9) + [DigitChar(9)];
    }
    StringToNumberOfDecimal(999);
    assert LooseEqString(Num(235.0), "999") <==> StringToNumber("999") == Some(235.0);
  }

  /** With the id the exercise has, the same path reaches its time: the number 235
      loosely equals the text "235". */
  lemma PresentExerciseScenario()
    ensures Extract(ExerciseRecord, "exercises[id=235].time") == Num(30.0)
  {
    PresentExercisePath();
    PresentExerciseExtract();
  }

  lemma PresentExercisePath()
    ensures "exercises[id=235].time" == ExerciseTimePath("235")
  {
  }

  lemma PresentExerciseExtract()
    ensures Extract(ExerciseRecord, ExerciseTimePath("235")) == Num(30.0)
  {
    PlainIds();
    Exercise235();
    PresentExercise("235");
  }

  lemma PlainIds()
    ensures Plain("235") && Plain("999")
  {
  }

  /** An id the exercise has reaches its time. */
  lemma PresentExercise(value: string)
    requires Plain(value) && Selects(Exercise, "id", value)
    ensures Extract(ExerciseRecord, ExerciseTimePath(value)) == Num(30.0)
  {
    ExerciseTimeExtract(value);
  }

  lemma Exercise235()
    ensures Selects(Exercise, "id", "235")
  {
    NumberMatchesItsText(235);
    Decimal235();
  }

  lemma Decimal235()
    ensures NatToDecimal(235) == "235"
  {
    assert NatToDecimal(2) == "2";
    assert NatToDecimal(23) == NatToDecimal(2) + [DigitChar(3)];
  }

  // ---------------------------------------------------------------------------
  // Overlapping ranges

  const RangeA: Json := Obj(map["min" := Num(50.0), "max" := Num(60.0), "label" := Str("A")])
  const RangeB: Json := Obj(map["min" := Num(55.0), "max" := Num(70.0), "label" := Str("B")])
  const Overlapping: Json := Obj(map["ranges" := Arr([RangeA, RangeB])])

  /** 55 lies in both ranges; the first one in list order wins. */
  lemma FirstRangeWinsScenario()
    ensures Classify(Num(55.0), Overlapping) == Normal(Some(Classification(Str("A"), Undefined, 55.0)))
    ensures Classify(Num(65.0), Overlapping) == Normal(Some(Classification(Str("B"), Undefined, 65.0)))
    ensures Classify(Num(75.0), Overlapping) == Normal(None)
  {
    assert [RangeA, RangeB][1..] == [RangeB];
    assert InRange(RangeA, 55.0) == Normal(true);
    assert InRange(RangeA, 65.0) == Normal(false);
    assert InRange(RangeB, 65.0) == Normal(true);
    assert InRange(RangeA, 75.0) == Normal(false);
    assert InRange(RangeB, 75.0) == Normal(false);
    assert [RangeB][1..] == [];
    assert FirstInRange([RangeA, RangeB], 65.0) == FirstInRange([RangeB], 65.0);
    assert FirstInRange([RangeA, RangeB], 75.0) == FirstInRange([RangeB], 75.0);
    assert FirstInRange([RangeB], 75.0) == FirstInRange([], 75.0);
    assert MatchOf(RangeB, 65.0) == Classification(Str("B"), Undefined, 65.0);
  }
}
