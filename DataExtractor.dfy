/** The configuration-driven field extractor (`DataExtractor` in
    Backend/utils/dataExtractor.js): it resolves a path such as
    `exercises[id=235].setList[0].time` against an assessment record, optionally
    transforms the value, classifies it into a labelled range, and packs the outcome
    into a uniform field record with an "N/A" fallback. */
module DataExtractor {
  import opened Common
  import opened Text
  import opened Values

  // ===========================================================================
  // Path resolution

  /** One reduce step of dot notation, `obj && obj[key] !== undefined ? obj[key] : null`;
      the plain-key branch of the bracket walk evaluates the same expression. */
  function KeyStep(obj: Json, key: string): Json
  {
    if Truthy(obj) && Get(obj, key).value != Undefined then Get(obj, key).value else Null
  }

  /** `path.split('.').reduce(KeyStep, data)`. */
  function DotFold(data: Json, keys: seq<string>): Json
    decreases |keys|
  {
    if |keys| == 0 then data else DotFold(KeyStep(data, keys[0]), keys[1..])
  }

  /** A segment handled as `name[selector]`: it contains both brackets. */
  predicate IsBracketPart(part: string)
  {
    '[' in part && ']' in part
  }

  /** `arr.find(item => item[key] == value || item[key] === value)`: only arrays have
      `find`; anything else throws. */
  function Find(arr: Json, key: string, value: string): Completion<Json>
  {
    if arr.Arr? then FindIn(arr.items, key, value) else Throw
  }

  /** The predicate of the `find` callback, for an element whose property can be read. */
  predicate Selects(item: Json, key: string, value: string)
    requires !item.Null? && !item.Undefined?
  {
    var x := Get(item, key).value;
    LooseEqString(x, value) || StrictEq(x, Str(value))
  }

  /** The scan `find` makes over the elements, in order: the first selected element,
      `undefined` when there is none, or the TypeError raised by reading `key` of a
      `null` or `undefined` element met before any match. */
  function FindIn(items: seq<Json>, key: string, value: string): (r: Completion<Json>)
    ensures r.Normal? && r.value != Undefined ==> r.value in items && !r.value.Null?
    decreases |items|
  {
    if |items| == 0 then Normal(Undefined)
    else if items[0].Null? || items[0].Undefined? then Throw
    else if Selects(items[0], key, value) then Normal(items[0])
    else FindIn(items[1..], key, value)
  }

  /** The parts of a bracket segment: `part.split('[')` gives the array name and the
      condition, and `condition.replace(']', '')` cleans the condition. */
  function ArrayName(part: string): string
    requires '[' in part
  {
    Split(part, '[')[0]
  }

  function Condition(part: string): string
    requires '[' in part
  {
    RemoveFirst(Split(part, '[')[1], ']')
  }

  /** The value of `current` after one iteration of the loop of `extractFromArray`.
      The early `return null` for a missing array is the value `Null`, which the
      null check at the end of the iteration turns into the same early return. */
  function Step(current: Json, part: string): Completion<Json>
  {
    if IsBracketPart(part) then
      var arrayName := ArrayName(part);
      var condition := Condition(part);
      if arrayName == "" then Normal(Null)
      else
        match Get(current, arrayName)
        case Throw => Throw
        case Normal(arr) =>
          if !Truthy(arr) then Normal(Null)
          else if '=' in condition then
            var kv := Split(condition, '=');
            Find(arr, kv[0], kv[1])
          else Get(arr, NumberKey(ParseInt(condition)))
    else Normal(KeyStep(current, part))
  }

  /** The loop of `extractFromArray` over the remaining segments: stop with `null` as
      soon as `current` is `null` or `undefined`, propagate a throw. */
  function Walk(current: Json, parts: seq<string>): (r: Completion<Json>)
    ensures |parts| > 0 && r.Normal? ==> r.value != Undefined
    decreases |parts|
  {
    if |parts| == 0 then Normal(current)
    else
      match Step(current, parts[0])
      case Throw => Throw
      case Normal(next) =>
        if next.Null? || next.Undefined? then Normal(Null) else Walk(next, parts[1..])
  }

  /** `extractValue(data, path)`: bracket paths are walked segment by segment, other
      paths folded with dot notation; a throw is caught and becomes `null`. The result
      is never `undefined`. */
  function Extract(data: Json, path: string): (r: Json)
    ensures r != Undefined
  {
    var parts := Split(path, '.');
    if IsBracketPart(path) then
      match Walk(data, parts)
      case Normal(v) => v
      case Throw => Null
    else
      DotFoldDefined(data, parts);
      DotFold(data, parts)
  }

  /** `extractFromArray(data, path)`, the segment loop with its early returns. */
  method ExtractFromArray(data: Json, path: string) returns (r: Completion<Json>)
    ensures r == Walk(data, Split(path, '.'))
  {
    var parts := Split(path, '.');
    var current := data;
    for i := 0 to |parts|
      invariant Walk(data, parts) == Walk(current, parts[i..])
      invariant i > 0 ==> !current.Null? && !current.Undefined?
    {
      var part := parts[i];
      assert parts[i..] == [part] + parts[i + 1..];
      if IsBracketPart(part) {
        var arrayName := ArrayName(part);
        var condition := Condition(part);
        if arrayName == "" {
          return Normal(Null);
        }
        var arr := Get(current, arrayName);
        if arr.Throw? {
          return Throw;
        }
        if !Truthy(arr.value) {
          return Normal(Null);
        }
        if '=' in condition {
          var kv := Split(condition, '=');
          var found := Find(arr.value, kv[0], kv[1]);
          if found.Throw? {
            return Throw;
          }
          current := found.value;
        } else {
          var index := ParseInt(condition);
          current := Get(arr.value, NumberKey(index)).value;
        }
      } else {
        current := KeyStep(current, part);
      }
      if current.Null? || current.Undefined? {
        return Normal(Null);
      }
    }
    return Normal(current);
  }

  /** `extractValue(data, path)` for a path of any type. A path that is not a string
      has no `split` (and, unless it is an array, no `includes`), so the `TypeError` is
      caught and the result is `null`. */
  function ExtractAt(data: Json, path: Json): (r: Json)
    ensures !path.Str? ==> r == Null
    ensures path.Str? ==> r == Extract(data, path.s)
  {
    if path.Str? then Extract(data, path.s) else Null
  }

  /** `extractValue(data, path)`: never throws; misses and exceptions give `null`. */
  method ExtractValue(data: Json, path: Json) returns (r: Json)
    ensures r == ExtractAt(data, path)
  {
    if !path.Str? {
      r := Null;
    } else if IsBracketPart(path.s) {
      var walked := ExtractFromArray(data, path.s);
      r := if walked.Normal? then walked.value else Null;
    } else {
      r := DotFold(data, Split(path.s, '.'));
    }
  }

  // ---------------------------------------------------------------------------
  // Dot paths

  /** Once `null`, a dot fold stays `null`. */
  lemma {:induction false} DotFoldOfNull(keys: seq<string>)
    ensures DotFold(Null, keys) == Null
    decreases |keys|
  {
    if |keys| > 0 {
      DotFoldOfNull(keys[1..]);
    }
  }

  /** A dot fold over at least one key never yields `undefined`. */
  lemma {:induction false} DotFoldDefined(data: Json, keys: seq<string>)
    requires |keys| > 0
    ensures DotFold(data, keys) != Undefined
    decreases |keys|
  {
    if |keys| > 1 {
      DotFoldDefined(KeyStep(data, keys[0]), keys[1..]);
    }
  }

  /** The dot fold over a path is the fold over its prefix, continued over the rest. */
  lemma {:induction false} DotFoldAppend(data: Json, keys: seq<string>, more: seq<string>)
    ensures DotFold(data, keys + more) == DotFold(DotFold(data, keys), more)
    decreases |keys|
  {
    if |keys| > 0 {
      assert (keys + more)[1..] == keys[1..] + more;
      DotFoldAppend(KeyStep(data, keys[0]), keys[1..], more);
    } else {
      assert keys + more == more;
    }
  }

  /** The value a key path addresses in a tree of plain objects: each key must be a
      key of the object reached so far. */
  function Addressed(data: Json, keys: seq<string>): Option<Json>
    decreases |keys|
  {
    if |keys| == 0 then Some(data)
    else if data.Obj? && keys[0] in data.fields then Addressed(data.fields[keys[0]], keys[1..])
    else None
  }

  /** A dot path that addresses a value in a tree of objects resolves to that value
      (an addressed `undefined` reads as `null`). */
  lemma {:induction false} DotPathAddressed(data: Json, keys: seq<string>, v: Json)
    requires |keys| > 0
    requires Addressed(data, keys) == Some(v)
    ensures DotFold(data, keys) == if v.Undefined? then Null else v
    decreases |keys|
  {
    if |keys| > 0 {
      var next := data.fields[keys[0]];
      if next.Undefined? {
        assert KeyStep(data, keys[0]) == Null;
        DotFoldOfNull(keys[1..]);
        AddressedFromUndefined(keys[1..], v);
      } else if |keys| > 1 {
        assert KeyStep(data, keys[0]) == next;
        DotPathAddressed(next, keys[1..], v);
      }
    }
  }

  /** Nothing but the empty path addresses anything below `undefined`. */
  lemma AddressedFromUndefined(keys: seq<string>, v: Json)
    requires Addressed(Undefined, keys) == Some(v)
    ensures v == Undefined && keys == []
  {
  }

  /** A dot path whose walk reaches an object lacking the next key resolves to `null`. */
  lemma DotPathMissingKey(data: Json, keys: seq<string>, j: nat, m: map<string, Json>)
    requires j < |keys|
    requires Addressed(data, keys[..j]) == Some(Obj(m))
    requires keys[j] !in m
    ensures DotFold(data, keys) == Null
  {
    DotPathStops(data, keys, j, Obj(m));
  }

  /** A dot path whose walk reaches a falsy value before its last key resolves to `null`. */
  lemma DotPathFalsyStep(data: Json, keys: seq<string>, j: nat, w: Json)
    requires j < |keys|
    requires Addressed(data, keys[..j]) == Some(w)
    requires !Truthy(w)
    ensures DotFold(data, keys) == Null
  {
    DotPathStops(data, keys, j, w);
  }

  lemma DotPathStops(data: Json, keys: seq<string>, j: nat, w: Json)
    requires j < |keys|
    requires Addressed(data, keys[..j]) == Some(w)
    requires KeyStep(w, keys[j]) == Null
    ensures DotFold(data, keys) == Null
  {
    assert keys == keys[..j] + keys[j..];
    DotFoldAppend(data, keys[..j], keys[j..]);
    var u := DotFold(data, keys[..j]);
    if j > 0 {
      DotPathAddressed(data, keys[..j], w);
    }
    assert KeyStep(u, keys[j]) == Null;
    assert DotFold(u, keys[j..]) == DotFold(Null, keys[j + 1..]);
    DotFoldOfNull(keys[j + 1..]);
  }

  /** Keys that can be joined into a dot path and read back: non-empty list, no key
      containing a dot or a bracket. */
  predicate PlainKeys(keys: seq<string>)
  {
    |keys| > 0 && forall k :: 0 <= k < |keys| ==> '.' !in keys[k] && '[' !in keys[k]
  }

  /** Round trip for dot paths: writing the keys of an addressed value as a dotted path
      and extracting it gives the value back. */
  lemma DotPathRoundTrip(data: Json, keys: seq<string>, v: Json)
    requires PlainKeys(keys)
    requires Addressed(data, keys) == Some(v)
    ensures Extract(data, Join(keys, '.')) == if v.Undefined? then Null else v
  {
    SplitOfJoin(keys, '.');
    JoinAvoids(keys, '.', '[');
    DotPathAddressed(data, keys, v);
  }

  /** Paths without a bracket segment resolve the same way through either branch of
      `extractValue`: the bracket walk of plain keys is the dot fold. */
  lemma {:induction false} WalkOfPlainKeys(data: Json, parts: seq<string>)
    requires |parts| > 0
    requires forall k :: 0 <= k < |parts| ==> !IsBracketPart(parts[k])
    ensures Walk(data, parts) == Normal(DotFold(data, parts))
    decreases |parts|
  {
    var next := KeyStep(data, parts[0]);
    if next.Null? {
      if |parts| > 1 {
        DotFoldOfNull(parts[1..]);
      }
    } else if |parts| > 1 {
      WalkOfPlainKeys(next, parts[1..]);
    }
  }

  // ---------------------------------------------------------------------------
  // Bracket segments

  /** Walking a path is walking its first segments, then the rest from where they
      stopped, unless they already stopped on `null` or threw. */
  lemma {:induction false} WalkAppend(data: Json, parts: seq<string>, more: seq<string>)
    requires |parts| > 0
    ensures Walk(data, parts + more) ==
      match Walk(data, parts)
      case Throw => Throw
      case Normal(v) => if v.Null? then Normal(Null) else Walk(v, more)
    decreases |parts|
  {
    assert (parts + more)[0] == parts[0];
    assert (parts + more)[1..] == parts[1..] + more;
    match Step(data, parts[0])
    case Throw =>
    case Normal(next) =>
      if !next.Null? && !next.Undefined? && |parts| > 1 {
        WalkAppend(next, parts[1..], more);
      }
  }

  /** A segment of the form `name[selector]`. */
  function BracketPart(name: string, selector: string): string
  {
    name + "[" + selector + "]"
  }

  /** Characters that would change how a segment is cut up. */
  predicate Plain(s: string)
  {
    '.' !in s && '[' !in s && ']' !in s && '=' !in s
  }

  /** How a `name[selector]` segment is cut into its array name and condition. */
  lemma BracketPartPieces(name: string, selector: string)
    requires '[' !in name && '[' !in selector && ']' !in selector
    ensures IsBracketPart(BracketPart(name, selector))
    ensures ArrayName(BracketPart(name, selector)) == name
    ensures Condition(BracketPart(name, selector)) == selector
  {
    var part := BracketPart(name, selector);
    assert part == name + ['['] + (selector + "]");
    assert part[|name|] == '[';
    assert part[|part| - 1] == ']';
    SplitAfterPrefix(name, '[', selector + "]");
    assert '[' !in selector + "]";
    assert Split(part, '[') == [name, selector + "]"];
    assert selector + "]" == selector + [']'] + "";
    IndexOfAfterPrefix(selector, ']', "");
  }

  /** A one-segment path `name[selector]` is a bracket path of exactly that segment. */
  lemma SingleBracketPath(name: string, selector: string)
    requires Plain(name) && '.' !in selector && '[' !in selector && ']' !in selector
    ensures IsBracketPart(BracketPart(name, selector))
    ensures Split(BracketPart(name, selector), '.') == [BracketPart(name, selector)]
  {
    BracketPartPieces(name, selector);
    assert '.' !in BracketPart(name, selector);
  }

  /** `find` over elements none of which is `null` or `undefined` never throws: it
      gives the first selected element, or `undefined` when no element is selected. */
  lemma {:induction false} FindInFirstMatch(items: seq<Json>, key: string, value: string)
    requires forall k :: 0 <= k < |items| ==> !items[k].Null? && !items[k].Undefined?
    ensures (forall k :: 0 <= k < |items| ==> !Selects(items[k], key, value)) ==>
      FindIn(items, key, value) == Normal(Undefined)
    ensures forall k :: (0 <= k < |items| && Selects(items[k], key, value) &&
      (forall j :: 0 <= j < k ==> !Selects(items[j], key, value))) ==>
      FindIn(items, key, value) == Normal(items[k])
    decreases |items|
  {
    if |items| > 0 {
      FindInFirstMatch(items[1..], key, value);
      forall k | 0 <= k < |items| && Selects(items[k], key, value) &&
        (forall j :: 0 <= j < k ==> !Selects(items[j], key, value))
        ensures FindIn(items, key, value) == Normal(items[k])
      {
        if k > 0 {
          assert items[1..][k - 1] == items[k];
          assert forall j :: 0 <= j < k - 1 ==> items[1..][j] == items[j + 1];
        }
      }
    }
  }

  /** Reading the key of a `null` element before any match makes `find` throw. */
  lemma {:induction false} FindInThrows(items: seq<Json>, key: string, value: string, k: nat)
    requires k < |items| && (items[k].Null? || items[k].Undefined?)
    requires forall j :: 0 <= j < k ==> !items[j].Null? && !items[j].Undefined? && !Selects(items[j], key, value)
    ensures FindIn(items, key, value) == Throw
    decreases k
  {
    if k > 0 {
      assert forall j :: 0 <= j < k - 1 ==> items[1..][j] == items[j + 1];
      FindInThrows(items[1..], key, value, k - 1);
    }
  }

  /** A predicate segment `name[key=value]` on an object whose `name` is an array
      without `null` or `undefined` elements selects the first element whose `key`
      loosely equals the text `value`, and resolves to `null` when no element does. */
  lemma PredicateSegment(m: map<string, Json>, name: string, key: string, value: string,
                         items: seq<Json>)
    requires name != "" && Plain(name) && Plain(key) && Plain(value)
    requires name in m && m[name] == Arr(items)
    requires forall k :: 0 <= k < |items| ==> !items[k].Null? && !items[k].Undefined?
    ensures (forall k :: 0 <= k < |items| ==> !Selects(items[k], key, value)) ==>
      Extract(Obj(m), BracketPart(name, key + "=" + value)) == Null
    ensures forall k :: (0 <= k < |items| && Selects(items[k], key, value) &&
      (forall j :: 0 <= j < k ==> !Selects(items[j], key, value))) ==>
      Extract(Obj(m), BracketPart(name, key + "=" + value)) == items[k]
  {
    var selector := key + "=" + value;
    assert selector == key + ['='] + value;
    assert '.' !in selector && '[' !in selector && ']' !in selector;
    SingleBracketPath(name, selector);
    SingleSegmentExtract(Obj(m), BracketPart(name, selector));
    PredicateStep(Obj(m), name, key, value, items);
    FindInFirstMatch(items, key, value);
  }

  /** A `name[key=value]` segment over an array is the `find` over its elements. */
  lemma PredicateStep(current: Json, name: string, key: string, value: string, items: seq<Json>)
    requires name != "" && '[' !in name && Plain(key) && Plain(value)
    requires Get(current, name) == Normal(Arr(items))
    ensures IsBracketPart(BracketPart(name, key + "=" + value))
    ensures Step(current, BracketPart(name, key + "=" + value)) == FindIn(items, key, value)
  {
    var selector := key + "=" + value;
    KeyValuePieces(key, value);
    BracketPartPieces(name, selector);
  }

  /** How a `key=value` condition is cut up. */
  lemma KeyValuePieces(key: string, value: string)
    requires Plain(key) && Plain(value)
    ensures '[' !in key + "=" + value && ']' !in key + "=" + value && '=' in key + "=" + value
    ensures Split(key + "=" + value, '=') == [key, value]
  {
    var selector := key + "=" + value;
    assert selector == key + ['='] + value;
    SplitAfterPrefix(key, '=', value);
    assert selector[|key|] == '=';
  }

  /** A one-segment bracket path resolves to what its single step gives, with `null`
      for a miss and for a throw. */
  lemma SingleSegmentExtract(data: Json, part: string)
    requires IsBracketPart(part) && '.' !in part
    ensures Extract(data, part) ==
      match Step(data, part)
      case Throw => Null
      case Normal(v) => if v.Null? || v.Undefined? then Null else v
  {
    var parts := Split(part, '.');
    assert parts == [part];
    match Step(data, part)
    case Throw =>
      assert Walk(data, parts) == Throw;
    case Normal(v) =>
      if !v.Null? && !v.Undefined? {
        assert parts[1..] == [];
        assert Walk(data, parts) == Walk(v, []);
      }
  }

  /** The decimal text of an integer cuts no segment apart and is not "length". */
  lemma DecimalIsPlain(i: int)
    ensures Plain(IntToDecimal(i)) && IntToDecimal(i) != "length"
  {
    var ds := NatToDecimal(if i < 0 then -i else i);
    assert AllDigits(ds);
    assert forall c :: c in IntToDecimal(i) ==> c == '-' || IsDigit(c);
    assert "length"[0] == 'l';
  }

  /** An index segment `name[selector]` on an object whose `name` is an array reads the
      array at the key `parseInt` makes of the selector. */
  lemma IndexStep(m: map<string, Json>, name: string, selector: string, items: seq<Json>)
    requires name != "" && Plain(name) && Plain(selector)
    requires name in m && m[name] == Arr(items)
    ensures Step(Obj(m), BracketPart(name, selector)) ==
      Get(Arr(items), NumberKey(ParseInt(selector)))
  {
    BracketPartPieces(name, selector);
  }

  /** An index segment `name[i]` selects element `i` of the array `name`; an index
      that is negative or past the end resolves to `null`. */
  lemma IndexSegment(m: map<string, Json>, name: string, i: int, items: seq<Json>)
    requires name != "" && Plain(name)
    requires name in m && m[name] == Arr(items)
    ensures Extract(Obj(m), BracketPart(name, IntToDecimal(i))) ==
      if 0 <= i < |items| && !items[i].Null? && !items[i].Undefined? then items[i] else Null
  {
    var selector := IntToDecimal(i);
    DecimalIsPlain(i);
    BracketPartPieces(name, selector);
    SingleSegmentExtract(Obj(m), BracketPart(name, selector));
    IndexStep(m, name, selector, items);
    ParseIntOfDecimal(i);
    CanonicalIndexOfDecimal(i);
  }

  /** An index segment whose selector `parseInt` cannot read looks up the key "NaN",
      which no array has: the path resolves to `null`. */
  lemma IndexSegmentNotANumber(m: map<string, Json>, name: string, selector: string,
                               items: seq<Json>)
    requires name != "" && Plain(name) && Plain(selector)
    requires name in m && m[name] == Arr(items)
    requires ParseInt(selector) == None
    ensures Extract(Obj(m), BracketPart(name, selector)) == Null
  {
    BracketPartPieces(name, selector);
    SingleSegmentExtract(Obj(m), BracketPart(name, selector));
    IndexStep(m, name, selector, items);
    assert CanonicalIndex("NaN") == None;
  }

  /** A bracket segment with an empty array name, or whose array is missing or falsy,
      ends the walk with `null` at once: later segments are never evaluated. */
  lemma BracketShortCircuit(current: Json, name: string, selector: string, rest: seq<string>)
    requires '[' !in name && '[' !in selector && ']' !in selector
    requires name == "" || Get(current, name) == Normal(Undefined) ||
             (Get(current, name).Normal? && !Truthy(Get(current, name).value))
    ensures Walk(current, [BracketPart(name, selector)] + rest) == Normal(Null)
  {
    BracketPartPieces(name, selector);
    assert ([BracketPart(name, selector)] + rest)[0] == BracketPart(name, selector);
  }

  /** A predicate segment on a value that is not an array throws inside the walk
      (`find` is not a function there); `extractValue` catches it and gives `null`. */
  lemma PredicateOnNonArrayIsCaught(m: map<string, Json>, name: string, key: string,
                                    value: string)
    requires name != "" && Plain(name) && Plain(key) && Plain(value)
    requires name in m && Truthy(m[name]) && !m[name].Arr?
    ensures Walk(Obj(m), [BracketPart(name, key + "=" + value)]) == Throw
    ensures Extract(Obj(m), BracketPart(name, key + "=" + value)) == Null
  {
    var selector := key + "=" + value;
    assert selector == key + ['='] + value;
    assert '.' !in selector && '[' !in selector && ']' !in selector;
    SingleBracketPath(name, selector);
    BracketPartPieces(name, selector);
  }

  /** A numeric field matches the decimal text of its value: `235 == "235"`. */
  lemma NumberMatchesItsText(n: nat)
    ensures LooseEqString(Num(n as real), NatToDecimal(n))
  {
    StringToNumberOfDecimal(n);
  }

  // ===========================================================================
  // Transformation

  /** `c.toUpperCase()` for the ASCII letters. */
  function UpperCase(c: char): char
  {
    if 'a' <= c <= 'z' then (c as int - 32) as char else c
  }

  /** The table of `assessmentName`. */
  const AssessmentNames: map<string, string> :=
    map["as_hr_02" := "Health & Fitness Assessment", "as_card_01" := "Cardiac Assessment"]

  /** The text a value turns into as a property key, when that text can be one of the
      table's codes: a string's own text, or the text of an array's single element. The
      text of every other value ("5", "true", "[object Object]", a comma-joined list)
      is not a code. */
  function CodeText(v: Json): Option<string>
  {
    match v
    case Str(s) => Some(s)
    case Arr(items) => if |items| == 1 then CodeText(items[0]) else None
    case _ => None
  }

  /** `transformValue(value, transform)`. */
  function TransformValue(value: Json, transform: Json): (r: Json)
    ensures !Truthy(value) || !Truthy(transform) ==> r == value
    ensures transform != Str("capitalize") && transform != Str("assessmentName") ==> r == value
    ensures transform == Str("capitalize") && !value.Str? ==> r == value
    ensures transform == Str("capitalize") && value.Str? && value.s != "" ==>
      r.Str? && |r.s| == |value.s| && r.s[0] == UpperCase(value.s[0]) && r.s[1..] == value.s[1..]
    ensures transform == Str("assessmentName") && value.Str? ==>
      r == if value.s in AssessmentNames then Str(AssessmentNames[value.s]) else value
  {
    if !Truthy(value) || !Truthy(transform) then value
    else if transform == Str("capitalize") then
      (if value.Str? then Str([UpperCase(value.s[0])] + value.s[1..]) else value)
    else if transform == Str("assessmentName") then
      match CodeText(value)
      case Some(code) => if code in AssessmentNames then Str(AssessmentNames[code]) else value
      case None => value
    else value
  }

  /** Applying a transformation twice is applying it once: a capitalised string keeps its
      capital, and a display name is not itself a code. */
  lemma TransformIdempotent(value: Json, transform: Json)
    ensures TransformValue(TransformValue(value, transform), transform) ==
            TransformValue(value, transform)
  {
    if transform == Str("capitalize") {
      CapitalizeIdempotent(value);
    } else if transform == Str("assessmentName") {
      AssessmentNameIdempotent(value);
    }
  }

  lemma CapitalizeIdempotent(value: Json)
    ensures TransformValue(TransformValue(value, Str("capitalize")), Str("capitalize")) ==
            TransformValue(value, Str("capitalize"))
  {
    var once := TransformValue(value, Str("capitalize"));
    if Truthy(value) && value.Str? {
      assert once.s == [UpperCase(value.s[0])] + value.s[1..];
      assert once.s[1..] == value.s[1..];
    }
  }

  lemma AssessmentNameIdempotent(value: Json)
    ensures TransformValue(TransformValue(value, Str("assessmentName")), Str("assessmentName")) ==
            TransformValue(value, Str("assessmentName"))
  {
    var once := TransformValue(value, Str("assessmentName"));
    if Truthy(value) && CodeText(value).Some? && CodeText(value).value in AssessmentNames {
      assert once.Str?;
      assert once.s !in AssessmentNames;
    }
  }

  // ===========================================================================
  // Classification

  /** `{label: range.label, color: range.color, value: numValue}`; `rangeLabel` is `label`. */
  datatype Classification = Classification(rangeLabel: Json, color: Json, value: real)

  /** `x >= bound`: NaN compares false. */
  predicate AtLeast(x: real, bound: Json)
  {
    match ToNumber(bound)
    case Some(b) => x >= b
    case None => false
  }

  /** `x <= bound`: NaN compares false. */
  predicate AtMost(x: real, bound: Json)
  {
    match ToNumber(bound)
    case Some(b) => x <= b
    case None => false
  }

  /** `numValue >= range.min && numValue <= range.max`: reading a property of a `null`
      range throws; `range.max` is read only when the first comparison holds. */
  function InRange(range: Json, x: real): Completion<bool>
  {
    match Get(range, "min")
    case Throw => Throw
    case Normal(lo) => if !AtLeast(x, lo) then Normal(false) else Normal(AtMost(x, Get(range, "max").value))
  }

  function MatchOf(range: Json, x: real): Classification
    requires !range.Null? && !range.Undefined?
  {
    Classification(Get(range, "label").value, Get(range, "color").value, x)
  }

  /** The `for` loop over the ranges: the first range containing `x`, in order. */
  function FirstInRange(ranges: seq<Json>, x: real): Completion<Option<Classification>>
    decreases |ranges|
  {
    if |ranges| == 0 then Normal(None)
    else
      match InRange(ranges[0], x)
      case Throw => Throw
      case Normal(hit) => if hit then Normal(Some(MatchOf(ranges[0], x))) else FirstInRange(ranges[1..], x)
  }

  /** The values `for (const range of ranges)` visits: an array's elements, a string's
      characters; any other value is not iterable and throws. */
  function Elements(v: Json): Completion<seq<Json>>
  {
    match v
    case Arr(items) => Normal(items)
    case Str(s) => Normal(seq(|s|, k requires 0 <= k < |s| => Str([s[k]])))
    case _ => Throw
  }

  /** `classifyValue(value, classification)`. */
  function Classify(value: Json, classification: Json): Completion<Option<Classification>>
  {
    if !Truthy(classification) then Normal(None)
    else
      var ranges := Get(classification, "ranges").value;
      if !Truthy(ranges) then Normal(None)
      else
        match ParseFloatOf(value)
        case None => Normal(None)
        case Some(x) =>
          match Elements(ranges)
          case Throw => Throw
          case Normal(rs) => FirstInRange(rs, x)
  }

  /** `classifyValue(value, classification)`, with its first-match loop. */
  method ClassifyValue(value: Json, classification: Json) returns (r: Completion<Option<Classification>>)
    ensures r == Classify(value, classification)
  {
    if !Truthy(classification) {
      return Normal(None);
    }
    var ranges := Get(classification, "ranges").value;
    if !Truthy(ranges) {
      return Normal(None);
    }
    var numValue := ParseFloatOf(value);
    if numValue.None? {
      return Normal(None);
    }
    var x := numValue.value;
    var elements := Elements(ranges);
    if elements.Throw? {
      return Throw;
    }
    var rs := elements.value;
    for i := 0 to |rs|
      invariant FirstInRange(rs, x) == FirstInRange(rs[i..], x)
    {
      var range := rs[i];
      var hit := InRange(range, x);
      if hit.Throw? {
        return Throw;
      }
      if hit.value {
        return Normal(Some(MatchOf(range, x)));
      }
    }
    return Normal(None);
  }

  /** A range object contains `x`. */
  predicate Contains(range: Json, x: real)
  {
    InRange(range, x) == Normal(true)
  }

  /** Over ranges that are all objects the loop never throws, and it yields the first
      range containing the value, or nothing when no range contains it. */
  lemma {:induction false} FirstInRangeIsFirstMatch(ranges: seq<Json>, x: real)
    requires forall k :: 0 <= k < |ranges| ==> ranges[k].Obj?
    ensures FirstInRange(ranges, x).Normal?
    ensures FirstInRange(ranges, x) == Normal(None) <==>
      forall k :: 0 <= k < |ranges| ==> !Contains(ranges[k], x)
    ensures forall k :: (0 <= k < |ranges| && Contains(ranges[k], x) &&
      (forall j :: 0 <= j < k ==> !Contains(ranges[j], x))) ==>
      FirstInRange(ranges, x) == Normal(Some(MatchOf(ranges[k], x)))
    decreases |ranges|
  {
    if |ranges| > 0 {
      FirstInRangeIsFirstMatch(ranges[1..], x);
      assert forall k :: 1 <= k < |ranges| ==> ranges[1..][k - 1] == ranges[k];
      forall k | 0 <= k < |ranges| && Contains(ranges[k], x) &&
        (forall j :: 0 <= j < k ==> !Contains(ranges[j], x))
        ensures FirstInRange(ranges, x) == Normal(Some(MatchOf(ranges[k], x)))
      {
        if k > 0 {
          assert forall j :: 0 <= j < k - 1 ==> ranges[1..][j] == ranges[j + 1];
        }
      }
    }
  }

  /** A range missing `min` or `max` never matches: comparing with `undefined` is false. */
  lemma MissingBoundNeverMatches(m: map<string, Json>, x: real)
    requires "min" !in m || "max" !in m
    ensures InRange(Obj(m), x) == Normal(false)
  {
  }

  /** A classification without a `ranges` key, such as the keyed
      `{excellent: {min, max}, ...}` objects of the backend configurations, classifies
      nothing. */
  lemma KeyedClassificationIsIgnored(m: map<string, Json>, value: Json)
    requires "ranges" !in m
    ensures Classify(value, Obj(m)) == Normal(None)
  {
  }

  // ===========================================================================
  // Field processing

  /** A field declaration: each member is whatever the configuration object holds
      (`Undefined` when absent); `fieldLabel` is its `label`. */
  datatype Field = Field(id: Json, fieldLabel: Json, path: Json, unit: Json, transform: Json,
                         classification: Json, description: Json)

  /** The record `processField` returns. */
  datatype FieldRecord = FieldRecord(fieldLabel: Json, value: Json, unit: Json,
                                     classification: Option<Classification>, description: Json)

  const NotAvailable: Json := Str("N/A")

  /** The uniform "missing data" record. */
  function MissingField(field: Field): FieldRecord
  {
    FieldRecord(field.fieldLabel, NotAvailable, Or(field.unit, Str("")), None, Or(field.description, Null))
  }

  /** The value shown for a resolved field: transformed when a transform is declared. */
  function Shown(value: Json, field: Field): Json
  {
    if Truthy(field.transform) then TransformValue(value, field.transform) else value
  }

  /** `processField(data, field)`. It throws only when a declared classification
      throws; a miss gives the "N/A" record; otherwise the label, unit and description
      are copied and the classification is made on the shown value. */
  function ProcessField(data: Json, field: Field): (r: Completion<FieldRecord>)
    ensures ExtractAt(data, field.path).Null? ==> r == Normal(MissingField(field))
    ensures r.Throw? ==>
      && !ExtractAt(data, field.path).Null?
      && Truthy(field.classification)
      && Classify(Shown(ExtractAt(data, field.path), field), field.classification).Throw?
    ensures r.Normal? ==>
      && r.value.fieldLabel == field.fieldLabel
      && r.value.unit == Or(field.unit, Str(""))
      && r.value.description == Or(field.description, Null)
    ensures r.Normal? && !ExtractAt(data, field.path).Null? ==>
      && r.value.value == Shown(ExtractAt(data, field.path), field)
      && (Truthy(field.classification) ==>
            Classify(r.value.value, field.classification) == Normal(r.value.classification))
      && (!Truthy(field.classification) ==> r.value.classification == None)
  {
    var extracted := ExtractAt(data, field.path);
    if !extracted.Null? && !extracted.Undefined? then
      var value := Shown(extracted, field);
      var classification := if Truthy(field.classification) then Classify(value, field.classification) else Normal(None);
      match classification
      case Throw => Throw
      case Normal(c) => Normal(FieldRecord(field.fieldLabel, value, Or(field.unit, Str("")), c, Or(field.description, Null)))
    else Normal(MissingField(field))
  }

  /** Without a classification, or with one that has no `ranges` (every backend
      configuration), processing a field never throws. */
  lemma ProcessFieldTotal(data: Json, field: Field)
    requires !Truthy(field.classification) ||
             (field.classification.Obj? && "ranges" !in field.classification.fields)
    ensures ProcessField(data, field).Normal?
  {
  }

  /** A field whose `path` is not a string shows the "N/A" record. */
  lemma NonStringPathIsMissing(data: Json, field: Field)
    requires !field.path.Str?
    ensures ProcessField(data, field) == Normal(MissingField(field))
  {
  }
}
