/** The two statistics of the dashboard handler of Backend/server.js that do not depend
    on the clock or on the user list: the count of assessments per type and the rounded
    mean accuracy. */
module DashboardStats {
  import opened Common
  import opened Values

  // ---------------------------------------------------------------------------
  // Assessments by type

  /** `{ _id, count }`: one entry of the per-type tally. */
  datatype TypeCount = TypeCount(id: Json, count: nat)

  function TypeOf(x: Record): Json
  {
    Prop(x, "assessment_id")
  }

  /** `acc.find(item => item._id === id)`, as an index. */
  function EntryOf(acc: seq<TypeCount>, id: Json): (r: Option<nat>)
    ensures r.Some? ==> r.value < |acc| && StrictEq(acc[r.value].id, id)
    ensures r.Some? ==> forall j :: 0 <= j < r.value ==> !StrictEq(acc[j].id, id)
    ensures r.None? ==> forall j :: 0 <= j < |acc| ==> !StrictEq(acc[j].id, id)
  {
    if |acc| == 0 then None
    else if StrictEq(acc[0].id, id) then Some(0)
    else
      match EntryOf(acc[1..], id)
      case None => None
      case Some(k) => Some(k + 1)
  }

  /** One step of the reducer: count the record in its type's entry, or open a new entry
      with count 1 at the end. */
  function Tally(acc: seq<TypeCount>, id: Json): seq<TypeCount>
  {
    match EntryOf(acc, id)
    case Some(k) => acc[k := TypeCount(acc[k].id, acc[k].count + 1)]
    case None => acc + [TypeCount(id, 1)]
  }

  /** `records.reduce(tally, [])`. */
  function GroupCounts(rs: seq<Record>): seq<TypeCount>
  {
    if |rs| == 0 then [] else Tally(GroupCounts(rs[..|rs| - 1]), TypeOf(rs[|rs| - 1]))
  }

  /** The reducer as the handler runs it, updating the found entry in place. */
  method AssessmentsByType(rs: seq<Record>) returns (acc: seq<TypeCount>)
    ensures acc == GroupCounts(rs)
  {
    acc := [];
    for i := 0 to |rs|
      invariant acc == GroupCounts(rs[..i])
    {
      var id := TypeOf(rs[i]);
      var k := 0;
      while k < |acc| && !StrictEq(acc[k].id, id)
        invariant 0 <= k <= |acc|
        invariant forall j :: 0 <= j < k ==> !StrictEq(acc[j].id, id)
      {
        k := k + 1;
      }
      assert EntryOf(acc, id) == if k < |acc| then Some(k) else None;
      if k < |acc| {
        acc := acc[k := TypeCount(acc[k].id, acc[k].count + 1)];
      } else {
        acc := acc + [TypeCount(id, 1)];
      }
      assert rs[..i + 1][..i] == rs[..i];
    }
    assert rs[..|rs|] == rs;
  }

  /** The sum of the counts. */
  function Total(acc: seq<TypeCount>): nat
  {
    if |acc| == 0 then 0 else acc[0].count + Total(acc[1..])
  }

  lemma {:induction false} TotalUpdate(acc: seq<TypeCount>, k: nat, e: TypeCount)
    requires k < |acc|
    ensures Total(acc[k := e]) == Total(acc) - acc[k].count + e.count
  {
    if k > 0 {
      assert acc[k := e][1..] == acc[1..][k - 1 := e];
      TotalUpdate(acc[1..], k - 1, e);
    }
  }

  lemma {:induction false} TotalAppend(acc: seq<TypeCount>, e: TypeCount)
    ensures Total(acc + [e]) == Total(acc) + e.count
  {
    if |acc| > 0 {
      assert (acc + [e])[1..] == acc[1..] + [e];
      TotalAppend(acc[1..], e);
    } else {
      assert acc + [e] == [e];
    }
  }

  /** The counts add up to the number of records. */
  lemma {:induction false} GroupCountsTotal(rs: seq<Record>)
    ensures Total(GroupCounts(rs)) == |rs|
  {
    if |rs| > 0 {
      var acc := GroupCounts(rs[..|rs| - 1]);
      GroupCountsTotal(rs[..|rs| - 1]);
      var id := TypeOf(rs[|rs| - 1]);
      match EntryOf(acc, id)
      case Some(k) => TotalUpdate(acc, k, TypeCount(acc[k].id, acc[k].count + 1));
      case None => TotalAppend(acc, TypeCount(id, 1));
    }
  }

  /** No two entries have strictly equal identifiers. */
  predicate Distinct(acc: seq<TypeCount>)
  {
    forall j, k :: 0 <= j < k < |acc| ==> !StrictEq(acc[j].id, acc[k].id)
  }

  /** Every entry has been counted at least once. */
  predicate Positive(acc: seq<TypeCount>)
  {
    forall k :: 0 <= k < |acc| ==> acc[k].count >= 1
  }

  lemma {:induction false} GroupCountsDistinct(rs: seq<Record>)
    ensures Distinct(GroupCounts(rs)) && Positive(GroupCounts(rs))
  {
    if |rs| > 0 {
      GroupCountsDistinct(rs[..|rs| - 1]);
    }
  }

  /** How many records have a type strictly equal to `id`. */
  function Occurrences(rs: seq<Record>, id: Json): nat
  {
    if |rs| == 0 then 0
    else Occurrences(rs[..|rs| - 1], id) + (if StrictEq(TypeOf(rs[|rs| - 1]), id) then 1 else 0)
  }

  /** The count the tally reports for `id`: its entry's count, or 0 without an entry. */
  function CountOf(acc: seq<TypeCount>, id: Json): nat
  {
    match EntryOf(acc, id)
    case Some(k) => acc[k].count
    case None => 0
  }

  /** Strict equality is an equivalence on the values it relates. */
  lemma StrictEqSame(a: Json, b: Json, c: Json)
    requires StrictEq(a, b)
    ensures StrictEq(a, c) <==> StrictEq(b, c)
    ensures StrictEq(c, a) <==> StrictEq(c, b)
  {
  }

  /** The first entry strictly equal to `x` is found. */
  lemma EntryOfIs(acc: seq<TypeCount>, x: Json, k: nat)
    requires k < |acc| && StrictEq(acc[k].id, x)
    requires forall j :: 0 <= j < k ==> !StrictEq(acc[j].id, x)
    ensures EntryOf(acc, x) == Some(k)
  {
    match EntryOf(acc, x)
    case None =>
    case Some(m) =>
      if m < k {
      } else if m > k {
      }
  }

  /** Lookup depends only on the identifiers of the entries. */
  lemma {:induction false} EntryOfSameIds(a: seq<TypeCount>, b: seq<TypeCount>, x: Json)
    requires |a| == |b| && forall j :: 0 <= j < |a| ==> a[j].id == b[j].id
    ensures EntryOf(a, x) == EntryOf(b, x)
  {
    if |a| > 0 {
      EntryOfSameIds(a[1..], b[1..], x);
    }
  }

  /** An appended entry that is not strictly equal to `x` is never the one found. */
  lemma EntryOfAppend(acc: seq<TypeCount>, e: TypeCount, x: Json)
    requires !StrictEq(e.id, x)
    ensures EntryOf(acc + [e], x) == EntryOf(acc, x)
  {
    var t := acc + [e];
    match EntryOf(acc, x)
    case Some(k) =>
      EntryOfIs(t, x, k);
    case None =>
  }

  /** Tallying `id` adds one to the count of every value strictly equal to it and leaves
      every other count alone. */
  lemma TallyCount(acc: seq<TypeCount>, id: Json, x: Json)
    ensures CountOf(Tally(acc, id), x) == CountOf(acc, x) + (if StrictEq(id, x) then 1 else 0)
  {
    var t := Tally(acc, id);
    match EntryOf(acc, id)
    case Some(k) =>
      EntryOfSameIds(t, acc, x);
      if StrictEq(id, x) {
        StrictEqSame(id, x, acc[k].id);
        forall j | 0 <= j < k ensures !StrictEq(acc[j].id, x) {
          StrictEqSame(id, x, acc[j].id);
        }
        EntryOfIs(acc, x, k);
      } else {
        if EntryOf(acc, x) == Some(k) {
          StrictEqSame(acc[k].id, id, x);
        }
      }
    case None =>
      if StrictEq(id, x) {
        forall j | 0 <= j < |acc| ensures !StrictEq(acc[j].id, x) {
          StrictEqSame(id, x, acc[j].id);
        }
        EntryOfIs(t, x, |acc|);
      } else {
        EntryOfAppend(acc, TypeCount(id, 1), x);
      }
  }

  /** The tally reports, for every value, how many records have that type. */
  lemma {:induction false} GroupCountsCount(rs: seq<Record>, x: Json)
    ensures CountOf(GroupCounts(rs), x) == Occurrences(rs, x)
  {
    if |rs| > 0 {
      GroupCountsCount(rs[..|rs| - 1], x);
      TallyCount(GroupCounts(rs[..|rs| - 1]), TypeOf(rs[|rs| - 1]), x);
    }
  }

  /** Tallying keeps every identifier in place and opens an entry only for a new type. */
  lemma TallyIds(acc: seq<TypeCount>, id: Json)
    ensures EntryOf(acc, id).Some? ==>
      |Tally(acc, id)| == |acc| && forall j :: 0 <= j < |acc| ==> Tally(acc, id)[j].id == acc[j].id
    ensures EntryOf(acc, id).None? ==> Tally(acc, id) == acc + [TypeCount(id, 1)]
  {
  }

  /** Where each entry of the tally was opened, record positions increasing. */
  predicate FirstSeen(rs: seq<Record>, acc: seq<TypeCount>, pos: seq<nat>)
  {
    && |pos| == |acc|
    && (forall k :: 0 <= k < |pos| ==> pos[k] < |rs| && acc[k].id == TypeOf(rs[pos[k]]))
    && (forall k, i :: 0 <= k < |pos| && 0 <= i < pos[k] ==> !StrictEq(TypeOf(rs[i]), acc[k].id))
    && (forall j, k :: 0 <= j < k < |pos| ==> pos[j] < pos[k])
  }

  /** The entries appear in the order in which their types are first met: entry `k` was
      opened by record `pos[k]`, no earlier record has that type, and the positions
      increase. */
  lemma {:induction false} GroupCountsFirstSeen(rs: seq<Record>) returns (pos: seq<nat>)
    ensures FirstSeen(rs, GroupCounts(rs), pos)
  {
    if |rs| == 0 {
      pos := [];
    } else {
      var n := |rs| - 1;
      var init := rs[..n];
      var p := GroupCountsFirstSeen(init);
      var acc := GroupCounts(init);
      var id := TypeOf(rs[n]);
      TallyIds(acc, id);
      if EntryOf(acc, id).Some? {
        pos := p;
        FirstSeenExtend(rs, acc, GroupCounts(rs), p);
      } else {
        forall i | 0 <= i < n ensures !StrictEq(TypeOf(rs[i]), id) {
          assert init[i] == rs[i];
          NewTypeUnseen(init, i, id);
        }
        pos := p + [n];
        FirstSeenOpen(rs, acc, p);
      }
    }
  }

  /** A record list grown by one record whose type already has an entry. */
  lemma FirstSeenExtend(rs: seq<Record>, acc: seq<TypeCount>, t: seq<TypeCount>, p: seq<nat>)
    requires |rs| > 0 && FirstSeen(rs[..|rs| - 1], acc, p)
    requires |t| == |acc| && forall j :: 0 <= j < |acc| ==> t[j].id == acc[j].id
    ensures FirstSeen(rs, t, p)
  {
    var init := rs[..|rs| - 1];
    assert forall i :: 0 <= i < |init| ==> init[i] == rs[i];
  }

  /** A record list grown by one record of a type no earlier record has. */
  lemma FirstSeenOpen(rs: seq<Record>, acc: seq<TypeCount>, p: seq<nat>)
    requires |rs| > 0 && FirstSeen(rs[..|rs| - 1], acc, p)
    requires forall i :: 0 <= i < |rs| - 1 ==> !StrictEq(TypeOf(rs[i]), TypeOf(rs[|rs| - 1]))
    ensures FirstSeen(rs, acc + [TypeCount(TypeOf(rs[|rs| - 1]), 1)], p + [|rs| - 1])
  {
    var init := rs[..|rs| - 1];
    assert forall i :: 0 <= i < |init| ==> init[i] == rs[i];
  }

  /** A type without an entry is not the type of any counted record. */
  lemma NewTypeUnseen(rs: seq<Record>, i: nat, id: Json)
    requires i < |rs| && EntryOf(GroupCounts(rs), id).None?
    ensures !StrictEq(TypeOf(rs[i]), id)
  {
    if StrictEq(TypeOf(rs[i]), id) {
      StrictEqSame(TypeOf(rs[i]), id, TypeOf(rs[i]));
      InitTypesCovered(rs, i);
      var acc := GroupCounts(rs);
      var k := EntryOf(acc, TypeOf(rs[i])).value;
      StrictEqSame(TypeOf(rs[i]), id, acc[k].id);
      assert false;
    }
  }

  /** Every record of a strictly comparable type has an entry. */
  lemma InitTypesCovered(rs: seq<Record>, i: nat)
    requires i < |rs|
    ensures StrictEq(TypeOf(rs[i]), TypeOf(rs[i])) ==> EntryOf(GroupCounts(rs), TypeOf(rs[i])).Some?
  {
    var x := TypeOf(rs[i]);
    if StrictEq(x, x) {
      GroupCountsCount(rs, x);
      OccurrencesPositive(rs, i);
    }
  }

  lemma {:induction false} OccurrencesPositive(rs: seq<Record>, i: nat)
    requires i < |rs| && StrictEq(TypeOf(rs[i]), TypeOf(rs[i]))
    ensures Occurrences(rs, TypeOf(rs[i])) >= 1
  {
    var n := |rs| - 1;
    if i < n {
      assert rs[..n][i] == rs[i];
      OccurrencesPositive(rs[..n], i);
    }
  }

  // ---------------------------------------------------------------------------
  // Average score

  /** `Math.round(x)`: the nearest integer, halves rounding up. */
  function Round(x: real): (r: int)
    ensures r as real - 0.5 <= x < r as real + 0.5
  {
    (x + 0.5).Floor
  }

  /** `reduce((sum, a) => sum + a.accuracy, 0)` when every accuracy is a number; `None`
      otherwise. */
  function AccuracySum(rs: seq<Record>): Option<real>
  {
    if |rs| == 0 then Some(0.0)
    else
      match AccuracySum(rs[..|rs| - 1])
      case None => None
      case Some(t) =>
        var a := Prop(rs[|rs| - 1], "accuracy");
        if a.Num? then Some(t + a.n) else None
  }

  /** The rounded mean accuracy, or 0 when there are no records. */
  function AverageScore(rs: seq<Record>): (r: Option<int>)
    ensures |rs| == 0 ==> r == Some(0)
  {
    if |rs| == 0 then Some(0)
    else
      match AccuracySum(rs)
      case None => None
      case Some(t) => Some(Round(t / |rs| as real))
  }

  /** Every record's accuracy is a number between `lo` and `hi`. */
  predicate AccuraciesWithin(rs: seq<Record>, lo: real, hi: real)
  {
    forall x :: x in rs ==> Prop(x, "accuracy").Num? && lo <= Prop(x, "accuracy").n <= hi
  }

  lemma {:induction false} AccuracySumWithin(rs: seq<Record>, lo: real, hi: real)
    requires AccuraciesWithin(rs, lo, hi)
    ensures AccuracySum(rs).Some?
    ensures (|rs| as real) * lo <= AccuracySum(rs).value <= (|rs| as real) * hi
  {
    if |rs| > 0 {
      var n := |rs| - 1;
      AccuraciesWithinPrefix(rs, n, lo, hi);
      AccuracySumWithin(rs[..n], lo, hi);
      var t := AccuracySum(rs[..n]).value;
      var a := LastAccuracy(rs, lo, hi);
      assert AccuracySum(rs) == Some(t + a);
      StepWithin(n, t, a, lo, hi);
    }
  }

  lemma AccuraciesWithinPrefix(rs: seq<Record>, n: nat, lo: real, hi: real)
    requires n <= |rs| && AccuraciesWithin(rs, lo, hi)
    ensures AccuraciesWithin(rs[..n], lo, hi)
  {
    forall x | x in rs[..n] ensures Prop(x, "accuracy").Num? && lo <= Prop(x, "accuracy").n <= hi {
      assert x in rs;
    }
  }

  /** The accuracy of the last record, which lies between the bounds. */
  lemma LastAccuracy(rs: seq<Record>, lo: real, hi: real) returns (a: real)
    requires |rs| > 0 && AccuraciesWithin(rs, lo, hi)
    ensures Prop(rs[|rs| - 1], "accuracy") == Num(a) && lo <= a <= hi
  {
    assert rs[|rs| - 1] in rs;
    a := Prop(rs[|rs| - 1], "accuracy").n;
  }

  /** Adding one more value between `lo` and `hi` to a sum of `n` such values. */
  lemma StepWithin(n: nat, t: real, a: real, lo: real, hi: real)
    requires (n as real) * lo <= t <= (n as real) * hi && lo <= a <= hi
    ensures ((n + 1) as real) * lo <= t + a <= ((n + 1) as real) * hi
  {
    assert ((n + 1) as real) * lo == (n as real) * lo + lo;
    assert ((n + 1) as real) * hi == (n as real) * hi + hi;
  }

  /** With accuracies between two whole numbers, the average lies between them too. */
  lemma AverageScoreWithin(rs: seq<Record>, lo: int, hi: int)
    requires |rs| > 0 && AccuraciesWithin(rs, lo as real, hi as real)
    ensures AverageScore(rs).Some?
    ensures lo <= AverageScore(rs).value <= hi
  {
    AccuracySumWithin(rs, lo as real, hi as real);
    var n := |rs| as real;
    var t := AccuracySum(rs).value;
    DivWithin(t, n, lo as real, hi as real);
  }

  lemma DivWithin(t: real, n: real, lo: real, hi: real)
    requires n > 0.0 && n * lo <= t <= n * hi
    ensures lo <= t / n <= hi
  {
    assert t / n * n == t;
  }
}
