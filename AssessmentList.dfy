/** The assessment list of Backend/server.js: the optional `assessment_id` and `status`
    filters, the newest-first sort and the page arithmetic over the query strings. */
module AssessmentList {
  import opened Common
  import opened Text
  import opened Values

  // ---------------------------------------------------------------------------
  // Filtering

  /** `rs.filter(a => a[key] === wanted)`: each record is kept exactly as often as it
      occurs when its property matches, and dropped otherwise. */
  function FilterBy(rs: seq<Record>, key: string, wanted: Json): (r: seq<Record>)
    ensures forall x: Record :: multiset(r)[x] == (if StrictEq(Prop(x, key), wanted) then multiset(rs)[x] else 0)
    ensures forall k :: 0 <= k < |r| ==> StrictEq(Prop(r[k], key), wanted)
  {
    if |rs| == 0 then []
    else
      var rest := FilterBy(rs[1..], key, wanted);
      assert rs == [rs[0]] + rs[1..];
      if StrictEq(Prop(rs[0], key), wanted) then [rs[0]] + rest else rest
  }

  /** A query string filter is applied when it is present and not empty. */
  predicate Active(q: Option<string>)
  {
    q.Some? && q.value != ""
  }

  /** Whether a record passes the active filters. */
  predicate Selected(x: Record, assessmentId: Option<string>, status: Option<string>)
  {
    && (Active(assessmentId) ==> StrictEq(Prop(x, "assessment_id"), Str(assessmentId.value)))
    && (Active(status) ==> StrictEq(Prop(x, "status"), Str(status.value)))
  }

  function Filtered(rs: seq<Record>, assessmentId: Option<string>, status: Option<string>): seq<Record>
  {
    var byType := if Active(assessmentId) then FilterBy(rs, "assessment_id", Str(assessmentId.value)) else rs;
    if Active(status) then FilterBy(byType, "status", Str(status.value)) else byType
  }

  /** The filtered list holds exactly the selected records, as often as they occur. */
  lemma FilteredSelects(rs: seq<Record>, assessmentId: Option<string>, status: Option<string>)
    ensures forall x: Record ::
      multiset(Filtered(rs, assessmentId, status))[x] == (if Selected(x, assessmentId, status) then multiset(rs)[x] else 0)
  {
  }

  /** Without a filter, the handler's list is the stored list itself. */
  lemma UnfilteredIsAll(rs: seq<Record>, assessmentId: Option<string>, status: Option<string>)
    requires !Active(assessmentId) && !Active(status)
    ensures Filtered(rs, assessmentId, status) == rs
  {
  }

  // ---------------------------------------------------------------------------
  // Sorting by `b.timestamp - a.timestamp`

  predicate HasTimestamp(x: Record)
  {
    ToNumber(Prop(x, "timestamp")).Some?
  }

  /** The number the comparator's subtraction reads from a record. */
  function Timestamp(x: Record): real
    requires HasTimestamp(x)
  {
    ToNumber(Prop(x, "timestamp")).value
  }

  /** Every record has a numeric timestamp, so the comparator is consistent. */
  predicate Timed(rs: seq<Record>)
  {
    forall x :: x in rs ==> HasTimestamp(x)
  }

  predicate NewestFirst(rs: seq<Record>)
    requires Timed(rs)
  {
    forall i, j :: 0 <= i < j < |rs| ==> Timestamp(rs[i]) >= Timestamp(rs[j])
  }

  /** In a newest-first list, the head is at least as new as every record. */
  lemma HeadIsNewest(rs: seq<Record>)
    requires Timed(rs) && NewestFirst(rs)
    ensures |rs| > 0 ==> forall y :: y in rs ==> Timestamp(rs[0]) >= Timestamp(y)
  {
    forall y | y in rs ensures Timestamp(rs[0]) >= Timestamp(y) {
      var k :| 0 <= k < |rs| && rs[k] == y;
      if k > 0 { assert Timestamp(rs[0]) >= Timestamp(rs[k]); }
    }
  }

  /** Putting a record at least as new as every record in front of a newest-first list. */
  lemma ConsNewestFirst(h: Record, t: seq<Record>)
    requires HasTimestamp(h) && Timed(t) && NewestFirst(t)
    requires forall y :: y in t ==> Timestamp(h) >= Timestamp(y)
    ensures Timed([h] + t) && NewestFirst([h] + t)
  {
    var r := [h] + t;
    forall j | 0 < j < |r| ensures Timestamp(r[0]) >= Timestamp(r[j]) {
      assert r[j] == t[j - 1];
    }
  }

  /** Places `x` before the first record that is not newer than it. */
  function Insert(x: Record, rs: seq<Record>): (r: seq<Record>)
    requires HasTimestamp(x) && Timed(rs) && NewestFirst(rs)
    ensures multiset(r) == multiset(rs) + multiset{x}
    ensures Timed(r) && NewestFirst(r)
  {
    if |rs| == 0 || Timestamp(x) >= Timestamp(rs[0]) then
      HeadIsNewest(rs);
      ConsNewestFirst(x, rs);
      [x] + rs
    else
      var t := Insert(x, rs[1..]);
      InsertTail(x, rs, t);
      [rs[0]] + t
  }

  /** The records of `t` are `x` and those of the tail of `rs`, none newer than `rs[0]`. */
  lemma InsertTail(x: Record, rs: seq<Record>, t: seq<Record>)
    requires HasTimestamp(x) && Timed(rs) && NewestFirst(rs) && |rs| > 0
    requires Timestamp(x) < Timestamp(rs[0])
    requires Timed(t) && NewestFirst(t) && multiset(t) == multiset(rs[1..]) + multiset{x}
    ensures multiset([rs[0]] + t) == multiset(rs) + multiset{x}
    ensures Timed([rs[0]] + t) && NewestFirst([rs[0]] + t)
  {
    assert rs == [rs[0]] + rs[1..];
    HeadIsNewest(rs);
    forall y | y in t ensures Timestamp(rs[0]) >= Timestamp(y) {
      assert y in multiset(t);
      if y != x {
        assert y in multiset(rs[1..]);
        assert y in rs;
      }
    }
    ConsNewestFirst(rs[0], t);
  }

  /** `sort((a, b) => b.timestamp - a.timestamp)`: the same records, newest first. */
  function SortNewestFirst(rs: seq<Record>): (r: seq<Record>)
    requires Timed(rs)
    ensures multiset(r) == multiset(rs)
    ensures Timed(r) && NewestFirst(r)
  {
    if |rs| == 0 then []
    else
      assert rs == [rs[0]] + rs[1..];
      Insert(rs[0], SortNewestFirst(rs[1..]))
  }

  /** Filtering a list with numeric timestamps keeps them numeric. */
  lemma FilteredTimed(rs: seq<Record>, assessmentId: Option<string>, status: Option<string>)
    requires Timed(rs)
    ensures Timed(Filtered(rs, assessmentId, status))
  {
    FilteredSelects(rs, assessmentId, status);
    var f := Filtered(rs, assessmentId, status);
    forall x | x in f ensures HasTimestamp(x) {
      assert multiset(f)[x] > 0;
      assert x in multiset(rs);
    }
  }

  // ---------------------------------------------------------------------------
  // Page arithmetic

  /** A numeric query parameter as the arithmetic reads it: `Number(text)`, or the
      handler's default when the parameter is absent; `None` is NaN. */
  function QueryNumber(q: Option<string>, default: int): Option<real>
  {
    match q
    case None => Some(default as real)
    case Some(s) => StringToNumber(s)
  }

  /** `parseInt(parameter)`, or the default when the parameter is absent. */
  function QueryInt(q: Option<string>, default: int): Option<int>
  {
    match q
    case None => Some(default)
    case Some(s) => ParseInt(s)
  }

  /** Truncation toward zero, as `slice` applies to its arguments. */
  function Truncate(x: real): int
  {
    if x >= 0.0 then x.Floor else -((-x).Floor)
  }

  function Ceil(x: real): int
  {
    -((-x).Floor)
  }

  /** Where a `slice` argument points: NaN is 0, a negative position counts from the
      end, and the result is clamped to the list. */
  function RelativeIndex(x: Option<real>, len: nat): (k: nat)
    ensures k <= len
  {
    match x
    case None => 0
    case Some(v) =>
      var t := Truncate(v);
      if t < 0 then (if len + t < 0 then 0 else len + t)
      else if t > len then len else t
  }

  /** `s.slice(start, end)`. */
  function Slice<T>(s: seq<T>, start: Option<real>, end: Option<real>): seq<T>
  {
    var from := RelativeIndex(start, |s|);
    var to := RelativeIndex(end, |s|);
    if from < to then s[from..to] else []
  }

  /** `(page - 1) * limit`. */
  function StartIndex(page: Option<real>, limit: Option<real>): Option<real>
  {
    if page.Some? && limit.Some? then Some((page.value - 1.0) * limit.value) else None
  }

  /** `startIndex + parseInt(limit)`. */
  function EndIndex(start: Option<real>, limit: Option<int>): Option<real>
  {
    if start.Some? && limit.Some? then Some(start.value + limit.value as real) else None
  }

  /** `Math.ceil(total / limit)`; a division by zero is not a finite number (`None`). */
  function PageCount(total: nat, limit: Option<real>): Option<int>
  {
    match limit
    case None => None
    case Some(l) => if l == 0.0 then None else Some(Ceil(total as real / l))
  }

  lemma TruncateShift(a: real, n: nat)
    ensures Truncate(a) <= Truncate(a + n as real) <= Truncate(a) + n
  {
  }

  /** A window `slice(a, a + n)` holds at most `n` items. */
  lemma SliceAtMost<T>(s: seq<T>, a: real, n: nat)
    ensures |Slice(s, Some(a), Some(a + n as real))| <= n
  {
    TruncateShift(a, n);
  }

  /** The window from `start` to `start + n` holds at most `n` items, and none when
      either bound is NaN. */
  lemma WindowAtMost<T>(s: seq<T>, start: Option<real>, n: Option<int>)
    ensures n.Some? && n.value >= 0 ==> |Slice(s, start, EndIndex(start, n))| <= n.value
    ensures (start.None? || n.None?) ==> Slice(s, start, EndIndex(start, n)) == []
  {
    if start.Some? && n.Some? && n.value >= 0 {
      SliceAtMost(s, start.value, n.value);
    }
  }

  function Min(a: int, b: int): int
  {
    if a < b then a else b
  }

  /** The `page`-th window of `limit` items of a list, pages counted from 1. */
  function PageOf<T>(s: seq<T>, page: nat, limit: nat): seq<T>
  {
    if page == 0 then []
    else
      var from := Min((page - 1) * limit, |s|);
      var to := Min(page * limit, |s|);
      s[from..to]
  }

  lemma CastMul(a: int, b: int)
    ensures (a as real) * (b as real) == (a * b) as real
  {
  }

  lemma TruncateOfInt(n: int)
    ensures Truncate(n as real) == n
  {
  }

  lemma RelativeIndexOfNat(n: nat, len: nat)
    ensures RelativeIndex(Some(n as real), len) == Min(n, len)
  {
    TruncateOfInt(n);
  }

  /** A parameter written as the decimal text of a natural number reads as that number. */
  lemma QueryOfDecimal(n: nat, default: int)
    ensures QueryNumber(Some(NatToDecimal(n)), default) == Some(n as real)
    ensures QueryInt(Some(NatToDecimal(n)), default) == Some(n)
  {
    StringToNumberOfDecimal(n);
    ParseIntOfDecimal(n);
  }

  /** A slice between two natural positions is the clamped window. */
  lemma SliceOfNats<T>(s: seq<T>, from: nat, to: nat)
    requires from <= to
    ensures Slice(s, Some(from as real), Some(to as real)) == s[Min(from, |s|)..Min(to, |s|)]
  {
    RelativeIndexOfNat(from, |s|);
    RelativeIndexOfNat(to, |s|);
  }

  lemma CastMulShift(a: int, b: int)
    ensures ((a as real) - 1.0) * (b as real) == ((a - 1) * b) as real
    ensures ((a - 1) * b) as real + b as real == (a * b) as real
  {
    CastMul(a - 1, b);
    CastMul(a, b);
  }

  /** The start and end of page `page` are `(page - 1) * limit` and `page * limit`. */
  lemma PageBounds(page: nat, limit: nat)
    requires page >= 1
    ensures StartIndex(Some(page as real), Some(limit as real)) == Some(((page - 1) * limit) as real)
    ensures EndIndex(Some(((page - 1) * limit) as real), Some(limit)) == Some((page * limit) as real)
  {
    CastMulShift(page, limit);
  }

  /** With numeric page and limit, the slice is the `page`-th window of `limit` items. */
  lemma PageWindow<T>(s: seq<T>, page: nat, limit: nat)
    requires page >= 1
    ensures var start := StartIndex(Some(page as real), Some(limit as real));
            Slice(s, start, EndIndex(start, Some(limit))) == PageOf(s, page, limit)
  {
    var from: nat := (page - 1) * limit;
    var to: nat := page * limit;
    PageBounds(page, limit);
    CastMulShift(page, limit);
    SliceOfNats(s, from, to);
  }

  /** For a page number of at least 1 and a page size given as decimal text, the slice is
      the `page`-th window of `limit` items, `current` is the page number and the page
      count is the ceiling of the quotient. */
  lemma PageArithmetic<T>(s: seq<T>, page: nat, limit: nat)
    requires page >= 1 && limit >= 1
    ensures var l := QueryNumber(Some(NatToDecimal(limit)), 10);
            var start := StartIndex(QueryNumber(Some(NatToDecimal(page)), 1), l);
            && Slice(s, start, EndIndex(start, QueryInt(Some(NatToDecimal(limit)), 10))) == PageOf(s, page, limit)
            && QueryInt(Some(NatToDecimal(page)), 1) == Some(page)
            && PageCount(|s|, l) == Some(Ceil(|s| as real / limit as real))
  {
    QueryOfDecimal(page, 1);
    QueryOfDecimal(limit, 10);
    PageOfNumbers(s, page, limit, QueryNumber(Some(NatToDecimal(page)), 1),
                  QueryNumber(Some(NatToDecimal(limit)), 10), QueryInt(Some(NatToDecimal(limit)), 10));
  }

  /** The page arithmetic once the parameters are read as numbers. */
  lemma PageOfNumbers<T>(s: seq<T>, page: nat, limit: nat, p: Option<real>, l: Option<real>, n: Option<int>)
    requires page >= 1 && limit >= 1
    requires p == Some(page as real) && l == Some(limit as real) && n == Some(limit)
    ensures Slice(s, StartIndex(p, l), EndIndex(StartIndex(p, l), n)) == PageOf(s, page, limit)
    ensures PageCount(|s|, l) == Some(Ceil(|s| as real / limit as real))
  {
    PageWindow(s, page, limit);
  }

  lemma ScaleBelow(x: real, q: real, l: real, t: real)
    requires x < q && l > 0.0 && q * l == t
    ensures x * l < t
  {
  }

  lemma ScaleAbove(x: real, q: real, l: real, t: real)
    requires x >= q && l > 0.0 && q * l == t
    ensures x * l >= t
  {
  }

  lemma CeilBounds(q: real)
    ensures Ceil(q) as real >= q && (Ceil(q) - 1) as real < q
  {
  }

  /** The page count is the least number of pages that holds every item. */
  lemma PageCountBounds(total: nat, limit: nat)
    requires limit >= 1
    ensures var k := Ceil(total as real / limit as real);
            k >= 0 && k * limit >= total && (total > 0 ==> (k - 1) * limit < total)
  {
    var l := limit as real;
    var q := total as real / l;
    var k := Ceil(q);
    CeilBounds(q);
    ScaleAbove(k as real, q, l, total as real);
    CastMul(k, limit);
    ScaleBelow((k - 1) as real, q, l, total as real);
    CastMul(k - 1, limit);
  }

  /** Pages 1 to k, one after the other. */
  function Pages<T>(s: seq<T>, limit: nat, k: nat): seq<T>
  {
    if k == 0 then [] else Pages(s, limit, k - 1) + PageOf(s, k, limit)
  }

  lemma {:induction false} PagesArePrefix<T>(s: seq<T>, limit: nat, k: nat)
    requires limit >= 1
    ensures Pages(s, limit, k) == s[..Min(k * limit, |s|)]
  {
    if k > 0 {
      PagesArePrefix(s, limit, k - 1);
      var m := Min((k - 1) * limit, |s|);
      var n := Min(k * limit, |s|);
      assert s[..n] == s[..m] + s[m..n];
    }
  }

  /** Read one after the other, the pages 1 to `pages` give back the whole list. */
  lemma PagesCoverList<T>(s: seq<T>, limit: nat)
    requires limit >= 1
    ensures Pages(s, limit, Ceil(|s| as real / limit as real)) == s
  {
    PageCountBounds(|s|, limit);
    PagesArePrefix(s, limit, Ceil(|s| as real / limit as real));
  }

  // ---------------------------------------------------------------------------
  // The list handler

  datatype Pagination = Pagination(current: Option<int>, pages: Option<int>, total: nat)

  /** The response body: one page of assessments and the pagination block. */
  datatype Listing = Listing(assessments: seq<Record>, pagination: Pagination)

  /** The list handler on query strings: `page` defaults to 1 and `limit` to 10; a `None`
      in the pagination block is the `null` a NaN or infinite number becomes. */
  function ListAssessments(rs: seq<Record>, assessmentId: Option<string>, status: Option<string>,
                           page: Option<string>, limit: Option<string>): (r: Listing)
    requires Timed(rs)
    ensures r.pagination.total == |Filtered(rs, assessmentId, status)|
    ensures forall x :: x in r.assessments ==> x in rs && Selected(x, assessmentId, status)
    ensures Timed(r.assessments) && NewestFirst(r.assessments)
    ensures QueryInt(limit, 10).Some? && QueryInt(limit, 10).value >= 0 ==>
      |r.assessments| <= QueryInt(limit, 10).value
    ensures QueryInt(limit, 10).None? ==> r.assessments == []
    ensures r.pagination.current == QueryInt(page, 1)
    ensures r.pagination.pages == PageCount(|Filtered(rs, assessmentId, status)|, QueryNumber(limit, 10))
  {
    FilteredTimed(rs, assessmentId, status);
    var filtered := Filtered(rs, assessmentId, status);
    var sorted := SortNewestFirst(filtered);
    var start := StartIndex(QueryNumber(page, 1), QueryNumber(limit, 10));
    var end := EndIndex(start, QueryInt(limit, 10));
    var shown := Slice(sorted, start, end);
    ShownRecords(rs, assessmentId, status, sorted, start, end);
    WindowAtMost(sorted, start, QueryInt(limit, 10));
    Listing(shown, Pagination(QueryInt(page, 1), PageCount(|filtered|, QueryNumber(limit, 10)), |filtered|))
  }

  /** The records of any window of the sorted list are stored, selected, and still newest
      first. */
  lemma ShownRecords(rs: seq<Record>, assessmentId: Option<string>, status: Option<string>,
                     sorted: seq<Record>, start: Option<real>, end: Option<real>)
    requires Timed(rs)
    requires Timed(Filtered(rs, assessmentId, status))
    requires sorted == SortNewestFirst(Filtered(rs, assessmentId, status))
    ensures forall x :: x in Slice(sorted, start, end) ==> x in rs && Selected(x, assessmentId, status)
    ensures Timed(Slice(sorted, start, end)) && NewestFirst(Slice(sorted, start, end))
  {
    FilteredSelects(rs, assessmentId, status);
    var filtered := Filtered(rs, assessmentId, status);
    var shown := Slice(sorted, start, end);
    SliceWithin(sorted, start, end);
    forall x | x in shown ensures x in rs && Selected(x, assessmentId, status) {
      assert x in multiset(sorted);
      assert multiset(filtered)[x] > 0;
    }
    SliceNewestFirst(sorted, start, end);
  }

  lemma SliceWithin<T>(s: seq<T>, start: Option<real>, end: Option<real>)
    ensures forall x :: x in Slice(s, start, end) ==> x in s
  {
    var from := RelativeIndex(start, |s|);
    var to := RelativeIndex(end, |s|);
    if from < to {
      forall x | x in s[from..to] ensures x in s {
        var k :| 0 <= k < to - from && s[from..to][k] == x;
        assert s[from + k] == x;
      }
    }
  }

  lemma WindowNewestFirst(s: seq<Record>, from: nat, to: nat)
    requires from <= to <= |s|
    requires Timed(s) && NewestFirst(s)
    ensures Timed(s[from..to]) && NewestFirst(s[from..to])
  {
    var w := s[from..to];
    forall x | x in w ensures HasTimestamp(x) {
      var k :| 0 <= k < |w| && w[k] == x;
      assert s[from + k] in s;
    }
    forall i, j | 0 <= i < j < |w| ensures Timestamp(w[i]) >= Timestamp(w[j]) {
      assert w[i] == s[from + i] && w[j] == s[from + j];
    }
  }

  lemma SliceNewestFirst(s: seq<Record>, start: Option<real>, end: Option<real>)
    requires Timed(s) && NewestFirst(s)
    ensures Timed(Slice(s, start, end)) && NewestFirst(Slice(s, start, end))
  {
    var from := RelativeIndex(start, |s|);
    var to := RelativeIndex(end, |s|);
    if from < to {
      WindowNewestFirst(s, from, to);
    }
  }
}
