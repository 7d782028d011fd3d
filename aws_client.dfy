/** `AwsClient._get_summary`: pages of summaries are scanned for the ones whose match key
    holds one of the requested values; each is stored at its value's (first) position. */
module AwsClient {
  import opened Wrappers
  import opened Lookup

  /** One summary of a listing, as its string-valued fields. */
  type Summary = map<string, string>

  /** What the paginator yields: the summaries of each page, in order. */
  type Pages = seq<seq<Summary>>

  /** The filter predicates the callers pass: the default, and the stack filter of
      `get_stack_summary`, which reads "StackStatus". */
  datatype Filter = AcceptAll | NotDeleteComplete

  /** The requested values: a single value, or a list of them. */
  datatype Match = One(value: string) | Many(values: seq<string>)

  /** The answer: the one slot for a single value, the slots for a list. */
  datatype Found = Single(summary: Option<Summary>) | Slots(summaries: seq<Option<Summary>>)

  /** The scan's state: the slots and the `found` counter. */
  datatype Scan = Scan(slots: seq<Option<Summary>>, found: nat)

  function Accepts(f: Filter, s: Summary): (r: Result<bool>)
    ensures f.AcceptAll? ==> r == Ok(true)
    ensures f.NotDeleteComplete? ==>
      r == (if "StackStatus" in s then Ok(s["StackStatus"] != "DELETE_COMPLETE") else Err(KeyError("StackStatus")))
  {
    match f
    case AcceptAll => Ok(true)
    case NotDeleteComplete =>
      if "StackStatus" in s then Ok(s["StackStatus"] != "DELETE_COMPLETE") else Err(KeyError("StackStatus"))
  }

  /** The values as a list: a single value becomes a list of one. */
  function MatchList(mv: Match): (vs: seq<string>)
    ensures mv.One? ==> vs == [mv.value]
    ensures mv.Many? ==> vs == mv.values
  {
    match mv
    case One(v) => [v]
    case Many(vs) => vs
  }

  /** One summary of a page: a summary the filter rejects is skipped; one whose value is
      requested is stored at that value's first position and counted, and the page is
      left when the count reaches the number of values. A summary without the match key
      raises KeyError. */
  function Visit(values: seq<string>, key: string, f: Filter, st: Scan, s: Summary): (r: Result<(Scan, bool)>)
    requires |st.slots| == |values|
    ensures r.Ok? ==> |r.value.0.slots| == |st.slots|
  {
    var ok :- Accepts(f, s);
    if !ok then Ok((st, false))
    else if key !in s then Err(KeyError(key))
    else
      var i := FirstIndex(values, s[key]);
      if i == |values| then Ok((st, false))
      else
        var next := Scan(st.slots[i := Some(s)], st.found + 1);
        Ok((next, next.found == |values|))
  }

  function ScanPage(values: seq<string>, key: string, f: Filter, st: Scan, page: seq<Summary>, j: nat): (r: Result<Scan>)
    requires j <= |page| && |st.slots| == |values|
    ensures r.Ok? ==> |r.value.slots| == |st.slots|
    decreases |page| - j
  {
    if j == |page| then Ok(st)
    else
      var v :- Visit(values, key, f, st, page[j]);
      if v.1 then Ok(v.0) else ScanPage(values, key, f, v.0, page, j + 1)
  }

  function ScanPages(values: seq<string>, key: string, f: Filter, st: Scan, pages: Pages, p: nat): (r: Result<Scan>)
    requires p <= |pages| && |st.slots| == |values|
    ensures r.Ok? ==> |r.value.slots| == |st.slots|
    decreases |pages| - p
  {
    if p == |pages| then Ok(st)
    else
      var next :- ScanPage(values, key, f, st, pages[p], 0);
      ScanPages(values, key, f, next, pages, p + 1)
  }

  function Empty(n: nat): (s: Scan)
    ensures |s.slots| == n && s.found == 0
    ensures forall i :: 0 <= i < n ==> s.slots[i].None?
  {
    Scan(seq(n, _ => None), 0)
  }

  /** What `_get_summary` returns: the slots for a list of values, the one slot for a
      single value. */
  function GetSummaryOf(pages: Pages, key: string, mv: Match, f: Filter): (r: Result<Found>)
    ensures r.Ok? && mv.Many? ==> r.value.Slots? && |r.value.summaries| == |mv.values|
    ensures r.Ok? && mv.One? ==> r.value.Single?
  {
    var values := MatchList(mv);
    var st :- ScanPages(values, key, f, Empty(|values|), pages, 0);
    if mv.Many? then Ok(Slots(st.slots)) else Ok(Single(st.slots[0]))
  }

  /** `_get_summary`, with its nested loops, the `found` counter and the inner `break`. */
  method GetSummary(pages: Pages, key: string, mv: Match, f: Filter) returns (r: Result<Found>)
    ensures r == GetSummaryOf(pages, key, mv, f)
  {
    var values := MatchList(mv);
    var summaries: seq<Option<Summary>> := seq(|values|, _ => None);
    var found := 0;
    for p := 0 to |pages|
      invariant |summaries| == |values|
      invariant ScanPages(values, key, f, Empty(|values|), pages, 0) ==
        ScanPages(values, key, f, Scan(summaries, found), pages, p)
    {
      var page := pages[p];
      ghost var start := Scan(summaries, found);
      var j := 0;
      while j < |page|
        invariant j <= |page| && |summaries| == |values|
        invariant ScanPage(values, key, f, start, page, 0) == ScanPage(values, key, f, Scan(summaries, found), page, j)
      {
        var summary := page[j];
        var ok := Accepts(f, summary);
        if ok.Err? {
          return Err(ok.error);
        }
        if !ok.value {
          j := j + 1;
          continue;
        }
        if key !in summary {
          return Err(KeyError(key));
        }
        var index := FirstIndex(values, summary[key]);
        if index < |values| {
          summaries := summaries[index := Some(summary)];
          found := found + 1;
          if found == |values| {
            assert ScanPage(values, key, f, start, page, 0) == Ok(Scan(summaries, found));
            break;
          }
        }
        j := j + 1;
      }
      assert ScanPage(values, key, f, start, page, 0) == Ok(Scan(summaries, found));
    }
    if mv.Many? {
      return Ok(Slots(summaries));
    }
    return Ok(Single(summaries[0]));
  }

  // ----- what a filled slot holds ------------------------------------------------------

  /** `s` is a summary of one of the pages. */
  predicate Seen(pages: Pages, s: Summary) {
    exists p :: 0 <= p < |pages| && s in pages[p]
  }

  /** A summary fit for slot `i`: accepted by the filter, holding value `i` under the
      match key, seen on a page; and `i` is that value's first position. */
  predicate SlotOk(values: seq<string>, key: string, f: Filter, pages: Pages, i: nat, s: Summary)
    requires i < |values|
  {
    Accepts(f, s) == Ok(true) && key in s && s[key] == values[i] && FirstIndex(values, values[i]) == i && Seen(pages, s)
  }

  predicate Sound(values: seq<string>, key: string, f: Filter, pages: Pages, st: Scan)
    requires |st.slots| == |values|
  {
    forall i :: 0 <= i < |values| && st.slots[i].Some? ==> SlotOk(values, key, f, pages, i, st.slots[i].value)
  }

  lemma VisitSound(values: seq<string>, key: string, f: Filter, pages: Pages, st: Scan, s: Summary)
    requires |st.slots| == |values| && Sound(values, key, f, pages, st) && Seen(pages, s)
    ensures Visit(values, key, f, st, s).Ok? ==> Sound(values, key, f, pages, Visit(values, key, f, st, s).value.0)
  {
  }

  lemma {:induction false} ScanPageSound(values: seq<string>, key: string, f: Filter, pages: Pages, st: Scan, p: nat, j: nat)
    requires p < |pages| && j <= |pages[p]| && |st.slots| == |values| && Sound(values, key, f, pages, st)
    ensures ScanPage(values, key, f, st, pages[p], j).Ok? ==>
      Sound(values, key, f, pages, ScanPage(values, key, f, st, pages[p], j).value)
    decreases |pages[p]| - j
  {
    if j < |pages[p]| {
      assert pages[p][j] in pages[p];
      VisitSound(values, key, f, pages, st, pages[p][j]);
      var v := Visit(values, key, f, st, pages[p][j]);
      if v.Ok? && !v.value.1 {
        ScanPageSound(values, key, f, pages, v.value.0, p, j + 1);
      }
    }
  }

  lemma {:induction false} ScanPagesSound(values: seq<string>, key: string, f: Filter, pages: Pages, st: Scan, p: nat)
    requires p <= |pages| && |st.slots| == |values| && Sound(values, key, f, pages, st)
    ensures ScanPages(values, key, f, st, pages, p).Ok? ==>
      Sound(values, key, f, pages, ScanPages(values, key, f, st, pages, p).value)
    decreases |pages| - p
  {
    if p < |pages| {
      ScanPageSound(values, key, f, pages, st, p, 0);
      var next := ScanPage(values, key, f, st, pages[p], 0);
      if next.Ok? {
        ScanPagesSound(values, key, f, pages, next.value, p + 1);
      }
    }
  }

  /** Slot `i` is empty or holds a summary from the pages that the filter accepts and that
      holds value `i` under the match key; a value listed twice fills only its first slot. */
  lemma GetSummarySound(pages: Pages, key: string, mv: Match, f: Filter)
    requires GetSummaryOf(pages, key, mv, f).Ok?
    ensures mv.Many? ==> forall i :: 0 <= i < |mv.values| && GetSummaryOf(pages, key, mv, f).value.summaries[i].Some? ==>
      SlotOk(mv.values, key, f, pages, i, GetSummaryOf(pages, key, mv, f).value.summaries[i].value)
    ensures mv.One? && GetSummaryOf(pages, key, mv, f).value.summary.Some? ==>
      SlotOk([mv.value], key, f, pages, 0, GetSummaryOf(pages, key, mv, f).value.summary.value)
  {
    var values := MatchList(mv);
    ScanPagesSound(values, key, f, pages, Empty(|values|), 0);
  }

  // ----- the scan when the counter never reaches the number of values ------------------

  /** All summaries of all pages, in order. */
  function Flatten(pages: Pages): seq<Summary> {
    if pages == [] then [] else pages[0] + Flatten(pages[1..])
  }

  /** A summary the scan stores somewhere. */
  predicate Hit(values: seq<string>, key: string, f: Filter, s: Summary) {
    Accepts(f, s) == Ok(true) && key in s && s[key] in values
  }

  /** How many summaries of `ss` the scan stores, so how far `found` counts. */
  function Matches(values: seq<string>, key: string, f: Filter, ss: seq<Summary>): nat {
    if ss == [] then 0 else (if Hit(values, key, f, ss[0]) then 1 else 0) + Matches(values, key, f, ss[1..])
  }

  /** The summaries raise nothing: the filter answers, and accepted ones have the key. */
  predicate WellFormed(key: string, f: Filter, ss: seq<Summary>) {
    forall s :: s in ss ==> Accepts(f, s).Ok? && (Accepts(f, s).value ==> key in s)
  }

  /** The last summary of `ss` the filter accepts holding `v` under the key. */
  function LastMatch(key: string, f: Filter, ss: seq<Summary>, v: string): Option<Summary> {
    if ss == [] then None
    else
      var s := ss[|ss| - 1];
      if Accepts(f, s) == Ok(true) && key in s && s[key] == v then Some(s)
      else LastMatch(key, f, ss[..|ss| - 1], v)
  }

  /** The slots a scan of `ss` with no early exit fills: a value's first position holds
      the last summary matching it, every other position stays empty. */
  function Expected(values: seq<string>, key: string, f: Filter, ss: seq<Summary>): (r: seq<Option<Summary>>)
    ensures |r| == |values|
  {
    seq(|values|, i requires 0 <= i < |values| =>
      if FirstIndex(values, values[i]) == i then LastMatch(key, f, ss, values[i]) else None)
  }

  predicate ScanInv(values: seq<string>, key: string, f: Filter, st: Scan, ss: seq<Summary>) {
    st.slots == Expected(values, key, f, ss) && st.found == Matches(values, key, f, ss)
  }

  lemma {:induction false} MatchesAppend(values: seq<string>, key: string, f: Filter, a: seq<Summary>, b: seq<Summary>)
    ensures Matches(values, key, f, a + b) == Matches(values, key, f, a) + Matches(values, key, f, b)
  {
    if a != [] {
      assert (a + b)[1..] == a[1..] + b;
      MatchesAppend(values, key, f, a[1..], b);
    } else {
      assert a + b == b;
    }
  }

  lemma MatchesOne(values: seq<string>, key: string, f: Filter, s: Summary)
    ensures Matches(values, key, f, [s]) == if Hit(values, key, f, s) then 1 else 0
  {
    assert [s][1..] == [];
  }

  lemma VisitNoBreak(values: seq<string>, key: string, f: Filter, st: Scan, ss: seq<Summary>, s: Summary)
    requires ScanInv(values, key, f, st, ss) && WellFormed(key, f, [s])
    requires Matches(values, key, f, ss + [s]) < |values|
    ensures Visit(values, key, f, st, s).Ok? && !Visit(values, key, f, st, s).value.1
    ensures ScanInv(values, key, f, Visit(values, key, f, st, s).value.0, ss + [s])
  {
    MatchesAppend(values, key, f, ss, [s]);
    MatchesOne(values, key, f, s);
    assert s in [s];
    var t := ss + [s];
    assert t[|t| - 1] == s && t[..|t| - 1] == ss;
    var st' := Visit(values, key, f, st, s).value.0;
    forall k | 0 <= k < |values|
      ensures st'.slots[k] == Expected(values, key, f, t)[k]
    {
      if Hit(values, key, f, s) && values[k] == s[key] && FirstIndex(values, values[k]) == k {
        assert st'.slots[k] == Some(s);
      }
    }
  }

  lemma {:induction false} ScanPageNoBreak(values: seq<string>, key: string, f: Filter, st: Scan, ss: seq<Summary>,
                                           page: seq<Summary>, j: nat)
    requires j <= |page| && ScanInv(values, key, f, st, ss) && WellFormed(key, f, page[j..])
    requires Matches(values, key, f, ss + page[j..]) < |values|
    ensures ScanPage(values, key, f, st, page, j).Ok?
    ensures ScanInv(values, key, f, ScanPage(values, key, f, st, page, j).value, ss + page[j..])
    decreases |page| - j
  {
    if j == |page| {
      assert ss + page[j..] == ss;
    } else {
      var s := page[j];
      assert page[j..] == [s] + page[j + 1..];
      assert ss + page[j..] == (ss + [s]) + page[j + 1..];
      MatchesAppend(values, key, f, ss + [s], page[j + 1..]);
      assert s in page[j..];
      VisitNoBreak(values, key, f, st, ss, s);
      var next := Visit(values, key, f, st, s).value.0;
      ScanPageNoBreak(values, key, f, next, ss + [s], page, j + 1);
    }
  }

  lemma {:induction false} ScanPagesNoBreak(values: seq<string>, key: string, f: Filter, st: Scan, ss: seq<Summary>,
                                            pages: Pages, p: nat)
    requires p <= |pages| && ScanInv(values, key, f, st, ss) && WellFormed(key, f, Flatten(pages[p..]))
    requires Matches(values, key, f, ss + Flatten(pages[p..])) < |values|
    ensures ScanPages(values, key, f, st, pages, p).Ok?
    ensures ScanInv(values, key, f, ScanPages(values, key, f, st, pages, p).value, ss + Flatten(pages[p..]))
    decreases |pages| - p
  {
    if p == |pages| {
      assert ss + Flatten(pages[p..]) == ss;
    } else {
      assert pages[p..][1..] == pages[p + 1..];
      var rest := Flatten(pages[p + 1..]);
      assert Flatten(pages[p..]) == pages[p] + rest;
      assert ss + Flatten(pages[p..]) == (ss + pages[p]) + rest;
      MatchesAppend(values, key, f, ss + pages[p], rest);
      assert pages[p][0..] == pages[p];
      ScanPageNoBreak(values, key, f, st, ss, pages[p], 0);
      var next := ScanPage(values, key, f, st, pages[p], 0).value;
      ScanPagesNoBreak(values, key, f, next, ss + pages[p], pages, p + 1);
    }
  }

  /** When fewer summaries match than values were requested, nothing ends a page early:
      each value's first position holds the last accepted summary, over all pages, that
      holds it. */
  lemma GetSummaryNoBreak(pages: Pages, key: string, mv: Match, f: Filter)
    requires WellFormed(key, f, Flatten(pages))
    requires Matches(MatchList(mv), key, f, Flatten(pages)) < |MatchList(mv)|
    ensures GetSummaryOf(pages, key, mv, f) ==
      Ok(if mv.Many? then Slots(Expected(mv.values, key, f, Flatten(pages)))
         else Single(Expected([mv.value], key, f, Flatten(pages))[0]))
  {
    var values := MatchList(mv);
    assert Expected(values, key, f, []) == Empty(|values|).slots;
    assert pages[0..] == pages;
    assert [] + Flatten(pages) == Flatten(pages);
    ScanPagesNoBreak(values, key, f, Empty(|values|), [], pages, 0);
    assert [] + Flatten(pages) == Flatten(pages);
  }

  // ----- a single value is found whenever some summary holds it -----------------------

  lemma {:induction false} SeenFlatten(pages: Pages, s: Summary)
    requires Seen(pages, s)
    ensures s in Flatten(pages)
  {
    var p :| 0 <= p < |pages| && s in pages[p];
    if p > 0 {
      assert pages[1..][p - 1] == pages[p];
      SeenFlatten(pages[1..], s);
    }
  }

  /** The slot of a single value is filled once the counter has moved. */
  predicate OneFilled(st: Scan) {
    |st.slots| == 1 && (st.found > 0 ==> st.slots[0].Some?)
  }

  predicate Holds(v: string, key: string, f: Filter, ss: seq<Summary>) {
    exists s :: s in ss && Hit([v], key, f, s)
  }

  lemma {:induction false} ScanPageFindsOne(v: string, key: string, f: Filter, st: Scan, page: seq<Summary>, j: nat)
    requires j <= |page| && OneFilled(st) && WellFormed(key, f, page[j..])
    ensures ScanPage([v], key, f, st, page, j).Ok?
    ensures OneFilled(ScanPage([v], key, f, st, page, j).value)
    ensures st.slots[0].Some? || Holds(v, key, f, page[j..]) ==> ScanPage([v], key, f, st, page, j).value.slots[0].Some?
    decreases |page| - j
  {
    if j < |page| {
      var s := page[j];
      assert s in page[j..];
      assert page[j..] == [s] + page[j + 1..];
      assert forall x :: x in page[j + 1..] ==> x in page[j..];
      var next := Visit([v], key, f, st, s).value;
      if !next.1 {
        ScanPageFindsOne(v, key, f, next.0, page, j + 1);
      }
    }
  }

  lemma {:induction false} ScanPagesFindsOne(v: string, key: string, f: Filter, st: Scan, pages: Pages, p: nat)
    requires p <= |pages| && OneFilled(st) && WellFormed(key, f, Flatten(pages[p..]))
    ensures ScanPages([v], key, f, st, pages, p).Ok?
    ensures st.slots[0].Some? || Holds(v, key, f, Flatten(pages[p..])) ==>
      ScanPages([v], key, f, st, pages, p).value.slots[0].Some?
    decreases |pages| - p
  {
    if p < |pages| {
      assert pages[p..][1..] == pages[p + 1..];
      assert Flatten(pages[p..]) == pages[p] + Flatten(pages[p + 1..]);
      assert pages[p][0..] == pages[p];
      ScanPageFindsOne(v, key, f, st, pages[p], 0);
      var next := ScanPage([v], key, f, st, pages[p], 0).value;
      ScanPagesFindsOne(v, key, f, next, pages, p + 1);
    }
  }

  /** For a single value, when no summary makes the scan raise, the answer is a summary
      exactly when some accepted summary holds the value under the key. */
  lemma GetSummaryOne(pages: Pages, key: string, v: string, f: Filter)
    requires WellFormed(key, f, Flatten(pages))
    ensures GetSummaryOf(pages, key, One(v), f).Ok?
    ensures GetSummaryOf(pages, key, One(v), f).value.summary.Some? <==> Holds(v, key, f, Flatten(pages))
  {
    assert pages[0..] == pages;
    ScanPagesFindsOne(v, key, f, Empty(1), pages, 0);
    GetSummarySound(pages, key, One(v), f);
    var r := GetSummaryOf(pages, key, One(v), f).value.summary;
    if r.Some? {
      SeenFlatten(pages, r.value);
      assert Hit([v], key, f, r.value);
    }
  }

  // ----- the listings of the tests, and the scan's corner cases ---------------------------

  /** The scan of a one-page listing. */
  lemma OnePage(values: seq<string>, key: string, f: Filter, page: seq<Summary>, st: Scan)
    requires |values| > 0 && ScanPage(values, key, f, Empty(|values|), page, 0) == Ok(st)
    ensures GetSummaryOf([page], key, Many(values), f) == Ok(Slots(st.slots))
    ensures |values| == 1 ==> GetSummaryOf([page], key, One(values[0]), f) == Ok(Single(st.slots[0]))
  {
    assert [page][0] == page;
    assert ScanPages(values, key, f, Empty(|values|), [page], 0) == ScanPages(values, key, f, st, [page], 1);
    assert |values| == 1 ==> [values[0]] == values;
  }

  /** Three summaries with distinct values under the key, on one page: asking for the first
      and third gives those two, and so does asking for the second and third (the phone
      number and contact flow listings). */
  lemma ThreeSummariesExample(key: string, v1: string, v2: string, v3: string, p1: Summary, p2: Summary, p3: Summary)
    requires key in p1 && key in p2 && key in p3
    requires p1[key] == v1 && p2[key] == v2 && p3[key] == v3
    requires v1 != v2 && v2 != v3 && v1 != v3
    ensures GetSummaryOf([[p1, p2, p3]], key, Many([v1, v3]), AcceptAll) == Ok(Slots([Some(p1), Some(p3)]))
    ensures GetSummaryOf([[p1, p2, p3]], key, Many([v2, v3]), AcceptAll) == Ok(Slots([Some(p2), Some(p3)]))
  {
    var page := [p1, p2, p3];
    assert page[0] == p1 && page[1] == p2 && page[2] == p3;
    var e := Empty(2);
    assert e.slots == [None, None];
    var vs := [v1, v3];
    assert FirstIndex(vs, v1) == 0 && FirstIndex(vs, v2) == 2 && FirstIndex(vs, v3) == 1;
    var a := Scan([Some(p1), None], 1);
    var b := Scan([Some(p1), Some(p3)], 2);
    assert e.slots[0 := Some(p1)] == a.slots && a.slots[1 := Some(p3)] == b.slots;
    assert Visit(vs, key, AcceptAll, e, p1) == Ok((a, false));
    assert Visit(vs, key, AcceptAll, a, p2) == Ok((a, false));
    assert Visit(vs, key, AcceptAll, a, p3) == Ok((b, true));
    assert ScanPage(vs, key, AcceptAll, a, page, 1) == Ok(b);
    OnePage(vs, key, AcceptAll, page, b);
    vs := [v2, v3];
    assert FirstIndex(vs, v1) == 2 && FirstIndex(vs, v2) == 0 && FirstIndex(vs, v3) == 1;
    a := Scan([Some(p2), None], 1);
    b := Scan([Some(p2), Some(p3)], 2);
    assert Visit(vs, key, AcceptAll, e, p1) == Ok((e, false));
    assert e.slots[0 := Some(p2)] == a.slots && a.slots[1 := Some(p3)] == b.slots;
    assert Visit(vs, key, AcceptAll, e, p2) == Ok((a, false));
    assert Visit(vs, key, AcceptAll, a, p3) == Ok((b, true));
    assert ScanPage(vs, key, AcceptAll, e, page, 1) == Ok(b);
    OnePage(vs, key, AcceptAll, page, b);
  }

  /** The counter counts matching summaries, not distinct values: a second summary with the
      first value fills the count, the page is left, and the second value's summary later
      on the same page is never stored. */
  lemma RepeatedMatchEndsPage(key: string, a: string, b: string, s1: Summary, s2: Summary, s3: Summary)
    requires key in s1 && key in s2 && key in s3
    requires s1[key] == a && s2[key] == a && s3[key] == b && a != b
    ensures GetSummaryOf([[s1, s2, s3]], key, Many([a, b]), AcceptAll) == Ok(Slots([Some(s2), None]))
  {
    var page := [s1, s2, s3];
    assert page[0] == s1 && page[1] == s2;
    var vs := [a, b];
    assert FirstIndex(vs, a) == 0;
    var e := Empty(2);
    assert e.slots == [None, None];
    var x := Scan([Some(s1), None], 1);
    var y := Scan([Some(s2), None], 2);
    assert e.slots[0 := Some(s1)] == x.slots && x.slots[0 := Some(s2)] == y.slots;
    assert Visit(vs, key, AcceptAll, e, s1) == Ok((x, false));
    assert Visit(vs, key, AcceptAll, x, s2) == Ok((y, true));
    assert ScanPage(vs, key, AcceptAll, x, page, 1) == Ok(y);
    OnePage(vs, key, AcceptAll, page, y);
  }

  /** The `break` leaves only the current page: a match on a later page still overwrites
      the slot. */
  lemma LaterPageOverwrites(key: string, a: string, s1: Summary, s2: Summary)
    requires key in s1 && key in s2 && s1[key] == a && s2[key] == a
    ensures GetSummaryOf([[s1], [s2]], key, One(a), AcceptAll) == Ok(Single(Some(s2)))
  {
    var pages := [[s1], [s2]];
    assert pages[0] == [s1] && pages[1] == [s2];
    assert [s1][0] == s1 && [s2][0] == s2;
    assert FirstIndex([a], a) == 0;
    var e := Empty(1);
    assert e.slots == [None];
    var x := Scan([Some(s1)], 1);
    var y := Scan([Some(s2)], 2);
    assert e.slots[0 := Some(s1)] == x.slots && x.slots[0 := Some(s2)] == y.slots;
    assert Visit([a], key, AcceptAll, e, s1) == Ok((x, true));
    assert Visit([a], key, AcceptAll, x, s2) == Ok((y, false));
    assert ScanPage([a], key, AcceptAll, e, [s1], 0) == Ok(x);
    assert ScanPage([a], key, AcceptAll, x, [s2], 0) == Ok(y);
    assert ScanPages([a], key, AcceptAll, x, pages, 1) == Ok(y);
  }

  /** A summary without the match key that the filter accepts raises KeyError; one the
      filter skips is never looked at. */
  lemma MissingKeyRaises(key: string, s: Summary, v: string)
    requires key !in s
    ensures GetSummaryOf([[s]], key, One(v), AcceptAll) == Err(KeyError(key))
    ensures "StackStatus" in s && s["StackStatus"] == "DELETE_COMPLETE" ==>
      GetSummaryOf([[s]], key, One(v), NotDeleteComplete) == Ok(Single(None))
  {
    assert [[s]][0] == [s] && [s][0] == s;
    var e := Empty(1);
    assert e.slots == [None];
    if "StackStatus" in s && s["StackStatus"] == "DELETE_COMPLETE" {
      assert Visit([v], key, NotDeleteComplete, e, s) == Ok((e, false));
      assert ScanPage([v], key, NotDeleteComplete, e, [s], 1) == Ok(e);
      OnePage([v], key, NotDeleteComplete, [s], e);
    }
  }
}
