/** The scroll-spy of the wizard's page layout: every intersection report stores
    the latest visible ratio of a step's section, and the most visible section
    names the step to move to. The ratio map keeps JavaScript `Map` order: a step
    keeps the position of its first report when a later report overwrites it. */
module CreateEventTemplate {
  import opened Wrappers
  import opened SeqFacts
  import opened CreateEventSlice

  /** One intersection entry: the section's numeric `data-step` (None when the
      attribute is missing or not a number) and its intersection ratio. */
  datatype Entry = Entry(step: Option<int>, ratio: real)

  /** The key an entry is stored under: `if (step)` skips NaN and 0. */
  function StoredStep(e: Entry): (r: Option<int>)
    ensures r.Some? <==> e.step.Some? && e.step.value != 0
    ensures r.Some? ==> r == e.step
  {
    if e.step.Some? && e.step.value != 0 then e.step else None
  }

  /** A ratio map as insertion order plus values. */
  ghost predicate Consistent(order: seq<int>, ratios: map<int, real>) {
    && (forall s :: s in ratios ==> s in order)
    && (forall j :: 0 <= j < |order| ==> order[j] in ratios)
    && NoDup(order)
  }

  // ---------------------------------------------------------------------------
  // Recording a batch of entries
  // ---------------------------------------------------------------------------

  /** The insertion order after `ratioMap.set` for each entry, in turn. */
  function OrderAfter(order: seq<int>, entries: seq<Entry>): seq<int> {
    if entries == [] then order
    else
      var o := OrderAfter(order, entries[..|entries| - 1]);
      var s := StoredStep(entries[|entries| - 1]);
      if s.Some? && s.value !in o then o + [s.value] else o
  }

  /** The ratios after `ratioMap.set` for each entry, in turn. */
  function RatiosAfter(ratios: map<int, real>, entries: seq<Entry>): map<int, real> {
    if entries == [] then ratios
    else
      var r := RatiosAfter(ratios, entries[..|entries| - 1]);
      var s := StoredStep(entries[|entries| - 1]);
      if s.Some? then r[s.value := entries[|entries| - 1].ratio] else r
  }

  /** Recording keeps the map consistent, never moves an already stored step
      (the old order is a prefix of the new one), and never stores step 0. */
  lemma {:induction false} RecordKeepsOrder(order: seq<int>, ratios: map<int, real>, entries: seq<Entry>)
    requires Consistent(order, ratios)
    ensures Consistent(OrderAfter(order, entries), RatiosAfter(ratios, entries))
    ensures order <= OrderAfter(order, entries)
    ensures 0 !in ratios ==> 0 !in RatiosAfter(ratios, entries)
  {
    if entries != [] {
      var init := entries[..|entries| - 1];
      RecordKeepsOrder(order, ratios, init);
      var o := OrderAfter(order, init);
      var s := StoredStep(entries[|entries| - 1]);
      if s.Some? && s.value !in o {
        NoDupAppend(o, s.value);
      }
    }
  }

  /** A step's stored ratio is the one of its latest entry. */
  lemma {:induction false} LatestRatioWins(ratios: map<int, real>, entries: seq<Entry>, i: nat)
    requires i < |entries| && StoredStep(entries[i]).Some?
    requires forall j :: i < j < |entries| ==> StoredStep(entries[j]) != StoredStep(entries[i])
    ensures StoredStep(entries[i]).value in RatiosAfter(ratios, entries)
    ensures RatiosAfter(ratios, entries)[StoredStep(entries[i]).value] == entries[i].ratio
  {
    var init := entries[..|entries| - 1];
    if i < |entries| - 1 {
      LatestRatioWins(ratios, init, i);
    }
  }

  /** Steps no entry names keep their ratio. */
  lemma {:induction false} UnreportedRatioKept(ratios: map<int, real>, entries: seq<Entry>, s: int)
    requires forall j :: 0 <= j < |entries| ==> StoredStep(entries[j]) != Some(s)
    ensures s in RatiosAfter(ratios, entries) <==> s in ratios
    ensures s in ratios ==> RatiosAfter(ratios, entries)[s] == ratios[s]
  {
    if entries != [] {
      UnreportedRatioKept(ratios, entries[..|entries| - 1], s);
    }
  }

  // ---------------------------------------------------------------------------
  // Choosing the step
  // ---------------------------------------------------------------------------

  /** The position the `bestStep`/`bestRatio` scan ends on, starting from ratio -1:
      the first position holding the largest ratio, or -1 when no ratio beats -1. */
  function BestIndex(order: seq<int>, ratios: map<int, real>): (idx: int)
    requires forall j :: 0 <= j < |order| ==> order[j] in ratios
    ensures -1 <= idx < |order|
    ensures idx == -1 ==> forall j :: 0 <= j < |order| ==> ratios[order[j]] <= -1.0
    ensures 0 <= idx ==> ratios[order[idx]] > -1.0
    ensures 0 <= idx ==> forall j :: 0 <= j < |order| ==> ratios[order[j]] <= ratios[order[idx]]
    ensures 0 <= idx ==> forall j :: 0 <= j < idx ==> ratios[order[j]] < ratios[order[idx]]
  {
    if order == [] then -1
    else
      var init := order[..|order| - 1];
      assert forall j :: 0 <= j < |init| ==> init[j] == order[j];
      var i := BestIndex(init, ratios);
      var best := if i == -1 then -1.0 else ratios[init[i]];
      if ratios[order[|order| - 1]] > best then |order| - 1 else i
  }

  /** The step the callback reports: the best step, only when its ratio is positive. */
  function Report(order: seq<int>, ratios: map<int, real>): Option<int>
    requires forall j :: 0 <= j < |order| ==> order[j] in ratios
  {
    var i := BestIndex(order, ratios);
    if 0 <= i && ratios[order[i]] > 0.0 then Some(order[i]) else None
  }

  /** A step is reported iff some section is visible at all; the reported step is
      an observed one, the most visible, and the first-inserted among equally
      visible ones. */
  lemma ReportCharacterized(order: seq<int>, ratios: map<int, real>)
    requires Consistent(order, ratios)
    ensures Report(order, ratios).Some? <==> exists s :: s in ratios && ratios[s] > 0.0
    ensures Report(order, ratios).Some? ==>
      var best := Report(order, ratios).value;
      && best in ratios
      && (forall s :: s in ratios ==> ratios[s] <= ratios[best])
      && (forall j :: 0 <= j < |order| && order[j] != best && ratios[order[j]] == ratios[best]
            ==> exists k :: 0 <= k < j && order[k] == best)
  {
    var i := BestIndex(order, ratios);
    if Report(order, ratios).Some? {
      var best := order[i];
      forall s | s in ratios
        ensures ratios[s] <= ratios[best]
      {
        var j :| 0 <= j < |order| && order[j] == s;
      }
      forall j | 0 <= j < |order| && order[j] != best && ratios[order[j]] == ratios[best]
        ensures exists k :: 0 <= k < j && order[k] == best
      {
        assert i < j;
      }
    } else {
      forall s | s in ratios
        ensures ratios[s] <= 0.0
      {
        var j :| 0 <= j < |order| && order[j] == s;
      }
    }
  }

  /** An empty map or one whose ratios are all zero reports nothing. */
  lemma NothingVisibleNoReport(order: seq<int>, ratios: map<int, real>)
    requires Consistent(order, ratios)
    requires forall s :: s in ratios ==> ratios[s] <= 0.0
    ensures Report(order, ratios) == None
  {
    ReportCharacterized(order, ratios);
  }

  // ---------------------------------------------------------------------------
  // The observer's map, in place
  // ---------------------------------------------------------------------------

  class ScrollSpy {
    /** The keys of `ratioMap` in insertion order. */
    var order: seq<int>
    /** `ratioMap`: the latest ratio per step. */
    var ratios: map<int, real>

    ghost predicate Valid()
      reads this
    {
      Consistent(order, ratios)
    }

    /** `new Map<number, number>()`. */
    constructor ()
      ensures Valid() && order == [] && ratios == map[]
    {
      order, ratios := [], map[];
    }

    /** `ratioMap.set(step, ratio)`: a new step goes last; an existing one keeps
        its place and takes the new ratio. */
    method Set(step: int, ratio: real)
      requires Valid()
      modifies this
      ensures Valid()
      ensures ratios == old(ratios)[step := ratio]
      ensures order == if step in old(ratios) then old(order) else old(order) + [step]
    {
      if step !in ratios {
        NoDupAppend(order, step);
        order := order + [step];
      }
      ratios := ratios[step := ratio];
    }

    /** The scan over `ratioMap` in insertion order with a strict comparison, and
        the report when the best ratio is positive. */
    method BestStep() returns (report: Option<int>)
      requires Valid()
      ensures report == Report(order, ratios)
      ensures report.Some? ==> report.value in ratios && ratios[report.value] > 0.0
      ensures report.Some? ==> forall s :: s in ratios ==> ratios[s] <= ratios[report.value]
    {
      var bestStep := 1;
      var bestRatio := -1.0;
      ghost var bestIdx := -1;
      var i := 0;
      while i < |order|
        invariant 0 <= i <= |order|
        invariant forall j :: 0 <= j < i ==> order[..i][j] in ratios
        invariant bestIdx == BestIndex(order[..i], ratios)
        invariant bestIdx == -1 ==> bestStep == 1 && bestRatio == -1.0
        invariant 0 <= bestIdx ==> bestStep == order[bestIdx] && bestRatio == ratios[order[bestIdx]]
      {
        assert order[..i + 1][..i] == order[..i];
        assert order[..i + 1][i] == order[i];
        var ratio := ratios[order[i]];
        if ratio > bestRatio {
          bestRatio := ratio;
          bestStep := order[i];
          bestIdx := i;
        }
        i := i + 1;
      }
      assert order[..i] == order;
      report := if bestRatio > 0.0 then Some(bestStep) else None;
      ReportCharacterized(order, ratios);
    }

    /** The observer callback: record every entry with a usable step, then report
        the most visible step if any section is visible. */
    method Observe(entries: seq<Entry>) returns (report: Option<int>)
      requires Valid()
      modifies this
      ensures Valid()
      ensures order == OrderAfter(old(order), entries)
      ensures ratios == RatiosAfter(old(ratios), entries)
      ensures report == Report(order, ratios)
    {
      ghost var order0, ratios0 := order, ratios;
      var i := 0;
      while i < |entries|
        invariant 0 <= i <= |entries|
        invariant Valid()
        invariant order == OrderAfter(order0, entries[..i])
        invariant ratios == RatiosAfter(ratios0, entries[..i])
      {
        assert entries[..i + 1][..i] == entries[..i];
        assert entries[..i + 1][i] == entries[i];
        var step := entries[i].step;
        if step.Some? && step.value != 0 {
          Set(step.value, entries[i].ratio);
        }
        i := i + 1;
      }
      assert entries[..i] == entries;
      report := BestStep();
    }
  }
}
