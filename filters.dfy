/** The filter engine of handle_sink_added (snapclient_automatic/run.py):
    the configured filters are walked in order, each filter's conditions are
    checked left to right with an early exit, and a filter that matches
    overwrites the running `accept` and `latency` decisions it defines. */
module Filters {
  import opened Results
  import opened Conditions

  /** One entry of the add-on's `filters` option; each key may be absent. */
  datatype Filter = Filter(
    conditions: Option<seq<string>>,
    accept: Option<bool>,
    latency: Option<int>)

  /** What handle_sink_added decides for one sink. */
  datatype Decision = Decision(accept: bool, latency: Option<int>)

  /** The variables the filter loop updates: `any_filters`, `result_accept`
      and `result_latency`. */
  datatype Accumulator = Accumulator(anyFilters: bool, accept: bool, latency: Option<int>)

  const Initial := Accumulator(false, false, None)

  /** How one condition text is evaluated; the filter walk is the same
      whatever it is. */
  type Evaluator = string -> Result<bool>

  /** The evaluation of conditions against one sink's property list. */
  function ConditionTest(properties: Properties): Evaluator {
    condition => EvalCondition(properties, condition)
  }

  /** `filter.get("conditions", [])` */
  function ConditionsOf(f: Filter): seq<string> {
    match f.conditions
    case Some(cs) => cs
    case None => []
  }

  /** The conditions of one filter, checked in order, stopping at the first
      that fails; the first KeyError met on the way is raised. */
  function Matches(eval: Evaluator, conditions: seq<string>): Result<bool> {
    if conditions == [] then Ok(true)
    else
      match eval(conditions[0])
      case Err(e) => Err(e)
      case Ok(holds) => if holds then Matches(eval, conditions[1..]) else Ok(false)
  }

  /** The effect of one filter on the accumulated decision. */
  function Apply(acc: Accumulator, f: Filter, matched: bool): Accumulator {
    Accumulator(
      true,
      if matched && f.accept.Some? then f.accept.value else acc.accept,
      if matched && f.latency.Some? then f.latency else acc.latency)
  }

  /** The accumulator after the filter loop has run over `filters`, left to
      right; the first KeyError aborts the walk. */
  function Scan(eval: Evaluator, filters: seq<Filter>): Result<Accumulator>
    decreases |filters|
  {
    if filters == [] then Ok(Initial)
    else
      var acc :- Scan(eval, filters[..|filters| - 1]);
      var last := filters[|filters| - 1];
      var matched :- Matches(eval, ConditionsOf(last));
      Ok(Apply(acc, last, matched))
  }

  /** The decision of handle_sink_added: accept when a filter accepted or when
      there are no filters at all. */
  function Decide(eval: Evaluator, filters: seq<Filter>): Result<Decision> {
    var acc :- Scan(eval, filters);
    Ok(Decision(acc.accept || !acc.anyFilters, acc.latency))
  }

  /** Every condition before position `i` holds. */
  predicate HoldBefore(eval: Evaluator, conditions: seq<string>, i: nat)
    requires i <= |conditions|
  {
    forall j :: 0 <= j < i ==> eval(conditions[j]) == Ok(true)
  }

  /** Once the first condition holds, "all hold before `i`" is "all of the
      rest hold before `i - 1`". */
  lemma HoldBeforeShift(eval: Evaluator, conditions: seq<string>)
    requires conditions != [] && eval(conditions[0]) == Ok(true)
    ensures forall i :: 0 < i <= |conditions| ==>
      (HoldBefore(eval, conditions, i) <==> HoldBefore(eval, conditions[1..], i - 1))
  {
    var tail := conditions[1..];
    forall i | 0 < i <= |conditions|
      ensures HoldBefore(eval, conditions, i) <==> HoldBefore(eval, tail, i - 1)
    {
      if HoldBefore(eval, tail, i - 1) {
        forall j | 0 < j < i ensures eval(conditions[j]) == Ok(true) {
          assert tail[j - 1] == conditions[j];
        }
      }
    }
  }

  /** A filter matches exactly when all its conditions hold; in particular a
      filter without conditions always matches. */
  lemma {:induction false} MatchesIffAllHold(eval: Evaluator, conditions: seq<string>)
    ensures Matches(eval, conditions) == Ok(true) <==> HoldBefore(eval, conditions, |conditions|)
    decreases |conditions|
  {
    if conditions != [] {
      MatchesIffAllHold(eval, conditions[1..]);
      if eval(conditions[0]) == Ok(true) {
        HoldBeforeShift(eval, conditions);
      }
    }
  }

  /** A filter fails to match exactly when some condition fails while all the
      conditions before it hold; the conditions after it are never evaluated,
      so one of them that would raise KeyError does not. */
  lemma {:induction false} MatchesFailsAtFirstFailure(eval: Evaluator, conditions: seq<string>)
    ensures Matches(eval, conditions) == Ok(false)
        <==> exists i :: 0 <= i < |conditions| && HoldBefore(eval, conditions, i)
                         && eval(conditions[i]) == Ok(false)
    decreases |conditions|
  {
    if conditions != [] {
      var tail := conditions[1..];
      MatchesFailsAtFirstFailure(eval, tail);
      if eval(conditions[0]) == Ok(true) {
        HoldBeforeShift(eval, conditions);
        if Matches(eval, conditions) == Ok(false) {
          var k :| 0 <= k < |tail| && HoldBefore(eval, tail, k)
                   && eval(tail[k]) == Ok(false);
          assert HoldBefore(eval, conditions, k + 1);
        }
        if exists i :: 0 <= i < |conditions| && HoldBefore(eval, conditions, i)
                       && eval(conditions[i]) == Ok(false) {
          var k :| 0 <= k < |conditions| && HoldBefore(eval, conditions, k)
                   && eval(conditions[k]) == Ok(false);
          assert k > 0 && tail[k - 1] == conditions[k];
        }
      } else {
        assert HoldBefore(eval, conditions, 0);
      }
    }
  }

  /** Matching raises exactly when a condition reached by the walk (all
      before it hold) raises, and it raises that condition's error. */
  lemma {:induction false} MatchesRaisesFirstError(eval: Evaluator, conditions: seq<string>)
    ensures Matches(eval, conditions).Err?
        <==> exists i :: 0 <= i < |conditions| && HoldBefore(eval, conditions, i)
                         && eval(conditions[i]).Err?
                         && eval(conditions[i]) == Matches(eval, conditions)
    decreases |conditions|
  {
    if conditions != [] {
      var tail := conditions[1..];
      MatchesRaisesFirstError(eval, tail);
      if eval(conditions[0]) == Ok(true) {
        HoldBeforeShift(eval, conditions);
        if Matches(eval, conditions).Err? {
          var k :| 0 <= k < |tail| && HoldBefore(eval, tail, k)
                   && eval(tail[k]).Err?
                   && eval(tail[k]) == Matches(eval, tail);
          assert HoldBefore(eval, conditions, k + 1);
        }
        if exists i :: 0 <= i < |conditions| && HoldBefore(eval, conditions, i)
                       && eval(conditions[i]).Err?
                       && eval(conditions[i]) == Matches(eval, conditions) {
          var k :| 0 <= k < |conditions| && HoldBefore(eval, conditions, k)
                   && eval(conditions[k]).Err?
                   && eval(conditions[k]) == Matches(eval, conditions);
          assert k > 0 && tail[k - 1] == conditions[k];
        }
      } else {
        assert HoldBefore(eval, conditions, 0);
      }
    }
  }

  /** No filter before position `i` raises while being matched. */
  predicate NoErrorBefore(eval: Evaluator, filters: seq<Filter>, i: nat)
    requires i <= |filters|
  {
    forall j :: 0 <= j < i ==> Matches(eval, ConditionsOf(filters[j])).Ok?
  }

  /** The walk raises exactly when matching some filter raises, and then it
      raises the error of the first such filter. */
  lemma {:induction false} ScanOutcome(eval: Evaluator, filters: seq<Filter>)
    ensures Scan(eval, filters).Ok? <==> NoErrorBefore(eval, filters, |filters|)
    ensures Scan(eval, filters).Err? ==>
      exists i :: 0 <= i < |filters| && NoErrorBefore(eval, filters, i)
                  && Matches(eval, ConditionsOf(filters[i])) == Err(Scan(eval, filters).error)
    decreases |filters|
  {
    if filters != [] {
      var n := |filters| - 1;
      var prefix := filters[..n];
      ScanOutcome(eval, prefix);
      assert forall j :: 0 <= j < n ==> prefix[j] == filters[j];
      assert NoErrorBefore(eval, filters, n) <==> NoErrorBefore(eval, prefix, n);
      assert NoErrorBefore(eval, filters, n + 1)
         <==> NoErrorBefore(eval, filters, n) && Matches(eval, ConditionsOf(filters[n])).Ok?;
      if Scan(eval, prefix).Err? {
        var k :| 0 <= k < n && NoErrorBefore(eval, prefix, k)
                 && Matches(eval, ConditionsOf(prefix[k])) == Err(Scan(eval, prefix).error);
        assert NoErrorBefore(eval, filters, k);
      } else if Scan(eval, filters).Err? {
        assert NoErrorBefore(eval, filters, n);
      }
    }
  }

  /** The filter matches and defines `accept`. */
  predicate SetsAccept(eval: Evaluator, f: Filter) {
    Matches(eval, ConditionsOf(f)) == Ok(true) && f.accept.Some?
  }

  /** The filter matches and defines `latency`. */
  predicate SetsLatency(eval: Evaluator, f: Filter) {
    Matches(eval, ConditionsOf(f)) == Ok(true) && f.latency.Some?
  }

  /** `filters[i]` is the last filter that matches and defines `accept`. */
  predicate LastToSetAccept(eval: Evaluator, filters: seq<Filter>, i: int) {
    && 0 <= i < |filters|
    && SetsAccept(eval, filters[i])
    && forall j :: i < j < |filters| ==> !SetsAccept(eval, filters[j])
  }

  /** `filters[i]` is the last filter that matches and defines `latency`. */
  predicate LastToSetLatency(eval: Evaluator, filters: seq<Filter>, i: int) {
    && 0 <= i < |filters|
    && SetsLatency(eval, filters[i])
    && forall j :: i < j < |filters| ==> !SetsLatency(eval, filters[j])
  }

  /** When the last filter does not set `accept`, the last setter among all
      filters is the last setter among the others. */
  lemma SkipAcceptSetter(eval: Evaluator, filters: seq<Filter>)
    requires filters != [] && !SetsAccept(eval, filters[|filters| - 1])
    ensures forall i :: 0 <= i < |filters| - 1 ==>
      (LastToSetAccept(eval, filters, i) <==> LastToSetAccept(eval, filters[..|filters| - 1], i))
    ensures (exists i :: 0 <= i < |filters| && SetsAccept(eval, filters[i]))
        ==> exists i :: 0 <= i < |filters| - 1 && SetsAccept(eval, filters[i])
  {
  }

  /** When the last filter sets `accept`, it is the last setter. */
  lemma LastAcceptSetter(eval: Evaluator, filters: seq<Filter>)
    requires filters != [] && SetsAccept(eval, filters[|filters| - 1])
    ensures forall i :: LastToSetAccept(eval, filters, i) <==> i == |filters| - 1
  {
  }

  /** When the last filter does not set `latency`, the last setter among all
      filters is the last setter among the others. */
  lemma SkipLatencySetter(eval: Evaluator, filters: seq<Filter>)
    requires filters != [] && !SetsLatency(eval, filters[|filters| - 1])
    ensures forall i :: 0 <= i < |filters| - 1 ==>
      (LastToSetLatency(eval, filters, i) <==> LastToSetLatency(eval, filters[..|filters| - 1], i))
    ensures (exists i :: 0 <= i < |filters| && SetsLatency(eval, filters[i]))
        ==> exists i :: 0 <= i < |filters| - 1 && SetsLatency(eval, filters[i])
  {
  }

  /** When the last filter sets `latency`, it is the last setter. */
  lemma LastLatencySetter(eval: Evaluator, filters: seq<Filter>)
    requires filters != [] && SetsLatency(eval, filters[|filters| - 1])
    ensures forall i :: LastToSetLatency(eval, filters, i) <==> i == |filters| - 1
  {
  }

  /** Last match wins for `accept`: the accumulated value is that of the last
      matching filter defining `accept`, and false when no matching filter
      defines it. Every filter seen sets `any_filters`. */
  lemma {:induction false} LastAcceptWins(eval: Evaluator, filters: seq<Filter>, acc: Accumulator)
    requires Scan(eval, filters) == Ok(acc)
    ensures acc.anyFilters <==> filters != []
    ensures (exists i :: 0 <= i < |filters| && SetsAccept(eval, filters[i]))
        ==> exists i :: LastToSetAccept(eval, filters, i)
    ensures forall i :: LastToSetAccept(eval, filters, i) ==> acc.accept == filters[i].accept.value
    ensures (forall i :: 0 <= i < |filters| ==> !SetsAccept(eval, filters[i])) ==> !acc.accept
    decreases |filters|
  {
    if filters != [] {
      var n := |filters| - 1;
      var prefix := filters[..n];
      var before := Scan(eval, prefix).value;
      LastAcceptWins(eval, prefix, before);
      var matched := Matches(eval, ConditionsOf(filters[n])).value;
      assert acc == Apply(before, filters[n], matched);
      if SetsAccept(eval, filters[n]) {
        LastAcceptSetter(eval, filters);
        assert LastToSetAccept(eval, filters, n);
      } else {
        SkipAcceptSetter(eval, filters);
        assert forall i :: 0 <= i < n ==> prefix[i] == filters[i];
        if exists i :: 0 <= i < |filters| && SetsAccept(eval, filters[i]) {
          var k :| 0 <= k < n && SetsAccept(eval, filters[k]);
          assert SetsAccept(eval, prefix[k]);
          var m :| LastToSetAccept(eval, prefix, m);
          assert LastToSetAccept(eval, filters, m);
        }
      }
    }
  }

  /** Last match wins for `latency`, independently of `accept`: the
      accumulated value is that of the last matching filter defining
      `latency`, and None when no matching filter defines it. */
  lemma {:induction false} LastLatencyWins(eval: Evaluator, filters: seq<Filter>, acc: Accumulator)
    requires Scan(eval, filters) == Ok(acc)
    ensures (exists i :: 0 <= i < |filters| && SetsLatency(eval, filters[i]))
        ==> exists i :: LastToSetLatency(eval, filters, i)
    ensures forall i :: LastToSetLatency(eval, filters, i) ==> acc.latency == filters[i].latency
    ensures (forall i :: 0 <= i < |filters| ==> !SetsLatency(eval, filters[i])) ==> acc.latency == None
    decreases |filters|
  {
    if filters != [] {
      var n := |filters| - 1;
      var prefix := filters[..n];
      var before := Scan(eval, prefix).value;
      LastLatencyWins(eval, prefix, before);
      var matched := Matches(eval, ConditionsOf(filters[n])).value;
      assert acc == Apply(before, filters[n], matched);
      if SetsLatency(eval, filters[n]) {
        LastLatencySetter(eval, filters);
        assert LastToSetLatency(eval, filters, n);
      } else {
        SkipLatencySetter(eval, filters);
        assert forall i :: 0 <= i < n ==> prefix[i] == filters[i];
        if exists i :: 0 <= i < |filters| && SetsLatency(eval, filters[i]) {
          var k :| 0 <= k < n && SetsLatency(eval, filters[k]);
          assert SetsLatency(eval, prefix[k]);
          var m :| LastToSetLatency(eval, prefix, m);
          assert LastToSetLatency(eval, filters, m);
        }
      }
    }
  }

  /** The accept rule: with no filters every sink is accepted with the default
      latency; otherwise a sink is accepted exactly when the last matching
      filter that defines `accept` says true, and its latency is that of the
      last matching filter that defines one. */
  lemma AcceptRule(eval: Evaluator, filters: seq<Filter>, d: Decision)
    requires Decide(eval, filters) == Ok(d)
    ensures filters == [] ==> d == Decision(true, None)
    ensures filters != [] ==>
      (d.accept <==> exists i :: LastToSetAccept(eval, filters, i) && filters[i].accept == Some(true))
    ensures forall i :: LastToSetLatency(eval, filters, i) ==> d.latency == filters[i].latency
    ensures (forall i :: 0 <= i < |filters| ==> !SetsLatency(eval, filters[i])) ==> d.latency == None
  {
    var acc := Scan(eval, filters).value;
    LastAcceptWins(eval, filters, acc);
    LastLatencyWins(eval, filters, acc);
    if filters != [] && d.accept {
      var k :| LastToSetAccept(eval, filters, k);
    }
  }

  /** A KeyError raised by some prefix of the filters is the outcome of the whole walk. */
  lemma {:induction false} ScanAbortsOnError(eval: Evaluator, filters: seq<Filter>, k: nat)
    requires k <= |filters| && Scan(eval, filters[..k]).Err?
    ensures Scan(eval, filters) == Scan(eval, filters[..k])
    decreases |filters| - k
  {
    if k < |filters| {
      var longer := filters[..k + 1];
      assert longer[..k] == filters[..k];
      assert Scan(eval, longer) == Scan(eval, filters[..k]);
      ScanAbortsOnError(eval, filters, k + 1);
    } else {
      assert filters[..k] == filters;
    }
  }

  /** The inner loop of handle_sink_added: check the conditions of one
      filter in order, leaving the loop at the first that fails. */
  method CheckConditions(properties: Properties, conditions: seq<string>) returns (r: Result<bool>)
    ensures r == Matches(ConditionTest(properties), conditions)
  {
    ghost var eval := ConditionTest(properties);
    var success := true;
    var j := 0;
    while j < |conditions|
      invariant 0 <= j <= |conditions|
      invariant Matches(eval, conditions) == Matches(eval, conditions[j..])
    {
      var result := EvalCondition(properties, conditions[j]);
      assert result == eval(conditions[j]);
      assert conditions[j..][1..] == conditions[j + 1..];
      if result.Err? {
        return Err(result.error);
      }
      if !result.value {
        success := false;
        break;
      }
      j := j + 1;
    }
    r := Ok(success);
  }

  /** The filter loop of handle_sink_added: a filter whose conditions all
      hold overwrites the decisions it defines. */
  method EvaluateFilters(properties: Properties, filters: seq<Filter>) returns (r: Result<Decision>)
    ensures r == Decide(ConditionTest(properties), filters)
  {
    ghost var eval := ConditionTest(properties);
    var anyFilters, resultAccept, resultLatency := false, false, None;
    var i := 0;
    while i < |filters|
      invariant 0 <= i <= |filters|
      invariant Scan(eval, filters[..i]) == Ok(Accumulator(anyFilters, resultAccept, resultLatency))
    {
      var f := filters[i];
      anyFilters := true;
      var success := CheckConditions(properties, ConditionsOf(f));
      assert filters[..i + 1][..i] == filters[..i];
      if success.Err? {
        ScanAbortsOnError(eval, filters, i + 1);
        return Err(success.error);
      }
      if success.value {
        if f.accept.Some? {
          resultAccept := f.accept.value;
        }
        if f.latency.Some? {
          resultLatency := f.latency;
        }
      }
      i := i + 1;
    }
    assert filters[..i] == filters;
    r := Ok(Decision(resultAccept || !anyFilters, resultLatency));
  }
}
