/** When a score-driven repair loop is worth another turn: the decision, its persistence per phase, and why
    the loop stops even without a ceiling. Scores are reals; rounding is not modelled. */
module RepairProgress {
  import opened Options

  const IMPROVEMENT_EPSILON: real := 0.05
  const DEFAULT_HARD_CAP: int := 6

  type Scores = map<string, real>

  datatype Kind = Coverage | Mutation

  function KindName(kind: Kind): string {
    if kind == Coverage then "coverage" else "mutation"
  }

  datatype Decision = Decision(shouldRepair: bool, failureReason: string, best: Scores, improved: set<string>,
                               noProgressTurns: nat)

  // ---- the decision ----

  /** A measurement improves a target that had no score, or whose score it beats by more than noise. */
  predicate Improves(best: Scores, target: string, score: real) {
    target !in best || score > best[target] + IMPROVEMENT_EPSILON
  }

  function Improved(best: Scores, scores: Scores): set<string> {
    set t | t in scores && Improves(best, t, scores[t])
  }

  function Max(a: real, b: real): real { if a >= b then a else b }

  /** Best score per target, the new measurement included. */
  function Merged(best: Scores, scores: Scores): Scores {
    map t | t in best.Keys + scores.Keys ::
      if t in best && t in scores then Max(scores[t], best[t]) else if t in scores then scores[t] else best[t]
  }

  /** Target `t` while those in `rest` are still to be judged. */
  predicate JudgedAt(previous: Scores, scores: Scores, rest: set<string>, best: Scores, improved: set<string>,
                     t: string) {
    var judged := t in scores && t !in rest;
    && (t in best <==> t in previous || judged)
    && (t in best ==>
          best[t] == if judged && t in previous then Max(scores[t], previous[t])
                     else if judged then scores[t]
                     else if t in previous then previous[t] else 0.0)
    && (t in improved <==> judged && Improves(previous, t, scores[t]))
  }

  lemma JudgedAll(previous: Scores, scores: Scores, best: Scores, improved: set<string>)
    requires forall t :: JudgedAt(previous, scores, {}, best, improved, t)
    ensures best == Merged(previous, scores) && improved == Improved(previous, scores)
  {
    var merged := Merged(previous, scores);
    forall t ensures t in best <==> t in merged { assert JudgedAt(previous, scores, {}, best, improved, t); }
    forall t | t in best ensures best[t] == merged[t] { assert JudgedAt(previous, scores, {}, best, improved, t); }
    forall t
      ensures t in improved <==> t in Improved(previous, scores)
    {
      assert JudgedAt(previous, scores, {}, best, improved, t);
    }
  }

  function Streak(best: Scores, scores: Scores, attempts: int, previous: nat): nat {
    if Improved(best, scores) != {} then 0 else previous + (if scores != map[] && attempts > 0 then 1 else 0)
  }

  /** A round is granted unless the ceiling is reached or this is the second consecutive flat measurement. */
  predicate Grants(best: Scores, scores: Scores, attempts: int, hardCap: int, previous: nat) {
    && attempts < hardCap
    && (Improved(best, scores) != {} || scores == map[] || Streak(best, scores, attempts, previous) < 2)
  }

  /** The measurement has a target that was never measured before, or one that beats its best by more than 0.05. */
  predicate Gains(best: Scores, scores: Scores) {
    exists t :: t in scores && (t in best ==> scores[t] > best[t] + 0.05)
  }

  lemma GainsAreImprovements(best: Scores, scores: Scores)
    ensures Gains(best, scores) <==> Improved(best, scores) != {}
  {
    if t :| t in scores && (t in best ==> scores[t] > best[t] + 0.05) { assert t in Improved(best, scores); }
    if Improved(best, scores) != {} { var t :| t in Improved(best, scores); }
  }

  method DecideRepairProgress(kind: Kind, scores: Scores, previousBest: Scores, attempts: int, hardCap: int,
                              previousNoProgress: nat)
      returns (d: Decision)
    ensures d.best == Merged(previousBest, scores) && d.improved == Improved(previousBest, scores)
    ensures d.noProgressTurns == Streak(previousBest, scores, attempts, previousNoProgress)
    ensures d.shouldRepair <==> Grants(previousBest, scores, attempts, hardCap, previousNoProgress)
    ensures forall t :: t in d.best <==> t in previousBest || t in scores
    ensures forall t :: t in d.improved <==> t in scores && (t in previousBest ==> scores[t] > previousBest[t] + 0.05)
    ensures d.noProgressTurns == if Gains(previousBest, scores) then 0
                                 else if scores != map[] && attempts > 0 then previousNoProgress + 1
                                 else previousNoProgress
    ensures d.shouldRepair <==>
      attempts < hardCap && (Gains(previousBest, scores) || scores == map[] || d.noProgressTurns < 2)
    ensures d.failureReason == (if d.shouldRepair then ""
                                else if attempts >= hardCap then KindName(kind) + "_repair_attempts_exhausted"
                                else KindName(kind) + "_repair_no_progress")
  {
    var best, improved := previousBest, {};
    var rest := scores.Keys;
    while rest != {}
      invariant rest <= scores.Keys
      invariant forall t :: JudgedAt(previousBest, scores, rest, best, improved, t)
      decreases rest
    {
      var target := Pick(rest);
      var score := scores[target];
      assert JudgedAt(previousBest, scores, rest, best, improved, target);
      ghost var best0, improved0, rest0 := best, improved, rest;
      rest := rest - {target};
      if target !in best || score > best[target] + IMPROVEMENT_EPSILON { improved := improved + {target}; }
      best := best[target := if target in best then Max(score, best[target]) else score];
      forall t ensures JudgedAt(previousBest, scores, rest, best, improved, t) {
        assert JudgedAt(previousBest, scores, rest0, best0, improved0, t);
      }
    }
    JudgedAll(previousBest, scores, best, improved);
    GainsAreImprovements(previousBest, scores);
    hide Merged, Improved, Gains;
    var streak := if improved != {} then 0 else previousNoProgress + if scores != map[] && attempts > 0 then 1 else 0;
    if attempts >= hardCap {
      return Decision(false, KindName(kind) + "_repair_attempts_exhausted", best, improved, streak);
    }
    if improved == {} && scores != map[] && streak >= 2 {
      return Decision(false, KindName(kind) + "_repair_no_progress", best, improved, streak);
    }
    d := Decision(true, "", best, improved, streak);
  }

  // ---- persistence per phase ----

  datatype CycleState = CycleState(attemptsByPhase: map<string, int>, maxAttemptsByPhase: map<string, int>,
                                   bestScoresByPhase: map<string, Scores>, noProgressByPhase: map<string, nat>)

  datatype PhaseOutcome = Passed | Repair | FailedFor(reason: string) | Other(name: string)

  datatype Projection = Projection(outcome: PhaseOutcome, bestScoresByPhase: map<string, Scores>,
                                   noProgressByPhase: map<string, nat>)

  /** The kind a phase is judged by: a measuring phase's own, or the one a combined verifier declares. */
  function JudgedKind(phase: string, declaredKind: string): Option<Kind> {
    if phase == "measure_coverage" then Some(Coverage)
    else if phase == "measure_mutation" then Some(Mutation)
    else if declaredKind == KindName(Coverage) then Some(Coverage)
    else if declaredKind == KindName(Mutation) then Some(Mutation)
    else None
  }

  /** The phase a repair turn is counted under; a combined verifier names its own ("" means it does not). */
  function RepairPhase(kind: Kind, declared: string): string {
    if declared != "" then declared else "fix_" + KindName(kind)
  }

  /** The phase whose score history a measurement is compared with: a combined verifier keeps one per kind. */
  function HistoryPhase(kind: Kind, declared: string): string {
    if declared != "" then declared + ":" + KindName(kind) else "fix_" + KindName(kind)
  }

  /** Coverage and mutation measurements are judged by their own kind whatever they declare, other phases by the kind a
      verifier declares for them. A kind has its own repair phase, which counts the turns and keeps the history; a
      verifier that names a repair phase has its turns counted there, and one history there for each kind. */
  lemma PhasesJudged(phase: string, declaredKind: string, declared: string)
    ensures JudgedKind("measure_coverage", declaredKind) == Some(Coverage)
    ensures JudgedKind("measure_mutation", declaredKind) == Some(Mutation)
    ensures phase !in {"measure_coverage", "measure_mutation"} ==>
      && (JudgedKind(phase, declaredKind) == Some(Coverage) <==> declaredKind == "coverage")
      && (JudgedKind(phase, declaredKind) == Some(Mutation) <==> declaredKind == "mutation")
    ensures RepairPhase(Coverage, "") == HistoryPhase(Coverage, "") == "fix_coverage"
    ensures RepairPhase(Mutation, "") == HistoryPhase(Mutation, "") == "fix_mutation"
    ensures declared != "" ==> RepairPhase(Coverage, declared) == RepairPhase(Mutation, declared) == declared
    ensures declared != "" ==> HistoryPhase(Coverage, declared) == declared + ":coverage"
    ensures declared != "" ==> HistoryPhase(Mutation, declared) == declared + ":mutation"
  {
    assert KindName(Coverage) != KindName(Mutation);
    assert declared + ":" + "coverage" == declared + ":coverage";
    assert declared + ":" + "mutation" == declared + ":mutation";
  }

  lemma SuffixTells(a: string, b: string, x: string, y: string)
    ensures a + x == b + y && |x| == |y| ==> x == y
  {
    assert (a + x)[|a|..] == x && (b + y)[|b|..] == y;
  }

  /** Coverage and mutation never share a score history. */
  lemma HistoriesSeparate(k1: Kind, d1: string, k2: Kind, d2: string)
    ensures HistoryPhase(k1, d1) == HistoryPhase(k2, d2) ==> k1 == k2
  {
    var h1, h2 := HistoryPhase(k1, d1), HistoryPhase(k2, d2);
    var p1, p2 := if d1 != "" then d1 + ":" else "fix_", if d2 != "" then d2 + ":" else "fix_";
    assert h1 == p1 + KindName(k1) && h2 == p2 + KindName(k2);
    assert KindName(Coverage)[0] == 'c' && KindName(Mutation)[0] == 'm';
    SuffixTells(p1, p2, KindName(k1), KindName(k2));
  }

  function At<T>(m: map<string, T>, key: string, default: T): T {
    if key in m then m[key] else default
  }

  /** What a judged phase that passed or asked for a repair turns into: it keeps its outcome, or fails with the reason
      the loop gave up; only its own history is replaced. */
  ghost predicate IsJudged(kind: Kind, declared: string, state: CycleState, outcome: PhaseOutcome, scores: Scores,
                           p: Projection) {
    var history, phase := HistoryPhase(kind, declared), RepairPhase(kind, declared);
    var best := if history in state.bestScoresByPhase then state.bestScoresByPhase[history] else map[];
    var attempts := if phase in state.attemptsByPhase then state.attemptsByPhase[phase] else 0;
    var hardCap := if phase in state.maxAttemptsByPhase then state.maxAttemptsByPhase[phase] else 6;
    var previous := if history in state.noProgressByPhase then state.noProgressByPhase[history] else 0;
    && p.bestScoresByPhase == state.bestScoresByPhase[history := Merged(best, scores)]
    && var streak := if outcome == Passed then 0 else Streak(best, scores, attempts, previous);
    && p.noProgressByPhase == state.noProgressByPhase[history := streak]
    && (outcome == Passed ==> p.outcome == Passed)
    && (outcome == Repair ==> (p.outcome == Repair <==> Grants(best, scores, attempts, hardCap, previous)))
    && (outcome == Repair && p.outcome != Repair ==>
          var suffix := if attempts >= hardCap then "_repair_attempts_exhausted" else "_repair_no_progress";
          p.outcome == FailedFor(KindName(kind) + suffix))
  }

  /** What a judged outcome does: no other history changes; a pass stands and ends the streak; a wish for a
      repair stands exactly while the turns are below the ceiling and the measurement gains, is empty, or is the
      first flat one. */
  lemma JudgedMeans(kind: Kind, declared: string, state: CycleState, outcome: PhaseOutcome, scores: Scores,
                    p: Projection)
    requires IsJudged(kind, declared, state, outcome, scores, p) && outcome in {Passed, Repair}
    ensures var history, phase := HistoryPhase(kind, declared), RepairPhase(kind, declared);
      var attempts := if phase in state.attemptsByPhase then state.attemptsByPhase[phase] else 0;
      var hardCap := if phase in state.maxAttemptsByPhase then state.maxAttemptsByPhase[phase] else 6;
      var best := if history in state.bestScoresByPhase then state.bestScoresByPhase[history] else map[];
      && history in p.bestScoresByPhase && history in p.noProgressByPhase
      && p.bestScoresByPhase - {history} == state.bestScoresByPhase - {history}
      && p.noProgressByPhase - {history} == state.noProgressByPhase - {history}
      && (outcome == Passed ==> p.outcome == Passed && p.noProgressByPhase[history] == 0)
      && (outcome == Repair && Gains(best, scores) ==> p.noProgressByPhase[history] == 0)
      && (outcome == Repair ==> (p.outcome == Repair <==>
            attempts < hardCap && (Gains(best, scores) || scores == map[] || p.noProgressByPhase[history] < 2)))
      && (outcome == Repair && p.outcome != Repair ==>
            var name := if kind == Coverage then "coverage" else "mutation";
            p.outcome == FailedFor(name + if attempts >= hardCap then "_repair_attempts_exhausted"
                                          else "_repair_no_progress"))
  {
    var history := HistoryPhase(kind, declared);
    var best := if history in state.bestScoresByPhase then state.bestScoresByPhase[history] else map[];
    GainsAreImprovements(best, scores);
    hide HistoryPhase, RepairPhase, Improved, Gains, Merged;
  }

  /** Phases without a kind, and outcomes that are neither a pass nor a repair, are passed through untouched. */
  method ApplyRepairProgress(phase: string, declaredKind: string, declared: string, state: CycleState,
                             outcome: PhaseOutcome, scores: Scores) returns (p: Projection)
    ensures JudgedKind(phase, declaredKind) == None || outcome !in {Passed, Repair} ==>
      p == Projection(outcome, state.bestScoresByPhase, state.noProgressByPhase)
    ensures JudgedKind(phase, declaredKind).Some? && outcome in {Passed, Repair} ==>
      IsJudged(JudgedKind(phase, declaredKind).value, declared, state, outcome, scores, p)
  {
    var judged := JudgedKind(phase, declaredKind);
    if judged == None || outcome !in {Passed, Repair} {
      return Projection(outcome, state.bestScoresByPhase, state.noProgressByPhase);
    }
    var kind := judged.value;
    var repairPhase, historyPhase := RepairPhase(kind, declared), HistoryPhase(kind, declared);
    hide JudgedKind, RepairPhase, HistoryPhase, Grants, Streak, Merged, KindName;
    var attempts := At(state.attemptsByPhase, repairPhase, 0);
    var hardCap := At(state.maxAttemptsByPhase, repairPhase, DEFAULT_HARD_CAP);
    var d := DecideRepairProgress(kind, scores, At(state.bestScoresByPhase, historyPhase, map[]), attempts, hardCap,
                                  At(state.noProgressByPhase, historyPhase, 0));
    var final := outcome;
    if outcome == Repair && !d.shouldRepair { final := FailedFor(d.failureReason); }
    p := Projection(final, state.bestScoresByPhase[historyPhase := d.best],
                    state.noProgressByPhase[historyPhase := if final == Passed then 0 else d.noProgressTurns]);
  }

  // ---- the loop ----

  datatype Loop = Loop(best: Scores, streak: nat, attempts: nat)

  /** The loop's state after the given measurements, each followed by a repair turn. */
  function AfterRounds(measured: seq<Scores>): Loop {
    if measured == [] then Loop(map[], 0, 0)
    else
      var s, m := AfterRounds(measured[..|measured| - 1]), measured[|measured| - 1];
      Loop(Merged(s.best, m), Streak(s.best, m, s.attempts, s.streak), s.attempts + 1)
  }

  /** Every one of the measurements was answered by granting a repair turn. */
  ghost predicate AllGranted(measured: seq<Scores>, hardCap: int) {
    forall k :: 0 <= k < |measured| ==>
      var s := AfterRounds(measured[..k]); Grants(s.best, measured[k], s.attempts, hardCap, s.streak)
  }

  lemma GrantedPrefix(measured: seq<Scores>, hardCap: int)
    requires measured != [] && AllGranted(measured, hardCap)
    ensures AllGranted(measured[..|measured| - 1], hardCap)
    ensures var s := AfterRounds(measured[..|measured| - 1]);
      Grants(s.best, measured[|measured| - 1], s.attempts, hardCap, s.streak)
  {
    var front := measured[..|measured| - 1];
    forall k | 0 <= k < |front|
      ensures var s := AfterRounds(front[..k]); Grants(s.best, front[k], s.attempts, hardCap, s.streak)
    {
      assert front[..k] == measured[..k];
    }
  }

  /** Granted rounds never exceed the ceiling. */
  lemma {:induction false} RoundsWithinCap(measured: seq<Scores>, hardCap: int)
    requires AllGranted(measured, hardCap)
    ensures AfterRounds(measured).attempts == |measured|
    ensures measured != [] ==> |measured| <= hardCap
  {
    if measured != [] {
      GrantedPrefix(measured, hardCap);
      RoundsWithinCap(measured[..|measured| - 1], hardCap);
    }
  }

  /** `best` is the pointwise maximum of the measurements. */
  ghost predicate IsPointwiseMax(best: Scores, measured: seq<Scores>) {
    forall t :: IsMaxAt(best, measured, t)
  }

  /** Target `t` has a best score exactly when it was measured, and that score is the largest of its scores. */
  ghost predicate IsMaxAt(best: Scores, measured: seq<Scores>, t: string) {
    if t in best then
      && (exists k :: 0 <= k < |measured| && t in measured[k] && measured[k][t] == best[t])
      && (forall k :: 0 <= k < |measured| && t in measured[k] ==> measured[k][t] <= best[t])
    else forall k :: 0 <= k < |measured| ==> t !in measured[k]
  }

  lemma MaxOfOneMore(best: Scores, front: seq<Scores>, m: Scores, t: string)
    requires IsMaxAt(best, front, t)
    ensures IsMaxAt(Merged(best, m), front + [m], t)
  {
    var measured, merged := front + [m], Merged(best, m);
    assert measured[|front|] == m && forall k :: 0 <= k < |front| ==> measured[k] == front[k];
    if t in merged {
      if t in m && merged[t] == m[t] {
        assert t in measured[|front|];
      } else {
        var k :| 0 <= k < |front| && t in front[k] && front[k][t] == best[t];
        assert t in measured[k];
      }
    }
  }

  lemma {:induction false} BestIsPointwiseMax(measured: seq<Scores>)
    ensures IsPointwiseMax(AfterRounds(measured).best, measured)
  {
    if measured != [] {
      var front, m := measured[..|measured| - 1], measured[|measured| - 1];
      BestIsPointwiseMax(front);
      assert measured == front + [m];
      hide IsMaxAt, Merged;
      forall t ensures IsMaxAt(AfterRounds(measured).best, measured, t) {
        MaxOfOneMore(AfterRounds(front).best, front, m, t);
      }
    }
  }

  // ---- what earns a round ----

  /** Some target scores more than 0.05 above all it scored before, or scores for the first time. */
  ghost predicate GainAt(measured: seq<Scores>, k: nat)
    requires k < |measured|
  {
    exists t :: t in measured[k] && AboveAllBefore(measured, k, t)
  }

  ghost predicate AboveAllBefore(measured: seq<Scores>, k: nat, t: string)
    requires k < |measured| && t in measured[k]
  {
    forall l :: 0 <= l < k && t in measured[l] ==> measured[k][t] > measured[l][t] + 0.05
  }

  /** There are scores, and none of them is a gain. */
  ghost predicate FlatAt(measured: seq<Scores>, k: nat)
    requires k < |measured|
  {
    measured[k] != map[] && !GainAt(measured, k)
  }

  lemma GainIsImprovement(measured: seq<Scores>, k: nat)
    requires k < |measured|
    ensures GainAt(measured, k) <==> Improved(AfterRounds(measured[..k]).best, measured[k]) != {}
  {
    var front, best, m := measured[..k], AfterRounds(measured[..k]).best, measured[k];
    BestIsPointwiseMax(front);
    hide AfterRounds;
    forall t | t in m ensures t in Improved(best, m) <==> AboveAllBefore(measured, k, t) {
      assert IsMaxAt(best, front, t);
      assert forall l :: 0 <= l < k ==> front[l] == measured[l];
    }
    if Improved(best, m) != {} {
      var t :| t in Improved(best, m);
    }
  }

  lemma RoundState(measured: seq<Scores>, k: nat)
    requires k < |measured|
    ensures var s, t := AfterRounds(measured[..k]), AfterRounds(measured[..k + 1]);
      && s.attempts == k && t.best == Merged(s.best, measured[k])
      && t.streak == Streak(s.best, measured[k], s.attempts, s.streak)
  {
    AttemptsAre(measured[..k]);
    assert measured[..k + 1][..k] == measured[..k] && measured[..k + 1][k] == measured[k];
  }

  lemma {:induction false} AttemptsAre(measured: seq<Scores>)
    ensures AfterRounds(measured).attempts == |measured|
  {
    if measured != [] { AttemptsAre(measured[..|measured| - 1]); }
  }

  /** A loop that keeps gaining is granted every round up to the ceiling, and none beyond. */
  lemma GainsAreGranted(measured: seq<Scores>, hardCap: int)
    requires forall k :: 0 <= k < |measured| ==> GainAt(measured, k)
    ensures AllGranted(measured, hardCap) <==> measured == [] || |measured| <= hardCap
  {
    forall k | 0 <= k < |measured|
      ensures var s := AfterRounds(measured[..k]);
        Grants(s.best, measured[k], s.attempts, hardCap, s.streak) <==> k < hardCap
    {
      RoundState(measured, k);
      GainIsImprovement(measured, k);
    }
    if measured != [] {
      var n := |measured| - 1;
      var s := AfterRounds(measured[..n]);
      assert Grants(s.best, measured[n], s.attempts, hardCap, s.streak) <==> n < hardCap;
    }
  }

  /** The first flat measurement after a gain is granted below the ceiling, ... */
  lemma FirstFlatGranted(measured: seq<Scores>, hardCap: int)
    requires 2 <= |measured| <= hardCap && AllGranted(measured[..|measured| - 1], hardCap)
    requires GainAt(measured, |measured| - 2) && FlatAt(measured, |measured| - 1)
    ensures AllGranted(measured, hardCap)
  {
    var n := |measured|;
    RoundState(measured, n - 2);
    RoundState(measured, n - 1);
    GainIsImprovement(measured, n - 2);
    hide Improved, AfterRounds, Merged;
    GrantedOneMore(measured, hardCap);
  }

  lemma GrantedOneMore(measured: seq<Scores>, hardCap: int)
    requires measured != [] && AllGranted(measured[..|measured| - 1], hardCap)
    requires var s := AfterRounds(measured[..|measured| - 1]);
      Grants(s.best, measured[|measured| - 1], s.attempts, hardCap, s.streak)
    ensures AllGranted(measured, hardCap)
  {
    hide Grants;
    var n := |measured| - 1;
    var front := measured[..n];
    forall k | 0 <= k < |measured|
      ensures var s := AfterRounds(measured[..k]); Grants(s.best, measured[k], s.attempts, hardCap, s.streak)
    {
      if k < n { assert front[..k] == measured[..k] && front[k] == measured[k]; }
    }
  }

  lemma FirstGains(measured: seq<Scores>)
    requires measured != [] && measured[0] != map[]
    ensures GainAt(measured, 0)
  {
    var t :| t in measured[0];
    assert AboveAllBefore(measured, 0, t);
  }

  /** ... and the second of two consecutive flat ones never. */
  lemma SecondFlatRefused(measured: seq<Scores>, hardCap: int)
    requires |measured| >= 2 && FlatAt(measured, |measured| - 2) && FlatAt(measured, |measured| - 1)
    ensures !AllGranted(measured, hardCap)
  {
    var n := |measured|;
    if n == 2 { FirstGains(measured); }
    RoundState(measured, n - 2);
    RoundState(measured, n - 1);
    GainIsImprovement(measured, n - 2);
    GainIsImprovement(measured, n - 1);
    var s := AfterRounds(measured[..n - 1]);
    assert !Grants(s.best, measured[n - 1], s.attempts, hardCap, s.streak);
  }

  // ---- why it stops ----

  /** What a target contributes: its best score and one noise margin for having one at all. */
  function Weight(best: Scores, target: string): real {
    if target in best then best[target] + IMPROVEMENT_EPSILON else 0.0
  }

  function Potential(best: Scores, targets: seq<string>): real {
    if targets == [] then 0.0 else Weight(best, targets[0]) + Potential(best, targets[1..])
  }

  ghost predicate ScoresWithin(scores: Scores, targets: seq<string>) {
    && (forall t :: t in scores ==> t in targets)
    && (forall t :: t in scores ==> 0.0 <= scores[t] <= 100.0)
  }

  lemma {:induction false} PotentialBounded(best: Scores, targets: seq<string>)
    requires forall t :: t in best ==> 0.0 <= best[t] <= 100.0
    ensures 0.0 <= Potential(best, targets) <= 100.05 * (|targets| as real)
  {
    if targets != [] { PotentialBounded(best, targets[1..]); }
  }

  lemma {:induction false} PotentialMonotone(best: Scores, scores: Scores, targets: seq<string>)
    requires forall t :: t in scores ==> 0.0 <= scores[t]
    ensures Potential(best, targets) <= Potential(Merged(best, scores), targets)
  {
    if targets != [] { PotentialMonotone(best, scores, targets[1..]); }
  }

  /** An improving measurement raises the potential by at least the noise margin. */
  lemma {:induction false} ImprovementRaises(best: Scores, scores: Scores, targets: seq<string>, t: string)
    requires forall x :: x in scores ==> 0.0 <= scores[x]
    requires t in targets && t in Improved(best, scores)
    ensures Potential(Merged(best, scores), targets) >= Potential(best, targets) + IMPROVEMENT_EPSILON
  {
    if targets[0] == t {
      PotentialMonotone(best, scores, targets[1..]);
    } else {
      ImprovementRaises(best, scores, targets[1..], t);
    }
  }

  function ImprovedRounds(measured: seq<Scores>): nat {
    if measured == [] then 0
    else
      var front := measured[..|measured| - 1];
      ImprovedRounds(front) + (if Improved(AfterRounds(front).best, measured[|measured| - 1]) != {} then 1 else 0)
  }

  ghost predicate Measurements(measured: seq<Scores>, targets: seq<string>) {
    forall k :: 0 <= k < |measured| ==> measured[k] != map[] && ScoresWithin(measured[k], targets)
  }

  lemma {:induction false} BestWithin(measured: seq<Scores>, targets: seq<string>)
    requires Measurements(measured, targets)
    ensures ScoresWithin(AfterRounds(measured).best, targets)
  {
    if measured != [] { BestWithin(measured[..|measured| - 1], targets); }
  }

  /** Improving rounds are paid for by the potential. */
  lemma {:induction false} ImprovedRoundsBounded(measured: seq<Scores>, targets: seq<string>)
    requires Measurements(measured, targets)
    ensures (ImprovedRounds(measured) as real) * IMPROVEMENT_EPSILON <= Potential(AfterRounds(measured).best, targets)
  {
    if measured == [] {
      PotentialBounded(map[], targets);
    } else {
      var front, m := measured[..|measured| - 1], measured[|measured| - 1];
      ImprovedRoundsBounded(front, targets);
      var best := AfterRounds(front).best;
      PotentialMonotone(best, m, targets);
      if Improved(best, m) != {} {
        var t :| t in Improved(best, m);
        ImprovementRaises(best, m, targets, t);
      }
    }
  }

  /** While rounds are granted no two flat measurements follow each other, so at most every second round is flat. */
  lemma {:induction false} FlatRoundsBounded(measured: seq<Scores>, targets: seq<string>, hardCap: int)
    requires Measurements(measured, targets) && AllGranted(measured, hardCap)
    ensures AfterRounds(measured).streak <= 1
    ensures measured != [] ==> |measured| <= 2 * ImprovedRounds(measured) - 1 + AfterRounds(measured).streak
  {
    if measured != [] {
      var front, m := measured[..|measured| - 1], measured[|measured| - 1];
      GrantedPrefix(measured, hardCap);
      FlatRoundsBounded(front, targets, hardCap);
      RoundsWithinCap(front, hardCap);
      var s := AfterRounds(front);
      assert m != map[];
      if front == [] {
        var t :| t in m;
        assert t in Improved(s.best, m);
      }
    }
  }

  /** With scores in [0, 100] over a finite set of targets and no empty measurement, the number of granted rounds
      is bounded by the number of targets alone, whatever the ceiling. */
  lemma LoopStops(measured: seq<Scores>, targets: seq<string>, hardCap: int)
    requires Measurements(measured, targets) && AllGranted(measured, hardCap)
    ensures |measured| <= 4002 * |targets|
  {
    ImprovedRoundsBounded(measured, targets);
    BestWithin(measured, targets);
    PotentialBounded(AfterRounds(measured).best, targets);
    FlatRoundsBounded(measured, targets, hardCap);
    var improved := ImprovedRounds(measured);
    assert (improved as real) <= 2001.0 * (|targets| as real);
    assert improved <= 2001 * |targets|;
  }

  /** Empty measurements are never refused before the ceiling: then only the ceiling ends the loop. */
  lemma {:induction false} OnlyCapStopsEmptyMeasurements(n: nat, hardCap: int)
    ensures AllGranted(seq(n, _ => map[]), hardCap) <==> n == 0 || n <= hardCap
  {
    var measured: seq<Scores> := seq(n, _ => map[]);
    forall k | 0 <= k < n
      ensures var s := AfterRounds(measured[..k]);
        Grants(s.best, measured[k], s.attempts, hardCap, s.streak) <==> k < hardCap
    {
      EmptyRounds(measured[..k]);
    }
    if n > 0 && AllGranted(measured, hardCap) {
      var s := AfterRounds(measured[..n - 1]);
      assert Grants(s.best, measured[n - 1], s.attempts, hardCap, s.streak);
    }
  }

  lemma {:induction false} EmptyRounds(measured: seq<Scores>)
    requires forall k :: 0 <= k < |measured| ==> measured[k] == map[]
    ensures AfterRounds(measured) == Loop(map[], 0, |measured|)
  {
    if measured != [] { EmptyRounds(measured[..|measured| - 1]); }
  }
}
