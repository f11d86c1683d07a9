/** Claiming a filtered-out row for rescue (db/filter_scores.sql.go, services/filter_review.go):
    any number of rescuers, confirmers and labellers act on one filter_scores row, one SQL
    statement at a time. */
module FilterRescue {

  datatype Verdict = Pass | Noise

  datatype Outcome = Unlabelled | Task | NoTask | DeletedNoise | Rescued | ConfirmedNoise | ManualMatch

  const CLAIM_ATTEMPTS: nat := 3

  type Actor = nat

  /** Where one actor stands. A rescuer loads the row, claims it against the outcome it loaded (up
      to three times), extracts, and reverts its claim when extraction failed. */
  datatype Phase =
    | Trying(tries: nat)
    | Loaded(prev: Outcome, tries: nat)
    | Extracting(prev: Outcome)
    | Reverting(prev: Outcome)
    | Succeeded
    | GaveUp
    | AlreadyRescued
    | Contended
    | NotADrop
    | DropSeen

  datatype State = State(verdict: Verdict, outcome: Outcome, phases: map<Actor, Phase>)

  function PhaseOf(s: State, a: Actor): Phase { if a in s.phases then s.phases[a] else Trying(0) }

  datatype Step =
    | Load(a: Actor)
    | Claim(a: Actor)
    | Extract(a: Actor, ok: bool)
    | Restore(a: Actor, lands: bool)
    | Confirm
    | Link(created: bool)
    | LabelDeleted
    | ListDrops(a: Actor)
    | LabelManual(a: Actor)

  predicate Enabled(s: State, step: Step) {
    match step
    case Load(a) => PhaseOf(s, a).Trying?
    case Claim(a) => PhaseOf(s, a).Loaded?
    case Extract(a, ok) => PhaseOf(s, a).Extracting?
    case Restore(a, lands) => PhaseOf(s, a).Reverting?
    case ListDrops(a) => PhaseOf(s, a) == Trying(0)
    case LabelManual(a) => PhaseOf(s, a).DropSeen?
    case _ => true
  }

  // ---------- The statements ----------

  /** ClaimFilterRescue with the number of affected rows. */
  function ClaimFilterRescue(s: State, prev: Outcome): (State, nat) {
    if s.verdict == Noise && s.outcome != Rescued && s.outcome == prev then (s.(outcome := Rescued), 1) else (s, 0)
  }

  function RestoreFilterOutcome(s: State, prev: Outcome): State {
    if s.outcome == Rescued then s.(outcome := prev) else s
  }

  function ConfirmFilterNoise(s: State): State {
    if s.verdict == Noise && s.outcome != Rescued then s.(outcome := ConfirmedNoise) else s
  }

  function LinkFilterOutcome(s: State, created: bool): State {
    if s.verdict == Pass && s.outcome == Unlabelled then s.(outcome := if created then Task else NoTask) else s
  }

  function LabelDeletedFilterScore(s: State): State {
    if s.verdict == Pass && (s.outcome == Unlabelled || s.outcome == Task) then s.(outcome := DeletedNoise) else s
  }

  /** SetFilterOutcome has no guard on the current outcome. */
  function SetFilterOutcome(s: State, outcome: Outcome): State { s.(outcome := outcome) }

  function Apply(s: State, step: Step): State
    requires Enabled(s, step)
  {
    match step
    case Load(a) =>
      var n := PhaseOf(s, a).tries;
      s.(phases := s.phases[a :=
        if s.verdict != Noise then NotADrop
        else if s.outcome == Rescued then AlreadyRescued
        else Loaded(s.outcome, n)])
    case Claim(a) =>
      var p := PhaseOf(s, a);
      var (t, affected) := ClaimFilterRescue(s, p.prev);
      t.(phases := s.phases[a :=
        if affected > 0 then Extracting(p.prev)
        else if p.tries + 1 < CLAIM_ATTEMPTS then Trying(p.tries + 1)
        else Contended])
    case Extract(a, ok) =>
      s.(phases := s.phases[a := if ok then Succeeded else Reverting(PhaseOf(s, a).prev)])
    case Restore(a, lands) =>
      (if lands then RestoreFilterOutcome(s, PhaseOf(s, a).prev) else s).(phases := s.phases[a := GaveUp])
    case Confirm => ConfirmFilterNoise(s)
    case Link(created) => LinkFilterOutcome(s, created)
    case LabelDeleted => LabelDeletedFilterScore(s)
    case ListDrops(a) =>
      if s.verdict == Noise && s.outcome == Unlabelled then s.(phases := s.phases[a := DropSeen]) else s
    case LabelManual(a) => SetFilterOutcome(s, ManualMatch).(phases := s.phases[a := GaveUp])
  }

  // ---------- Exclusion ----------

  /** The actor's claim is in force: between claim and restore, or rescued for good. */
  predicate Owns(s: State, a: Actor) {
    var p := PhaseOf(s, a); p.Extracting? || p.Reverting? || p.Succeeded?
  }

  predicate LabelFits(v: Verdict, o: Outcome) {
    match v
    case Pass => o in {Unlabelled, Task, NoTask, DeletedNoise}
    case Noise => o in {Unlabelled, Rescued, ConfirmedNoise, ManualMatch}
  }

  ghost predicate Exclusive(s: State) {
    && (forall a :: Owns(s, a) ==> s.verdict == Noise && s.outcome == Rescued)
    && (forall a, b :: Owns(s, a) && Owns(s, b) ==> a == b)
  }

  ghost predicate Inv(s: State) { Exclusive(s) && Labelled(s) }

  /** Labels, remembered labels and listed drops fit the verdict. */
  ghost predicate Labelled(s: State) {
    && LabelFits(s.verdict, s.outcome)
    && (forall a :: PhaseOf(s, a).Loaded? || PhaseOf(s, a).Extracting? || PhaseOf(s, a).Reverting? ==>
          var prev := PhaseOf(s, a).prev; s.verdict == Noise && prev != Rescued && LabelFits(Noise, prev))
    && (forall a :: PhaseOf(s, a).DropSeen? ==> s.verdict == Noise)
  }

  function Init(v: Verdict): State { State(v, Unlabelled, map[]) }

  lemma InitHolds(v: Verdict)
    ensures Inv(Init(v))
  {
  }

  /** The one step that breaks exclusion: a manual label written over a claim in force. */
  ghost predicate OverwritesClaim(s: State, step: Step) { step.LabelManual? && exists a :: Owns(s, a) }

  predicate ActsFor(step: Step, a: Actor) {
    && (step.Load? || step.Claim? || step.Extract? || step.Restore? || step.ListDrops? || step.LabelManual?)
    && step.a == a
  }

  lemma OthersKeepPhase(s: State, step: Step, a: Actor)
    requires Enabled(s, step) && !ActsFor(step, a)
    ensures PhaseOf(Apply(s, step), a) == PhaseOf(s, a)
  {
  }

  lemma OwnedRowStaysClaimed(s: State, step: Step, x: Actor)
    requires Inv(s) && Enabled(s, step) && !OverwritesClaim(s, step) && Owns(Apply(s, step), x)
    ensures Apply(s, step).verdict == Noise && Apply(s, step).outcome == Rescued
  {
    var restorer := if step.Restore? then step.a else x;
    assert step.Restore? ==> Owns(s, restorer) && !Owns(Apply(s, step), restorer);
    OwnersComeFromOwners(s, step, x);
  }

  lemma StepKeepsLabels(s: State, step: Step)
    requires Labelled(s) && Enabled(s, step)
    ensures Labelled(Apply(s, step))
  {
    var t := Apply(s, step);
    forall x
      ensures PhaseOf(t, x).DropSeen? ==> t.verdict == Noise
      ensures PhaseOf(t, x).Loaded? || PhaseOf(t, x).Extracting? || PhaseOf(t, x).Reverting? ==>
                var prev := PhaseOf(t, x).prev; t.verdict == Noise && prev != Rescued && LabelFits(Noise, prev)
    {
      if !ActsFor(step, x) { OthersKeepPhase(s, step, x); }
    }
  }

  lemma StepKeepsInv(s: State, step: Step)
    requires Inv(s) && Enabled(s, step) && !OverwritesClaim(s, step)
    ensures Inv(Apply(s, step))
  {
    var t := Apply(s, step);
    StepKeepsLabels(s, step);
    forall x | Owns(t, x) ensures t.verdict == Noise && t.outcome == Rescued {
      OwnedRowStaysClaimed(s, step, x);
    }
    forall x, y | Owns(t, x) && Owns(t, y) ensures x == y {
      OwnersComeFromOwners(s, step, x);
      OwnersComeFromOwners(s, step, y);
    }
  }

  /** A new owner can only be the actor whose claim went through, and then nobody owned before. */
  lemma OwnersComeFromOwners(s: State, step: Step, x: Actor)
    requires Inv(s) && Enabled(s, step) && Owns(Apply(s, step), x)
    ensures Owns(s, x) || (step == Claim(x) && forall y :: !Owns(s, y))
  {
    if !ActsFor(step, x) { OthersKeepPhase(s, step, x); }
  }

  lemma OverwriteEndsExclusion(s: State, step: Step)
    requires Inv(s) && Enabled(s, step) && OverwritesClaim(s, step)
    ensures !Exclusive(Apply(s, step))
  {
    var a :| Owns(s, a);
    OthersKeepPhase(s, step, a);
    assert Owns(Apply(s, step), a) && Apply(s, step).outcome == ManualMatch;
  }

  /** Main result, step by step: exclusion survives a step exactly if that step is not a manual
      label landing on a claim in force. */
  lemma StepKeepsInvIff(s: State, step: Step)
    requires Inv(s) && Enabled(s, step)
    ensures Inv(Apply(s, step)) <==> !OverwritesClaim(s, step)
  {
    if OverwritesClaim(s, step) {
      OverwriteEndsExclusion(s, step);
    } else {
      StepKeepsInv(s, step);
    }
  }

  // ---------- Runs ----------

  ghost predicate Runs(s: State, steps: seq<Step>, t: State)
    decreases |steps|
  {
    if steps == [] then s == t
    else Enabled(s, steps[0]) && Runs(Apply(s, steps[0]), steps[1..], t)
  }

  ghost predicate NeverOverwrites(s: State, steps: seq<Step>)
    decreases |steps|
  {
    steps != [] && Enabled(s, steps[0]) ==>
      !OverwritesClaim(s, steps[0]) && NeverOverwrites(Apply(s, steps[0]), steps[1..])
  }

  lemma {:induction false} RunKeepsInv(s: State, steps: seq<Step>, t: State)
    requires Inv(s) && Runs(s, steps, t) && NeverOverwrites(s, steps)
    ensures Inv(t)
    decreases |steps|
  {
    if steps != [] {
      StepKeepsInv(s, steps[0]);
      RunKeepsInv(Apply(s, steps[0]), steps[1..], t);
    }
  }

  /** Exclusion holds in every state of the run. */
  ghost predicate ExclusiveAlong(s: State, steps: seq<Step>)
    decreases |steps|
  {
    Exclusive(s) && (steps != [] && Enabled(s, steps[0]) ==> ExclusiveAlong(Apply(s, steps[0]), steps[1..]))
  }

  /** Main result: exclusion holds all along a run if and only if no manual label of the run lands on a claim in
      force. */
  lemma {:induction false} ExclusiveAlongIff(s: State, steps: seq<Step>, t: State)
    requires Inv(s) && Runs(s, steps, t)
    ensures ExclusiveAlong(s, steps) <==> NeverOverwrites(s, steps)
    decreases |steps|
  {
    if steps != [] {
      StepKeepsInvIff(s, steps[0]);
      if OverwritesClaim(s, steps[0]) {
        OverwriteEndsExclusion(s, steps[0]);
      } else {
        ExclusiveAlongIff(Apply(s, steps[0]), steps[1..], t);
      }
    }
  }

  function Owners(s: State): set<Actor> { set a | a in s.phases && Owns(s, a) }

  /** How many manual labels of the run land on a claim in force. */
  ghost function Overwrites(s: State, steps: seq<Step>): nat
    decreases |steps|
  {
    if steps == [] || !Enabled(s, steps[0]) then 0
    else (if OverwritesClaim(s, steps[0]) then 1 else 0) + Overwrites(Apply(s, steps[0]), steps[1..])
  }

  /** The owners beyond the one that the label accounts for. */
  function Surplus(s: State): int { |Owners(s)| - if s.outcome == Rescued then 1 else 0 }

  lemma OwnersAfter(s: State, step: Step)
    requires Enabled(s, step)
    ensures var t := Apply(s, step);
            if step.Claim? && Owns(t, step.a) then Owners(t) == Owners(s) + {step.a} && s.outcome != Rescued
            else if step.Restore? then Owners(t) == Owners(s) - {step.a} && step.a in Owners(s)
            else Owners(t) == Owners(s)
  {
    var t := Apply(s, step);
    forall x | !ActsFor(step, x) ensures x in Owners(t) <==> x in Owners(s) { OthersKeepPhase(s, step, x); }
  }

  lemma SurplusGrows(s: State, step: Step)
    requires Enabled(s, step)
    ensures Surplus(Apply(s, step)) <= Surplus(s) + (if OverwritesClaim(s, step) then 1 else 0)
         || Surplus(Apply(s, step)) <= 0
  {
    OwnersAfter(s, step);
    if step.LabelManual? && Owners(s) != {} {
      var a :| a in Owners(s);
      assert Owns(s, a);
    }
  }

  lemma {:induction false} SurplusIsBounded(s: State, steps: seq<Step>, t: State)
    requires Runs(s, steps, t)
    ensures Surplus(t) <= (if Surplus(s) < 0 then 0 else Surplus(s)) + Overwrites(s, steps)
    decreases |steps|
  {
    if steps != [] {
      SurplusGrows(s, steps[0]);
      SurplusIsBounded(Apply(s, steps[0]), steps[1..], t);
    }
  }

  lemma {:induction false} RunKeepsLabels(s: State, steps: seq<Step>, t: State)
    requires Labelled(s) && Runs(s, steps, t)
    ensures Labelled(t)
    decreases |steps|
  {
    if steps != [] {
      StepKeepsLabels(s, steps[0]);
      RunKeepsLabels(Apply(s, steps[0]), steps[1..], t);
    }
  }

  /** Main result: over any run, with any number of actors, the rescuers that hold the row or succeeded are at most
      as many as the manual labels that landed on a claim, and one more while the row is labelled rescued; labels
      of passed and dropped rows never mix. */
  lemma RescuesAreBounded(v: Verdict, steps: seq<Step>, t: State)
    requires Runs(Init(v), steps, t)
    ensures |Owners(t)| <= Overwrites(Init(v), steps) + if t.outcome == Rescued then 1 else 0
    ensures LabelFits(t.verdict, t.outcome)
  {
    InitHolds(v);
    assert Owners(Init(v)) == {};
    SurplusIsBounded(Init(v), steps, t);
    RunKeepsLabels(Init(v), steps, t);
  }

  /** So without such a label at most one rescuer holds the row at a time and at most one rescue ever succeeds. */
  lemma AtMostOneRescue(v: Verdict, steps: seq<Step>, t: State, a: Actor, b: Actor)
    requires Runs(Init(v), steps, t)
    ensures NeverOverwrites(Init(v), steps) && Owns(t, a) && Owns(t, b) ==> a == b && t.outcome == Rescued
    ensures LabelFits(t.verdict, t.outcome)
  {
    InitHolds(v);
    RescuesAreBounded(v, steps, t);
    if NeverOverwrites(Init(v), steps) { RunKeepsInv(Init(v), steps, t); }
  }

  ghost predicate RescuedAlong(s: State, steps: seq<Step>)
    decreases |steps|
  {
    s.outcome == Rescued && (steps != [] && Enabled(s, steps[0]) ==> RescuedAlong(Apply(s, steps[0]), steps[1..]))
  }

  /** Main result: a rescue that succeeded never loses the row to claims, restores, confirmations or deletions:
      the row stays rescued all along if and only if no manual label is written. */
  lemma {:induction false} SuccessIsFinalIff(s: State, steps: seq<Step>, t: State, a: Actor)
    requires Inv(s) && Runs(s, steps, t) && PhaseOf(s, a).Succeeded?
    ensures PhaseOf(t, a).Succeeded?
    ensures RescuedAlong(s, steps) <==> forall i :: 0 <= i < |steps| ==> !steps[i].LabelManual?
    ensures RescuedAlong(s, steps) ==> t.outcome == Rescued
    decreases |steps|
  {
    assert Owns(s, a);
    if steps != [] {
      var s1, rest := Apply(s, steps[0]), steps[1..];
      EndedStaysEnded(s, a, steps, t);
      if steps[0].LabelManual? {
        assert s1.outcome == ManualMatch;
      } else {
        StepKeepsInv(s, steps[0]);
        OthersKeepPhase(s, steps[0], a);
        SuccessIsFinalIff(s1, rest, t, a);
        assert forall i :: 0 <= i < |rest| ==> rest[i] == steps[i + 1];
        assert forall i :: 0 < i < |steps| ==> steps[i] == rest[i - 1];
      }
    }
  }

  /** A restore never writes anything but the label its own claim replaced. Between the claim and the restore
      nothing else changes the row unless a manual label lands on a claim, so the restore undoes the claim. */
  lemma {:induction false} RestoreUndoesOwnClaim(s: State, a: Actor, steps: seq<Step>, t: State)
    requires Inv(s) && Enabled(s, Claim(a)) && Owns(Apply(s, Claim(a)), a)
    requires Runs(Apply(s, Claim(a)), steps, t) && PhaseOf(t, a).Reverting?
    ensures Apply(t, Restore(a, true)).outcome in {t.outcome, s.outcome}
    ensures NeverOverwrites(Apply(s, Claim(a)), steps) ==>
              t.outcome == Rescued && Apply(t, Restore(a, true)).outcome == s.outcome
  {
    var s1 := Apply(s, Claim(a));
    StepKeepsInv(s, Claim(a));
    OwnerKeepsLabel(s1, a, steps, t);
    if NeverOverwrites(s1, steps) {
      RunKeepsInv(s1, steps, t);
      assert Owns(t, a);
    }
  }

  lemma {:induction false} OwnerKeepsLabel(s: State, a: Actor, steps: seq<Step>, t: State)
    requires Runs(s, steps, t) && PhaseOf(t, a).Reverting?
    requires PhaseOf(s, a).Extracting? || PhaseOf(s, a).Reverting?
    ensures PhaseOf(t, a).prev == PhaseOf(s, a).prev
    decreases |steps|
  {
    if steps != [] {
      var s1 := Apply(s, steps[0]);
      if PhaseOf(s1, a).Extracting? || PhaseOf(s1, a).Reverting? {
        OwnerKeepsLabel(s1, a, steps[1..], t);
      } else {
        EndedStaysEnded(s1, a, steps[1..], t);
      }
    }
  }

  lemma {:induction false} EndedStaysEnded(s: State, a: Actor, steps: seq<Step>, t: State)
    requires Runs(s, steps, t) && (PhaseOf(s, a).Succeeded? || PhaseOf(s, a).GaveUp?)
    ensures PhaseOf(t, a) == PhaseOf(s, a)
    decreases |steps|
  {
    if steps != [] {
      OthersKeepPhase(s, steps[0], a);
      EndedStaysEnded(Apply(s, steps[0]), a, steps[1..], t);
    }
  }

  /** Confirming never overwrites a claim, and a confirmation that lands between a rescuer's load
      and its claim makes the claim fail instead of being lost. */
  lemma ConfirmAndClaimRespectEachOther(s: State, a: Actor)
    requires Inv(s) && PhaseOf(s, a).Loaded? && PhaseOf(s, a).prev != ConfirmedNoise
    ensures s.outcome == Rescued ==> Apply(s, Confirm) == s
    ensures s.outcome != Rescued ==>
              var t := Apply(Apply(s, Confirm), Claim(a)); t.outcome == ConfirmedNoise && !Owns(t, a)
  {
  }

  // ---------- The manual label ----------

  /** The exclusion fails of the code: a manual label chosen from a list read before the claim
      overwrites it, and a second rescuer extracts the same row. */
  lemma ManualLabelAllowsTwoRescues() returns (steps: seq<Step>, t: State)
    ensures Runs(Init(Noise), steps, t)
    ensures PhaseOf(t, 1).Succeeded? && PhaseOf(t, 2).Succeeded?
  {
    var steps1, s := FirstClaimIsOverwritten();
    var steps2, u := SecondClaimGoesThrough(s);
    steps, t := steps1 + steps2, u;
    RunsOn(Init(Noise), steps1, s, steps2, t);
  }

  lemma FirstClaimIsOverwritten() returns (steps: seq<Step>, s: State)
    ensures Runs(Init(Noise), steps, s)
    ensures s == State(Noise, ManualMatch, map[0 := GaveUp, 1 := Extracting(Unlabelled)])
  {
    steps := [ListDrops(0), Load(1), Claim(1), LabelManual(0)];
    var s1 := State(Noise, Unlabelled, map[0 := DropSeen]);
    var s2 := State(Noise, Unlabelled, map[0 := DropSeen, 1 := Loaded(Unlabelled, 0)]);
    var s3 := State(Noise, Rescued, map[0 := DropSeen, 1 := Extracting(Unlabelled)]);
    s := State(Noise, ManualMatch, map[0 := GaveUp, 1 := Extracting(Unlabelled)]);
    Chain(Init(Noise), steps, [s1, s2, s3, s]);
  }

  lemma SecondClaimGoesThrough(s: State) returns (steps: seq<Step>, t: State)
    requires s == State(Noise, ManualMatch, map[0 := GaveUp, 1 := Extracting(Unlabelled)])
    ensures Runs(s, steps, t) && PhaseOf(t, 1).Succeeded? && PhaseOf(t, 2).Succeeded?
  {
    steps := [Load(2), Claim(2), Extract(1, true), Extract(2, true)];
    var s5 := Apply(s, Load(2));
    var s6 := Apply(s5, Claim(2));
    var s7 := Apply(s6, Extract(1, true));
    t := Apply(s7, Extract(2, true));
    Chain(s, steps, [s5, s6, s7, t]);
  }

  lemma {:induction false} RunsOn(s: State, a: seq<Step>, t: State, b: seq<Step>, u: State)
    requires Runs(s, a, t) && Runs(t, b, u)
    ensures Runs(s, a + b, u)
    decreases |a|
  {
    if a == [] {
      assert a + b == b;
    } else {
      RunsOn(Apply(s, a[0]), a[1..], t, b, u);
      assert (a + b)[1..] == a[1..] + b;
    }
  }

  lemma {:induction false} Chain(s: State, steps: seq<Step>, states: seq<State>)
    requires |steps| == |states| && |steps| > 0
    requires Enabled(s, steps[0]) && states[0] == Apply(s, steps[0])
    requires forall i ::
      0 < i < |steps| ==> Enabled(states[i - 1], steps[i]) && states[i] == Apply(states[i - 1], steps[i])
    ensures Runs(s, steps, states[|states| - 1])
    decreases |steps|
  {
    if |steps| > 1 { Chain(states[0], steps[1..], states[1..]); }
  }
}
