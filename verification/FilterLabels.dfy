/** What label a filter_scores row ends up with, and which steps can have written it
    (db/filter_scores.sql.go, services/filter_review.go, services/filter_feedback.go). */
module FilterLabels {
  import opened FilterRescue

  // ---------- A row the filter let pass ----------

  predicate Labels(step: Step) { step.Link? || step.LabelDeleted? }

  /** Step i is the first of the run that is about a task of the row. */
  ghost predicate LabelsFirst(steps: seq<Step>, i: nat) {
    i < |steps| && Labels(steps[i]) && forall j :: 0 <= j < i ==> !Labels(steps[j])
  }

  ghost predicate DeletedAfter(steps: seq<Step>, i: nat) { exists j :: i < j < |steps| && steps[j].LabelDeleted? }

  lemma PassStep(s: State, step: Step)
    requires s.verdict == Pass && Labelled(s) && Enabled(s, step)
    ensures Apply(s, step).verdict == Pass && Labelled(Apply(s, step))
    ensures !Labels(step) ==> Apply(s, step).outcome == s.outcome
  {
    StepKeepsLabels(s, step);
  }

  lemma {:induction false} SettledStays(s: State, steps: seq<Step>, t: State)
    requires Runs(s, steps, t) && s.verdict == Pass && Labelled(s) && s.outcome in {NoTask, DeletedNoise}
    ensures t.outcome == s.outcome
    decreases |steps|
  {
    if steps != [] {
      PassStep(s, steps[0]);
      SettledStays(Apply(s, steps[0]), steps[1..], t);
    }
  }

  lemma {:induction false} TaskStaysUnlessDeleted(s: State, steps: seq<Step>, t: State)
    requires Runs(s, steps, t) && s.verdict == Pass && Labelled(s) && s.outcome == Task
    ensures t.outcome == if exists j :: 0 <= j < |steps| && steps[j].LabelDeleted? then DeletedNoise else Task
    decreases |steps|
  {
    if steps != [] {
      var s1, rest := Apply(s, steps[0]), steps[1..];
      PassStep(s, steps[0]);
      assert forall j :: 0 <= j < |rest| ==> rest[j] == steps[j + 1];
      if steps[0].LabelDeleted? {
        SettledStays(s1, rest, t);
      } else {
        TaskStaysUnlessDeleted(s1, rest, t);
        assert forall j :: 0 < j < |steps| ==> steps[j] == rest[j - 1];
      }
    }
  }

  lemma AfterFirst(s: State, steps: seq<Step>, t: State)
    requires steps != [] && Runs(s, steps, t) && Labels(steps[0])
    requires s.verdict == Pass && s.outcome == Unlabelled && Labelled(s)
    ensures t.outcome == if steps[0].LabelDeleted? then DeletedNoise
                         else if !steps[0].created then NoTask
                         else if DeletedAfter(steps, 0) then DeletedNoise
                         else Task
  {
    var s1, rest := Apply(s, steps[0]), steps[1..];
    PassStep(s, steps[0]);
    if steps[0].Link? && steps[0].created {
      TaskStaysUnlessDeleted(s1, rest, t);
      assert forall j :: 0 <= j < |rest| ==> rest[j] == steps[j + 1];
      assert forall j :: 0 < j < |steps| ==> steps[j] == rest[j - 1];
    } else {
      SettledStays(s1, rest, t);
    }
  }

  lemma {:induction false} LabelIsFirst(s: State, steps: seq<Step>, t: State, i: nat)
    requires Runs(s, steps, t) && s.verdict == Pass && s.outcome == Unlabelled && Labelled(s)
    requires LabelsFirst(steps, i)
    ensures t.outcome == if steps[i].LabelDeleted? then DeletedNoise
                         else if !steps[i].created then NoTask
                         else if DeletedAfter(steps, i) then DeletedNoise
                         else Task
    decreases |steps|
  {
    if i == 0 {
      AfterFirst(s, steps, t);
    } else {
      var rest := steps[1..];
      PassStep(s, steps[0]);
      assert forall j :: 0 <= j < |rest| ==> rest[j] == steps[j + 1];
      LabelIsFirst(Apply(s, steps[0]), rest, t, i - 1);
      assert forall j :: 0 < j < |steps| ==> steps[j] == rest[j - 1];
    }
  }

  lemma {:induction false} UnlabelledStays(s: State, steps: seq<Step>, t: State)
    requires Runs(s, steps, t) && s.verdict == Pass && s.outcome == Unlabelled && Labelled(s)
    requires forall j :: 0 <= j < |steps| ==> !Labels(steps[j])
    ensures t.outcome == Unlabelled
    decreases |steps|
  {
    if steps != [] {
      PassStep(s, steps[0]);
      UnlabelledStays(Apply(s, steps[0]), steps[1..], t);
    }
  }

  /** Main result: over any run, a row that passed the filter carries what the first step about its task said: a
      deletion for good, no task for good, or a task until the first deletion; without one it has no label. */
  lemma PassedRowLabelIs(steps: seq<Step>, t: State)
    requires Runs(Init(Pass), steps, t)
    ensures (forall j :: 0 <= j < |steps| ==> !Labels(steps[j])) ==> t.outcome == Unlabelled
    ensures forall i: nat :: LabelsFirst(steps, i) ==>
      t.outcome == if steps[i].LabelDeleted? then DeletedNoise
                   else if !steps[i].created then NoTask
                   else if DeletedAfter(steps, i) then DeletedNoise
                   else Task
  {
    InitHolds(Pass);
    if forall j :: 0 <= j < |steps| ==> !Labels(steps[j]) { UnlabelledStays(Init(Pass), steps, t); }
    forall i: nat | LabelsFirst(steps, i)
      ensures t.outcome == if steps[i].LabelDeleted? then DeletedNoise
                           else if !steps[i].created then NoTask
                           else if DeletedAfter(steps, i) then DeletedNoise
                           else Task
    {
      LabelIsFirst(Init(Pass), steps, t, i);
    }
  }

  // ---------- A row the filter dropped ----------

  /** The step writes another label over `o`: a confirmation, a manual label, or the claim of a rescuer that
      loaded `o`. */
  predicate Writes(s: State, step: Step, o: Outcome) {
    || (step.Confirm? && o != ConfirmedNoise)
    || (step.LabelManual? && o != ManualMatch)
    || (step.Claim? && PhaseOf(s, step.a).Loaded? && PhaseOf(s, step.a).prev == o)
  }

  ghost predicate LabelledAlong(s: State, steps: seq<Step>, o: Outcome)
    decreases |steps|
  {
    s.outcome == o && (steps != [] && Enabled(s, steps[0]) ==> LabelledAlong(Apply(s, steps[0]), steps[1..], o))
  }

  ghost predicate NeverWrites(s: State, steps: seq<Step>, o: Outcome)
    decreases |steps|
  {
    steps != [] && Enabled(s, steps[0]) ==>
      !Writes(s, steps[0], o) && NeverWrites(Apply(s, steps[0]), steps[1..], o)
  }

  lemma StepKeepsLabelIff(s: State, step: Step)
    requires s.verdict == Noise && s.outcome != Rescued && Enabled(s, step)
    ensures Apply(s, step).verdict == Noise
    ensures Apply(s, step).outcome == s.outcome <==> !Writes(s, step, s.outcome)
  {
  }

  /** Main result: a label other than a rescue stays on a dropped row, in every state of a run, if and only if the
      run writes no other: restores of failed rescues, outdated claims and everything else leave it alone. */
  lemma {:induction false} LabelStaysIff(s: State, steps: seq<Step>, t: State, o: Outcome)
    requires Runs(s, steps, t) && s.verdict == Noise
    requires s.outcome == o != Rescued
    ensures LabelledAlong(s, steps, o) <==> NeverWrites(s, steps, o)
    decreases |steps|
  {
    if steps != [] {
      var s1 := Apply(s, steps[0]);
      StepKeepsLabelIff(s, steps[0]);
      if !Writes(s, steps[0], o) { LabelStaysIff(s1, steps[1..], t, o); }
    }
  }

  /** An actor has claimed as often as its phase says, and never more than three times. */
  ghost predicate Tries(s: State, a: Actor, n: nat) {
    match PhaseOf(s, a)
    case Trying(tries) => tries == n < 3
    case Loaded(prev, tries) => tries == n < 3
    case Extracting(prev) => 1 <= n <= 3
    case Reverting(prev) => 1 <= n <= 3
    case Contended => n == 3
    case DropSeen => n == 0
    case _ => n <= 3
  }

  lemma TriesAfter(s: State, step: Step, a: Actor, n: nat)
    requires Tries(s, a, n) && Enabled(s, step)
    ensures Tries(Apply(s, step), a, if step == Claim(a) then n + 1 else n)
  {
    if !ActsFor(step, a) { OthersKeepPhase(s, step, a); }
  }

  function Claims(steps: seq<Step>, a: Actor): nat {
    if steps == [] then 0 else (if steps[0] == Claim(a) then 1 else 0) + Claims(steps[1..], a)
  }

  lemma {:induction false} RunKeepsTries(s: State, steps: seq<Step>, t: State, a: Actor, n: nat)
    requires Runs(s, steps, t) && Tries(s, a, n)
    ensures Tries(t, a, n + Claims(steps, a))
    decreases |steps|
  {
    if steps != [] {
      TriesAfter(s, steps[0], a, n);
      RunKeepsTries(Apply(s, steps[0]), steps[1..], t, a, if steps[0] == Claim(a) then n + 1 else n);
    }
  }

  /** Main result: in any run a rescuer claims at most three times, and reports contention only after three claims
      that failed. */
  lemma ClaimsAreBounded(v: Verdict, steps: seq<Step>, t: State, a: Actor)
    requires Runs(Init(v), steps, t)
    ensures Claims(steps, a) <= 3
    ensures PhaseOf(t, a) == Contended ==> Claims(steps, a) == 3
    ensures PhaseOf(t, a).Loaded? ==> Claims(steps, a) == PhaseOf(t, a).tries < 3
  {
    RunKeepsTries(Init(v), steps, t, a, 0);
  }

  // ---------- What an actor went by ----------

  /** Step i of the run is `step`, and the row was a drop labelled `o` at that moment. */
  ghost predicate TakenAt(s: State, steps: seq<Step>, i: nat, step: Step, o: Outcome) {
    && i < |steps| && steps[i] == step
    && exists mid :: Runs(s, steps[..i], mid) && mid.verdict == Noise && mid.outcome == o
  }

  lemma TakenNow(s: State, steps: seq<Step>, o: Outcome)
    requires steps != [] && s.verdict == Noise && s.outcome == o
    ensures TakenAt(s, steps, 0, steps[0], o)
  {
    assert Runs(s, steps[..0], s);
  }

  lemma TakenLater(s: State, steps: seq<Step>, i: nat, step: Step, o: Outcome)
    requires steps != [] && Enabled(s, steps[0]) && TakenAt(Apply(s, steps[0]), steps[1..], i, step, o)
    ensures TakenAt(s, steps, i + 1, step, o)
  {
    var s1, rest := Apply(s, steps[0]), steps[1..];
    var mid :| Runs(s1, rest[..i], mid) && mid.verdict == Noise && mid.outcome == o;
    assert steps[..i + 1][1..] == rest[..i] && steps[..i + 1][0] == steps[0];
    assert Runs(s, steps[..i + 1], mid);
  }

  /** The step that brings an actor to one of these two phases, and the label it found. */
  function Cause(p: Phase, a: Actor): (Step, Outcome)
    requires p == DropSeen || p == AlreadyRescued
  {
    if p == DropSeen then (ListDrops(a), Unlabelled) else (Load(a), Rescued)
  }

  lemma {:induction false} PhaseHasCause(s: State, steps: seq<Step>, t: State, a: Actor, p: Phase)
    requires Runs(s, steps, t) && PhaseOf(t, a) == p && PhaseOf(s, a) != p
    requires p == DropSeen || p == AlreadyRescued
    ensures exists i: nat :: TakenAt(s, steps, i, Cause(p, a).0, Cause(p, a).1)
    decreases |steps|
  {
    var s1 := Apply(s, steps[0]);
    if PhaseOf(s1, a) == p {
      if !ActsFor(steps[0], a) { OthersKeepPhase(s, steps[0], a); }
      assert steps[0] == Cause(p, a).0 && s.verdict == Noise && s.outcome == Cause(p, a).1;
      TakenNow(s, steps, s.outcome);
      assert TakenAt(s, steps, 0, Cause(p, a).0, Cause(p, a).1);
    } else {
      PhaseHasCause(s1, steps[1..], t, a, p);
      var i: nat :| TakenAt(s1, steps[1..], i, Cause(p, a).0, Cause(p, a).1);
      TakenLater(s, steps, i, Cause(p, a).0, Cause(p, a).1);
    }
  }

  /** Main result: whoever writes a manual label had the row listed earlier in the run, when it was a drop without
      a label; nothing makes it look at the row again before it writes. */
  lemma ManualLabelFollowsListing(v: Verdict, steps: seq<Step>, t: State, a: Actor)
    requires Runs(Init(v), steps, t) && Enabled(t, LabelManual(a))
    ensures exists i: nat :: TakenAt(Init(v), steps, i, ListDrops(a), Unlabelled)
  {
    PhaseHasCause(Init(v), steps, t, a, DropSeen);
  }

  /** A rescuer answers that the row was rescued already only if it loaded the row when it was labelled so. */
  lemma AlreadyRescuedIsTrue(v: Verdict, steps: seq<Step>, t: State, a: Actor)
    requires Runs(Init(v), steps, t) && PhaseOf(t, a) == AlreadyRescued
    ensures exists i: nat :: TakenAt(Init(v), steps, i, Load(a), Rescued)
  {
    PhaseHasCause(Init(v), steps, t, a, AlreadyRescued);
  }

  /** A rescuer is turned away exactly from rows that passed the filter, and on loading a drop it remembers the label
      it found unless that is a rescue. */
  lemma LoadAnswers(s: State, a: Actor)
    requires PhaseOf(s, a).Trying?
    ensures var p := PhaseOf(Apply(s, Load(a)), a);
      && (p == NotADrop <==> s.verdict == Pass) && (p == AlreadyRescued <==> s.verdict == Noise && s.outcome == Rescued)
      && (p.Loaded? ==> p.prev == s.outcome)
  {
  }
}
