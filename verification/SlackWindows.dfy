/** How far back a Slack fetch reaches, from the cursors that were stored while its pass ran
    (scanner/scanner_slack.go): a message beyond the stored cursors is left before the window only when it lies past
    the 29-day cap. */
module SlackWindows {
  import opened SlackTime
  import opened SlackRuns

  /** At every moment of the run each of these users has a stored cursor of the channel. */
  ghost predicate CursorsThroughout(s: State, steps: seq<Step>, users: set<string>, chan: string)
    decreases |steps|
  {
    && (forall u :: u in users ==> Cursor(s.cursors, Pair(u, chan)) >= SECOND)
    && (steps != [] ==> CursorsThroughout(Apply(s, steps[0]), steps[1..], users, chan))
  }

  /** At every moment of the run the stored cursor is below `id`. */
  ghost predicate BelowThroughout(s: State, steps: seq<Step>, k: Pair, id: Ts)
    decreases |steps|
  {
    Cursor(s.cursors, k) < id && (steps != [] ==> BelowThroughout(Apply(s, steps[0]), steps[1..], k, id))
  }

  // ---------- What a pass has read ----------

  lemma ReadAfter(s: State, pass: Pass, step: Step)
    ensures PassAfter(s, pass, step).lastTS ==
              if step.ReadCursor? then pass.lastTS[step.k := Cursor(s.cursors, step.k)] else pass.lastTS
  {
  }

  /** What the step makes of the cursors that a pass has read: a pass that is new has read none. */
  lemma ReadsOf(s: State, step: Step, p: nat)
    requires Enabled(s, step) && p in Apply(s, step).passes
    ensures var after := Apply(s, step).passes[p].lastTS;
      || after == map[]
      || (p in s.passes && after == s.passes[p].lastTS)
      || (p in s.passes && step.ReadCursor? && step.p == p
          && after == s.passes[p].lastTS[step.k := Cursor(s.cursors, step.k)])
  {
    if OfPass(step) && step.p == p {
      ApplyOfPass(s, step);
      ReadAfter(s, s.passes[p], step);
    } else if p in s.passes {
      OtherPassUntouched(s, step, p);
    } else {
      NewPassIsFresh(s, step, p);
    }
  }

  ghost predicate ReadStored(s: State, p: nat, users: set<string>, chan: string) {
    p in s.passes ==> forall u :: u in users && Pair(u, chan) in s.passes[p].lastTS ==>
                        s.passes[p].lastTS[Pair(u, chan)] >= SECOND
  }

  lemma {:induction false} RunReadsStored(s: State, steps: seq<Step>, t: State, p: nat, users: set<string>,
                                          chan: string)
    requires Runs(s, steps, t) && CursorsThroughout(s, steps, users, chan) && ReadStored(s, p, users, chan)
    ensures ReadStored(t, p, users, chan)
    decreases |steps|
  {
    if steps != [] {
      if p in Apply(s, steps[0]).passes { ReadsOf(s, steps[0], p); }
      RunReadsStored(Apply(s, steps[0]), steps[1..], t, p, users, chan);
    }
  }

  ghost predicate ReadBelow(s: State, p: nat, k: Pair, id: Ts) {
    p in s.passes && k in s.passes[p].lastTS ==> s.passes[p].lastTS[k] < id
  }

  lemma {:induction false} RunReadsBelow(s: State, steps: seq<Step>, t: State, p: nat, k: Pair, id: Ts)
    requires Runs(s, steps, t) && BelowThroughout(s, steps, k, id) && ReadBelow(s, p, k, id)
    ensures ReadBelow(t, p, k, id)
    decreases |steps|
  {
    if steps != [] {
      if p in Apply(s, steps[0]).passes { ReadsOf(s, steps[0], p); }
      RunReadsBelow(Apply(s, steps[0]), steps[1..], t, p, k, id);
    }
  }

  // ---------- One fetch ----------

  /** A root message inside the cap that was beyond the user's stored cursor all along. */
  ghost predicate Beyond(s: State, steps: seq<Step>, t: State, u: string, chan: string, e: Entry) {
    e in Roots(t, chan) && e.id >= t.now - CATCH_UP_CAP && BelowThroughout(s, steps, Pair(u, chan), e.id)
  }

  /** Main result: when every user of a pass had a stored cursor from before its start up to the fetch, the fetch
      leaves before its window only what is past the cap, and it names every root message inside the cap that was
      beyond the stored cursor of some user all along. */
  lemma FetchReachesBack(s: State, steps: seq<Step>, t: State, p: nat, chan: string, min: Ts)
    requires Runs(s, steps, t) && p !in s.passes && Enabled(t, FetchPage(p, chan, min))
    requires CursorsThroughout(s, steps, t.passes[p].users, chan)
    ensures var after := Apply(t, FetchPage(p, chan, min));
      && (forall i :: i in after.excused && i !in t.excused ==> i.at.id < t.now - CATCH_UP_CAP)
      && (forall u, e :: u in t.passes[p].users && Beyond(s, steps, t, u, chan, e) ==> e in after.passes[p].snapshot)
  {
    var pass := t.passes[p];
    RunReadsStored(s, steps, t, p, pass.users, chan);
    ApplyOfPass(t, FetchPage(p, chan, min));
    if pass.users != {} {
      WindowBounds(min, t.now);
      forall u, e | u in pass.users && Beyond(s, steps, t, u, chan, e) ensures e in Page(t, chan, min) {
        RunReadsBelow(s, steps, t, p, Pair(u, chan), e.id);
      }
    }
  }

  // ---------- Whole runs ----------

  /** Whoever a pass scans has a stored cursor in every channel of the pass. */
  ghost predicate Stored(s: State) {
    forall p, u, c :: p in s.passes && u in s.passes[p].users && c in s.passes[p].chans ==>
      Cursor(s.cursors, Pair(u, c)) >= SECOND
  }

  ghost predicate StoredThroughout(s: State, steps: seq<Step>)
    decreases |steps|
  {
    Stored(s) && (steps != [] ==> StoredThroughout(Apply(s, steps[0]), steps[1..]))
  }

  ghost predicate AllReadStored(s: State) {
    forall p, k :: p in s.passes && k in s.passes[p].lastTS ==> s.passes[p].lastTS[k] >= SECOND
  }

  lemma StepReadsStored(s: State, step: Step)
    requires Stored(s) && AllReadStored(s) && Enabled(s, step)
    ensures AllReadStored(Apply(s, step))
  {
    forall p, k | p in Apply(s, step).passes && k in Apply(s, step).passes[p].lastTS
      ensures Apply(s, step).passes[p].lastTS[k] >= SECOND
    {
      ReadsOf(s, step, p);
      if step.ReadCursor? && step.p == p { assert step.k == Pair(step.k.user, step.k.chan); }
    }
  }

  lemma StepExcusesPastCap(s: State, step: Step)
    requires AllReadStored(s) && Enabled(s, step)
    ensures forall i :: i in Apply(s, step).excused && i !in s.excused ==> i.at.id < s.now - CATCH_UP_CAP
  {
    if OfPass(step) { ApplyOfPass(s, step); }
    if step.FetchPage? && s.passes[step.p].users != {} { WindowBounds(step.min, s.now); }
  }

  lemma {:induction false} RunExcusesPastCap(s: State, steps: seq<Step>, t: State)
    requires AllReadStored(s) && Runs(s, steps, t) && StoredThroughout(s, steps)
    ensures s.now <= t.now
    ensures forall i :: i in t.excused && i !in s.excused ==> i.at.id < t.now - CATCH_UP_CAP
    decreases |steps|
  {
    if steps != [] {
      var u := Apply(s, steps[0]);
      StepReadsStored(s, steps[0]);
      StepExcusesPastCap(s, steps[0]);
      ClockGoesOn(s, steps[0]);
      RunExcusesPastCap(u, steps[1..], t);
    }
  }

  lemma ClockGoesOn(s: State, step: Step)
    ensures s.now <= Apply(s, step).now
  {
  }

  /** Main result: once every user has a stored cursor, nothing inside the 29-day cap is lost: in clean runs a root
      message at or below a stored cursor is done, unless it was left behind before that or is past the cap. */
  lemma NoLossInsideCap(now: Micros, before: seq<Step>, s: State, steps: seq<Step>, t: State, k: Pair, e: Entry)
    requires Runs(Init(now), before, s) && s.passes == map[] && Runs(s, steps, t) && StoredThroughout(s, steps)
    requires CleanRun(Init(now), before) && CleanRun(s, steps)
    requires e in t.log && e.chan == k.chan && !e.reply
    requires e.id <= Cursor(t.cursors, k) || e.id <= Cursor(t.persisted, k)
    ensures e.id >= t.now - CATCH_UP_CAP && Item(k.user, e) !in s.excused ==> Item(k.user, e) in t.done
  {
    RunKeeps(Init(now), before, s);
    RunKeeps(s, steps, t);
    RunExcusesPastCap(s, steps, t);
    if e.id <= Cursor(t.cursors, k) && k in t.cursors {
      assert Covers(t, k, t.cursors[k]);
    } else if k in t.persisted {
      assert Covers(t, k, t.persisted[k]);
    }
  }
}
