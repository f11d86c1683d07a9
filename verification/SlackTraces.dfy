/** What a Slack pass may commit and stamp, what is done and what a restart brings back, said of the steps of the run
    alone (scanner/scanner_slack.go, scanner/scanner_slack_cursor.go). */
module SlackTraces {
  import opened SlackTime
  import opened SlackRuns

  ghost predicate NoRestart(steps: seq<Step>) { Restart !in steps }

  ghost predicate Fresh(s: State, p: nat) {
    p in s.passes && s.passes[p] == NewPass(s.passes[p].users, s.passes[p].chans)
  }

  lemma FirstAndRest(steps: seq<Step>)
    requires steps != []
    ensures forall step :: step in steps <==> step == steps[0] || step in steps[1..]
  {
    assert steps == [steps[0]] + steps[1..];
  }

  lemma PassStep(s: State, step: Step, p: nat)
    requires Enabled(s, step) && p in s.passes && step != Restart
    ensures p in Apply(s, step).passes
    ensures Apply(s, step).passes[p] == if OfPass(step) && step.p == p then PassAfter(s, s.passes[p], step)
                                        else s.passes[p]
  {
    if OfPass(step) {
      ApplyOfPass(s, step);
    } else {
      OtherPassUntouched(s, step, p);
    }
  }

  // ---------- The books of a pass, field by field ----------

  /** A group of the pass with a candidate of the pair was acknowledged as failed. */
  predicate Fails(step: Step, p: nat, k: Pair) {
    step.Ack? && step.p == p && !step.ok && exists i :: i in step.group && PairOf(i) == k
  }

  ghost predicate Failed(steps: seq<Step>, p: nat, k: Pair) { exists step :: step in steps && Fails(step, p, k) }

  lemma HeldStep(s: State, step: Step, p: nat, k: Pair)
    requires Enabled(s, step) && p in s.passes && step != Restart
    ensures p in Apply(s, step).passes
    ensures k in Apply(s, step).passes[p].held <==> k in s.passes[p].held || Fails(step, p, k)
  {
    PassStep(s, step, p);
  }

  lemma {:induction false} HeldIff(s: State, steps: seq<Step>, t: State, p: nat, k: Pair)
    requires Runs(s, steps, t) && NoRestart(steps) && p in s.passes
    ensures p in t.passes && (k in t.passes[p].held <==> k in s.passes[p].held || Failed(steps, p, k))
    decreases |steps|
  {
    if steps != [] {
      FirstAndRest(steps);
      HeldStep(s, steps[0], p, k);
      HeldIff(Apply(s, steps[0]), steps[1..], t, p, k);
    }
  }

  ghost predicate ListingFailed(steps: seq<Step>, p: nat) { exists c :: FetchFails(p, c) in steps }

  lemma EndAfter(s: State, was: Pass, step: Step)
    ensures var after := PassAfter(s, was, step);
      && (after.closed <==> was.closed || step.Close?)
      && (after.committing <==> if step.Close? then !was.expired else was.committing)
  {
    if step.Classify? {
    } else if step.Close? {
    } else {
    }
  }

  lemma ExpiredAfter(s: State, was: Pass, step: Step)
    ensures PassAfter(s, was, step).users == was.users
    ensures PassAfter(s, was, step).expired <==> was.expired || step.Expire?
  {
    if step.Classify? {
    } else if step.Expire? {
    } else {
    }
  }

  lemma FailedAfter(s: State, was: Pass, step: Step)
    ensures PassAfter(s, was, step).failed == if step.FetchFails? then was.failed + {step.chan} else was.failed
  {
    if step.Classify? {
    } else if step.FetchFails? {
    } else {
    }
  }

  lemma WrittenAfter(s: State, was: Pass, step: Step)
    ensures var after := PassAfter(s, was, step);
      && after.committed == (if step.Commit? then was.committed + {step.k} else was.committed)
      && after.stamped == (if step.MarkSuccess? then was.stamped + {step.user} else was.stamped)
  {
    if step.Classify? {
    } else if step.Commit? {
    } else if step.MarkSuccess? {
    } else {
    }
  }

  lemma FlagStep(s: State, step: Step, p: nat)
    requires Enabled(s, step) && p in s.passes && step != Restart
    ensures p in Apply(s, step).passes
    ensures var was, after := s.passes[p], Apply(s, step).passes[p];
      && after.users == was.users && (after.expired <==> was.expired || step == Expire(p))
      && (after.closed <==> was.closed || step == Close(p))
      && (after.committing <==> if step == Close(p) then !was.expired else was.committing)
      && after.failed == (if step.FetchFails? && step.p == p then was.failed + {step.chan} else was.failed)
      && after.committed == (if step.Commit? && step.p == p then was.committed + {step.k} else was.committed)
      && after.stamped == (if step.MarkSuccess? && step.p == p then was.stamped + {step.user} else was.stamped)
  {
    PassStep(s, step, p);
    EndAfter(s, s.passes[p], step);
    ExpiredAfter(s, s.passes[p], step);
    FailedAfter(s, s.passes[p], step);
    WrittenAfter(s, s.passes[p], step);
  }

  lemma {:induction false} FlagsAre(s: State, steps: seq<Step>, t: State, p: nat)
    requires Runs(s, steps, t) && NoRestart(steps) && p in s.passes
    ensures p in t.passes && t.passes[p].users == s.passes[p].users
    ensures t.passes[p].expired <==> s.passes[p].expired || Expire(p) in steps
    ensures t.passes[p].closed <==> s.passes[p].closed || Close(p) in steps
    ensures t.passes[p].failed == {} <==> s.passes[p].failed == {} && !ListingFailed(steps, p)
    decreases |steps|
  {
    if steps != [] {
      FirstAndRest(steps);
      FlagStep(s, steps[0], p);
      FlagsAre(Apply(s, steps[0]), steps[1..], t, p);
      assert steps[0].FetchFails? && steps[0].p == p ==> steps[0] == FetchFails(p, steps[0].chan);
    }
  }

  lemma {:induction false} StampedIff(s: State, steps: seq<Step>, t: State, p: nat, user: string)
    requires Runs(s, steps, t) && NoRestart(steps) && p in s.passes
    ensures p in t.passes
    ensures user in t.passes[p].stamped <==> user in s.passes[p].stamped || MarkSuccess(p, user) in steps
    decreases |steps|
  {
    if steps != [] {
      FirstAndRest(steps);
      FlagStep(s, steps[0], p);
      StampedIff(Apply(s, steps[0]), steps[1..], t, p, user);
    }
  }

  lemma {:induction false} CommittedIff(s: State, steps: seq<Step>, t: State, p: nat, k: Pair)
    requires Runs(s, steps, t) && NoRestart(steps) && p in s.passes
    ensures p in t.passes && (k in t.passes[p].committed <==> k in s.passes[p].committed || Commit(p, k) in steps)
    decreases |steps|
  {
    if steps != [] {
      FirstAndRest(steps);
      FlagStep(s, steps[0], p);
      CommittedIff(Apply(s, steps[0]), steps[1..], t, p, k);
    }
  }

  /** The pass comes to its end before its time is up. */
  ghost predicate ClosesInTime(steps: seq<Step>, p: nat) {
    steps != [] && (steps[0] == Close(p) || (steps[0] != Expire(p) && ClosesInTime(steps[1..], p)))
  }

  lemma {:induction false} CommittingStays(s: State, steps: seq<Step>, t: State, p: nat)
    requires Runs(s, steps, t) && NoRestart(steps) && p in s.passes
    requires s.passes[p].closed || (s.passes[p].expired && !s.passes[p].committing)
    ensures p in t.passes && (t.passes[p].committing <==> s.passes[p].committing)
    decreases |steps|
  {
    if steps != [] {
      FirstAndRest(steps);
      FlagStep(s, steps[0], p);
      CommittingStays(Apply(s, steps[0]), steps[1..], t, p);
    }
  }

  lemma {:induction false} CommittingIff(s: State, steps: seq<Step>, t: State, p: nat)
    requires Runs(s, steps, t) && NoRestart(steps) && p in s.passes
    requires !s.passes[p].closed && !s.passes[p].expired && !s.passes[p].committing
    ensures p in t.passes && (t.passes[p].committing <==> ClosesInTime(steps, p))
    decreases |steps|
  {
    if steps != [] {
      FirstAndRest(steps);
      FlagStep(s, steps[0], p);
      if steps[0] == Close(p) || steps[0] == Expire(p) {
        CommittingStays(Apply(s, steps[0]), steps[1..], t, p);
      } else {
        CommittingIff(Apply(s, steps[0]), steps[1..], t, p);
      }
    }
  }

  /** The message is beyond what is stored for the user at this moment. */
  predicate IsNew(s: State, i: Item) {
    Cursor(s.cursors, PairOf(i)) == NONE || i.at.id > Cursor(s.cursors, PairOf(i))
  }

  predicate Meets(s: State, step: Step, p: nat, k: Pair) {
    step.Classify? && step.p == p && PairOf(step.i) == k && IsNew(s, step.i)
  }

  /** The pass classified a message of the pair that was new at that moment. */
  ghost predicate MetNew(s: State, steps: seq<Step>, p: nat, k: Pair)
    decreases |steps|
  {
    steps != [] && (Meets(s, steps[0], p, k) || MetNew(Apply(s, steps[0]), steps[1..], p, k))
  }

  lemma NewAfter(s: State, pass: Pass, step: Step, k: Pair)
    requires step.Classify? ==> step.i.at.id > NONE
    ensures k in PassAfter(s, pass, step).newTS <==>
      k in pass.newTS || (step.Classify? && PairOf(step.i) == k && IsNew(s, step.i)
                          && (k in pass.newTS || step.i.at.id > Cursor(pass.newTS, k)))
  {
  }

  lemma NewStep(s: State, step: Step, p: nat, k: Pair)
    requires Enabled(s, step) && p in s.passes && step != Restart && BookInv(s)
    ensures p in Apply(s, step).passes
    ensures k in Apply(s, step).passes[p].newTS <==> k in s.passes[p].newTS || Meets(s, step, p, k)
  {
    PassStep(s, step, p);
    if OfPass(step) && step.p == p {
      assert Book(s.log, s.passes[p]);
      NewAfter(s, s.passes[p], step, k);
    }
  }

  lemma {:induction false} MetNewIff(s: State, steps: seq<Step>, t: State, p: nat, k: Pair)
    requires Runs(s, steps, t) && NoRestart(steps) && p in s.passes && BookInv(s)
    ensures p in t.passes && (k in t.passes[p].newTS <==> k in s.passes[p].newTS || MetNew(s, steps, p, k))
    decreases |steps|
  {
    if steps != [] {
      FirstAndRest(steps);
      NewStep(s, steps[0], p, k);
      StepKeepsBooks(s, steps[0]);
      MetNewIff(Apply(s, steps[0]), steps[1..], t, p, k);
    }
  }

  // ---------- Commit and stamp ----------

  /** Main result: a pass may write a user's cursor of a channel exactly if it came to its end in time, classified
      something new for the user there, had no group with such a message fail, and has not written it yet. */
  lemma CommitIff(s: State, steps: seq<Step>, t: State, p: nat, k: Pair)
    requires Runs(s, steps, t) && NoRestart(steps) && Fresh(s, p) && BookInv(s)
    ensures Enabled(t, Commit(p, k)) <==>
      ClosesInTime(steps, p) && MetNew(s, steps, p, k) && !Failed(steps, p, k) && Commit(p, k) !in steps
  {
    HeldIff(s, steps, t, p, k);
    CommittedIff(s, steps, t, p, k);
    CommittingIff(s, steps, t, p);
    MetNewIff(s, steps, t, p, k);
  }

  /** Every pair with news was written, or held back by a failure. */
  ghost predicate AllWritten(s: State, steps: seq<Step>, p: nat) {
    forall k :: MetNew(s, steps, p, k) ==> Failed(steps, p, k) || Commit(p, k) in steps
  }

  /** Main result: a pass may stamp a user as scanned exactly if it came to its end, no listing failed, its time is
      not up, no group with a message of the user failed, and all cursors with news are written or held back. */
  lemma StampIff(s: State, steps: seq<Step>, t: State, p: nat, user: string)
    requires Runs(s, steps, t) && NoRestart(steps) && Fresh(s, p) && BookInv(s)
    ensures Enabled(t, MarkSuccess(p, user)) <==>
      && user in s.passes[p].users && Close(p) in steps && Expire(p) !in steps && !ListingFailed(steps, p)
      && (forall k: Pair :: k.user == user ==> !Failed(steps, p, k))
      && AllWritten(s, steps, p)
  {
    FlagsAre(s, steps, t, p);
    forall k: Pair
      ensures k in t.passes[p].held <==> Failed(steps, p, k)
      ensures k in t.passes[p].committed <==> Commit(p, k) in steps
      ensures k in t.passes[p].newTS <==> MetNew(s, steps, p, k)
    {
      HeldIff(s, steps, t, p, k);
      CommittedIff(s, steps, t, p, k);
      MetNewIff(s, steps, t, p, k);
    }
  }

  // ---------- Replies ----------

  ghost predicate ReplyRead(steps: seq<Step>, p: nat, e: Entry) {
    exists step :: step in steps && step.ReadReplies? && step.p == p && e in step.replies
  }

  lemma ReplyStep(s: State, step: Step, p: nat, e: Entry)
    requires Enabled(s, step) && p in s.passes && step != Restart && e.reply
    ensures p in Apply(s, step).passes
    ensures e in Apply(s, step).passes[p].snapshot <==>
              e in s.passes[p].snapshot || (step.ReadReplies? && step.p == p && e in step.replies)
  {
    PassStep(s, step, p);
  }

  /** A pass holds exactly the replies that its reads returned. */
  lemma {:induction false} ReplyReadIff(s: State, steps: seq<Step>, t: State, p: nat, e: Entry)
    requires Runs(s, steps, t) && NoRestart(steps) && p in s.passes && e.reply
    ensures p in t.passes
    ensures e in t.passes[p].snapshot <==> e in s.passes[p].snapshot || ReplyRead(steps, p, e)
    decreases |steps|
  {
    if steps != [] {
      FirstAndRest(steps);
      ReplyStep(s, steps[0], p, e);
      ReplyReadIff(Apply(s, steps[0]), steps[1..], t, p, e);
    }
  }

  // ---------- What is done ----------

  predicate Finishes(s: State, step: Step, i: Item) {
    || (step.Ack? && step.ok && i in step.group)
    || (step.Classify? && step.i == i && !step.isCandidate && IsNew(s, i))
  }

  /** Some pass acknowledged the message as ok, or classified it, new at that moment, as nothing to analyse. */
  ghost predicate FinishedIn(s: State, steps: seq<Step>, i: Item)
    decreases |steps|
  {
    steps != [] && (Finishes(s, steps[0], i) || FinishedIn(Apply(s, steps[0]), steps[1..], i))
  }

  lemma DoneStep(s: State, step: Step, i: Item)
    requires Enabled(s, step)
    ensures i in Apply(s, step).done <==> i in s.done || Finishes(s, step, i)
  {
    if OfPass(step) { ApplyOfPass(s, step); }
  }

  /** Main result: over any run, a message is done for a user exactly if some pass finished it. */
  lemma {:induction false} DoneIff(s: State, steps: seq<Step>, t: State, i: Item)
    requires Runs(s, steps, t)
    ensures i in t.done <==> i in s.done || FinishedIn(s, steps, i)
    decreases |steps|
  {
    if steps != [] {
      DoneStep(s, steps[0], i);
      DoneIff(Apply(s, steps[0]), steps[1..], t, i);
    }
  }

  // ---------- Restarts ----------

  /** The cursor that the run last wrote to the database, `was` if it wrote none. */
  ghost function LastPersisted(s: State, steps: seq<Step>, k: Pair, was: Ts): Ts
    decreases |steps|
  {
    if steps == [] then was
    else LastPersisted(Apply(s, steps[0]), steps[1..], k, if steps[0] == Persist(k) then Cursor(s.cursors, k) else was)
  }

  lemma {:induction false} PersistedIs(s: State, steps: seq<Step>, t: State, k: Pair)
    requires Runs(s, steps, t)
    ensures Cursor(t.persisted, k) == LastPersisted(s, steps, k, Cursor(s.persisted, k))
    decreases |steps|
  {
    if steps != [] { PersistedIs(Apply(s, steps[0]), steps[1..], t, k); }
  }

  /** Main result: a restart resumes every cursor where the run last saved it, or at none, and ends all passes. */
  lemma RestartResumes(now: Micros, steps: seq<Step>, t: State, k: Pair)
    requires Runs(Init(now), steps, t)
    ensures Cursor(Apply(t, Restart).cursors, k) == LastPersisted(Init(now), steps, k, NONE)
    ensures Apply(t, Restart).passes == map[] && Apply(t, Restart).done == t.done
  {
    PersistedIs(Init(now), steps, t, k);
  }
}
