/** Accounts share one log, one process and one clock, and do not disturb each other's chats
    (channels/msgbuffer.go, scanner/scanner_whatsapp.go). */
module WaAccounts {
  import opened ChatBuffers
  import ChatBufferRuns
  import opened WaReplay
  import opened WaProtocol

  /** The step is the account's own, or one that happens to all of them. */
  predicate Concerns(step: Step, email: string) {
    match step
    case Tick(_) => true
    case Crash => true
    case Receive(k, _) => k.email == email
    case Log(k, _, _) => k.email == email
    case Requeue(k, _) => k.email == email
    case Drain(e) => e == email
    case Logout(e) => e == email
    case Hold(e, _) => e == email
    case Ack(e, _, _) => e == email
    case Select(e, _) => e == email
    case Fail(e) => e == email
  }

  function OwnSteps(steps: seq<Step>, email: string): seq<Step> {
    if steps == [] then []
    else (if Concerns(steps[0], email) then [steps[0]] else []) + OwnSteps(steps[1..], email)
  }

  function After(s: State, steps: seq<Step>): State
    decreases |steps|
  {
    if steps == [] then s else After(Apply(s, steps[0]), steps[1..])
  }

  /** The account sees the same clock, chats, popped messages and selected rows in both states. */
  ghost predicate LooksAlike(s: State, t: State, email: string) {
    && s.now == t.now && Batch(s, email) == Batch(t, email)
    && (forall k: Key :: k.email == email ==> Buffered(s, k) == Buffered(t, k))
    && (forall id: string :: (email, id) in s.drained <==> (email, id) in t.drained)
  }

  lemma OwnStepBuffers(s: State, t: State, step: Step, k: Key)
    requires LooksAlike(s, t, k.email) && Concerns(step, k.email)
    ensures Buffered(Apply(s, step), k) == Buffered(Apply(t, step), k)
  {
  }

  lemma OwnStepPops(s: State, t: State, step: Step, email: string, id: string)
    requires LooksAlike(s, t, email) && Concerns(step, email)
    ensures (email, id) in Apply(s, step).drained <==> (email, id) in Apply(t, step).drained
  {
  }

  lemma OwnStepLooksAlike(s: State, t: State, step: Step, email: string)
    requires LooksAlike(s, t, email) && Concerns(step, email)
    ensures LooksAlike(Apply(s, step), Apply(t, step), email)
  {
    forall k: Key | k.email == email ensures Buffered(Apply(s, step), k) == Buffered(Apply(t, step), k) {
      OwnStepBuffers(s, t, step, k);
    }
    forall id: string ensures (email, id) in Apply(s, step).drained <==> (email, id) in Apply(t, step).drained {
      OwnStepPops(s, t, step, email, id);
    }
  }

  lemma OtherStepLooksAlike(s: State, step: Step, email: string)
    requires !Concerns(step, email)
    ensures LooksAlike(Apply(s, step), s, email)
  {
  }

  lemma {:induction false} OwnStepsDecide(s: State, t: State, steps: seq<Step>, email: string)
    requires LooksAlike(s, t, email)
    ensures LooksAlike(After(s, steps), After(t, OwnSteps(steps, email)), email)
    decreases |steps|
  {
    if steps != [] {
      var step, rest := steps[0], steps[1..];
      if Concerns(step, email) {
        OwnStepLooksAlike(s, t, step, email);
        OwnStepsDecide(Apply(s, step), Apply(t, step), rest, email);
        assert OwnSteps(steps, email) == [step] + OwnSteps(rest, email);
        assert OwnSteps(steps, email)[1..] == OwnSteps(rest, email);
      } else {
        OtherStepLooksAlike(s, step, email);
        OwnStepsDecide(Apply(s, step), t, rest, email);
        assert OwnSteps(steps, email) == OwnSteps(rest, email);
      }
    }
  }

  lemma {:induction false} AfterRun(s: State, steps: seq<Step>, t: State)
    requires Runs(s, steps, t)
    ensures t == After(s, steps)
    decreases |steps|
  {
    if steps != [] { AfterRun(Apply(s, steps[0]), steps[1..], t); }
  }

  /** Main result: over any run, what is in an account's chats, what its scans have popped and what its replay has
      selected is decided by its own steps, the clock and the crashes; drains, logouts and replays of other accounts
      change nothing of it. */
  lemma AccountsAreApart(s: State, steps: seq<Step>, t: State, email: string)
    requires Runs(s, steps, t)
    ensures LooksAlike(t, After(s, OwnSteps(steps, email)), email)
  {
    AfterRun(s, steps, t);
    OwnStepsDecide(s, s, steps, email);
  }

  /** A drain, a logout and a crash each leave the account with empty chats; only the drain pops what was there. */
  lemma EmptiedBy(s: State, step: Step, k: Key, id: string)
    requires step in {Drain(k.email), Logout(k.email), Crash}
    ensures Buffered(Apply(s, step), k) == []
    ensures (k.email, id) in Apply(s, step).drained <==>
      && step != Crash
      && ((k.email, id) in s.drained
          || (step == Drain(k.email)
              && exists c, m :: c in s.buffer && c.email == k.email && m in s.buffer[c] && m.id == id))
  {
  }

  // ---------- What arrives stays ----------

  /** What the step brings into the chat. */
  function Arriving(step: Step, k: Key): seq<Msg> { if step.Receive? && step.k == k then [step.m] else [] }

  /** The messages that the steps bring into the chat, in order. */
  function Arrivals(steps: seq<Step>, k: Key): seq<Msg> {
    if steps == [] then [] else Arriving(steps[0], k) + Arrivals(steps[1..], k)
  }

  /** The step neither empties the chat nor reinserts into it. */
  predicate LeavesChat(step: Step, k: Key) {
    && step != Drain(k.email) && step != Logout(k.email) && step != Crash
    && (step.Requeue? ==> step.k != k)
  }

  predicate LeaveChat(steps: seq<Step>, k: Key) { forall i :: 0 <= i < |steps| ==> LeavesChat(steps[i], k) }

  lemma StepKeepsChat(s: State, step: Step, k: Key)
    requires LeavesChat(step, k)
    ensures Buffered(Apply(s, step), k) ==
              if step.Receive? && step.k == k then Newest(Buffered(s, k) + [step.m]) else Buffered(s, k)
  {
  }

  lemma StepGrowsChat(s: State, step: Step, k: Key, sofar: seq<Msg>)
    requires LeavesChat(step, k) && Buffered(s, k) == Newest(sofar)
    ensures Buffered(Apply(s, step), k) == Newest(sofar + Arriving(step, k))
  {
    StepKeepsChat(s, step, k);
    if step.Receive? && step.k == k {
      ChatBufferRuns.NewestOfNewest(sofar, step.m);
    } else {
      assert sofar + [] == sofar;
    }
  }

  lemma ArrivalsOn(sofar: seq<Msg>, steps: seq<Step>, k: Key)
    requires steps != []
    ensures sofar + Arrivals(steps, k) == sofar + Arriving(steps[0], k) + Arrivals(steps[1..], k)
  {
  }

  lemma LeaveChatOn(steps: seq<Step>, k: Key)
    requires steps != [] && LeaveChat(steps, k)
    ensures LeavesChat(steps[0], k) && LeaveChat(steps[1..], k)
  {
  }

  lemma {:induction false} ChatGrows(s: State, steps: seq<Step>, t: State, k: Key, sofar: seq<Msg>)
    requires Runs(s, steps, t) && Buffered(s, k) == Newest(sofar) && LeaveChat(steps, k)
    ensures Buffered(t, k) == Newest(sofar + Arrivals(steps, k))
    decreases |steps|
  {
    if steps == [] {
      assert sofar + [] == sofar;
    } else {
      var here := Arriving(steps[0], k);
      LeaveChatOn(steps, k);
      StepGrowsChat(s, steps[0], k, sofar);
      ChatGrows(Apply(s, steps[0]), steps[1..], t, k, sofar + here);
      ArrivalsOn(sofar, steps, k);
    }
  }

  /** Main result: until it is popped, replayed into or lost with the process, a chat that was empty holds the newest
      200 of what has arrived in it, in order, whatever else goes on. */
  lemma ChatHoldsArrivals(s: State, steps: seq<Step>, t: State, k: Key)
    requires Runs(s, steps, t) && Buffered(s, k) == []
    requires LeaveChat(steps, k)
    ensures var all := Arrivals(steps, k);
            Buffered(t, k) == if |all| <= 200 then all else all[|all| - 200..]
  {
    ChatGrows(s, steps, t, k, []);
    assert [] + Arrivals(steps, k) == Arrivals(steps, k);
  }

  // ---------- One acknowledgement per drain ----------

  lemma {:induction false} DrainedByDrain(s: State, steps: seq<Step>, t: State, email: string, id: string)
    requires Runs(s, steps, t) && (email, id) !in s.drained && Drain(email) !in steps
    ensures (email, id) !in t.drained
    decreases |steps|
  {
    if steps != [] {
      assert steps == [steps[0]] + steps[1..];
      DrainedByDrain(Apply(s, steps[0]), steps[1..], t, email, id);
    }
  }

  /** Once a scan has acknowledged a message, it is held or acknowledged again only after another drain. */
  lemma AcknowledgedOncePerDrain(s: State, email: string, ids: set<string>, ok: bool, steps: seq<Step>, t: State,
                                 id: string, again: Step)
    requires Runs(Apply(s, Ack(email, ids, ok)), steps, t) && id in ids
    requires (again.Hold? || again.Ack?) && again.email == email && id in again.ids && Enabled(t, again)
    ensures Drain(email) in steps
  {
    if Drain(email) !in steps {
      DrainedByDrain(Apply(s, Ack(email, ids, ok)), steps, t, email, id);
    }
  }
}
