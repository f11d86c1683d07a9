/** When the replay query returns a row, on the clock of the run (store/wa_messages_store.go, db/wa_messages.sql.go):
    not while a scan holds it, again when the hold has gone stale, and for a row that no scan took from the end of
    the write-settle grace to the end of the lookback. */
module WaHolds {
  import opened ChatBuffers
  import opened WaReplay
  import opened WaProtocol

  ghost predicate HoldsRow(step: Step, email: string, id: string) {
    step.Hold? && step.email == email && id in step.ids
  }

  ghost predicate NeverHeld(steps: seq<Step>, email: string, id: string) {
    forall i :: 0 <= i < |steps| ==> !HoldsRow(steps[i], email, id)
  }

  lemma NeverHeldLater(steps: seq<Step>, email: string, id: string)
    requires NeverHeld(steps, email, id) && steps != []
    ensures !HoldsRow(steps[0], email, id) && NeverHeld(steps[1..], email, id)
  {
    assert forall i :: 0 <= i < |steps[1..]| ==> steps[1..][i] == steps[i + 1];
  }

  lemma ClockGoesOn(s: State, step: Step)
    ensures s.now <= Apply(s, step).now
  {
  }

  /** What never changes in a row. */
  ghost predicate SameRow(r: LogRow, x: LogRow) {
    && x.email == r.email && x.chat == r.chat && x.ts == r.ts && x.created == r.created
    && x.captured == r.captured && x.payload == r.payload
  }

  lemma {:induction false} RunKeepsIdentity(s: State, steps: seq<Step>, t: State, id: string)
    requires Runs(s, steps, t) && id in s.rows
    ensures id in t.rows && SameRow(s.rows[id], t.rows[id]) && (s.rows[id].processed ==> t.rows[id].processed)
    decreases |steps|
  {
    if steps != [] {
      RowKeepsIdentity(s, steps[0], id);
      RunKeepsIdentity(Apply(s, steps[0]), steps[1..], t, id);
    }
  }

  // ---------- While a scan has the row ----------

  /** The row is processed or was taken at `time` or later. */
  ghost predicate TakenSince(s: State, id: string, time: int) {
    id in s.rows && time <= s.now && (s.rows[id].processed || (s.rows[id].popped.At? && s.rows[id].popped.time >= time))
  }

  lemma StepStaysTaken(s: State, step: Step, id: string, time: int)
    requires TakenSince(s, id, time)
    ensures TakenSince(Apply(s, step), id, time)
  {
    RowKeepsIdentity(s, step, id);
    ClockGoesOn(s, step);
  }

  lemma {:induction false} RunStaysTaken(s: State, steps: seq<Step>, t: State, id: string, time: int)
    requires Runs(s, steps, t) && TakenSince(s, id, time)
    ensures TakenSince(t, id, time)
    decreases |steps|
  {
    if steps != [] {
      StepStaysTaken(s, steps[0], id, time);
      RunStaysTaken(Apply(s, steps[0]), steps[1..], t, id, time);
    }
  }

  /** Main result: a hold holds. After a scan took an unprocessed row, no replay query of any account returns it for
      31 minutes, whatever else happens, so it is not analysed a second time while the scan has it. */
  lemma HeldRowIsLeftOut(s: State, email: string, ids: set<string>, id: string, steps: seq<Step>, t: State,
                         other: string, sel: seq<Row>)
    requires id in ids && id in s.rows && s.rows[id].email == email && !s.rows[id].processed
    requires Runs(Apply(s, Hold(email, ids)), steps, t) && t.now < s.now + STALE
    requires Enabled(t, Select(other, sel))
    ensures forall i :: 0 <= i < |sel| ==> sel[i].messageId != id
  {
    RowKeepsIdentity(s, Hold(email, ids), id);
    RunStaysTaken(Apply(s, Hold(email, ids)), steps, t, id, s.now);
    assert !Replayable(t.rows[id], other, t.now);
  }

  // ---------- When the hold has gone stale ----------

  lemma StepKeepsHold(s: State, step: Step, id: string)
    requires id in s.rows && !HoldsRow(step, s.rows[id].email, id)
    ensures id in Apply(s, step).rows && Apply(s, step).rows[id].popped == s.rows[id].popped
  {
    RowKeepsIdentity(s, step, id);
  }

  lemma {:induction false} RunKeepsHold(s: State, steps: seq<Step>, t: State, id: string)
    requires Runs(s, steps, t) && id in s.rows && NeverHeld(steps, s.rows[id].email, id)
    ensures id in t.rows && t.rows[id].popped == s.rows[id].popped
    decreases |steps|
  {
    if steps != [] {
      NeverHeldLater(steps, s.rows[id].email, id);
      StepKeepsHold(s, steps[0], id);
      RowKeepsIdentity(s, steps[0], id);
      RunKeepsHold(Apply(s, steps[0]), steps[1..], t, id);
    }
  }

  /** Main result: a row that was held once and not again is returned exactly from 31 minutes after that hold, if the
      grace is over by then, to the end of the lookback, as long as it is unprocessed and has attempts left. */
  lemma StaleHoldIsReplayableIff(s: State, email: string, ids: set<string>, id: string, steps: seq<Step>, t: State)
    requires id in ids && id in s.rows && s.rows[id].email == email && !s.rows[id].processed
    requires Runs(Apply(s, Hold(email, ids)), steps, t) && NeverHeld(steps, email, id)
    ensures id in t.rows && SameRow(s.rows[id], t.rows[id])
    ensures Replayable(t.rows[id], email, t.now) <==>
      && s.rows[id].captured && !t.rows[id].processed && t.rows[id].attempts < 3
      && s.now + STALE <= t.now && s.rows[id].created + GRACE <= t.now <= s.rows[id].ts + LOOKBACK
  {
    RowKeepsIdentity(s, Hold(email, ids), id);
    RunKeepsIdentity(Apply(s, Hold(email, ids)), steps, t, id);
    RunKeepsHold(Apply(s, Hold(email, ids)), steps, t, id);
  }

  // ---------- A row that no scan took ----------

  ghost predicate NeverAcked(steps: seq<Step>, email: string, id: string) {
    forall i :: 0 <= i < |steps| && steps[i].Ack? && steps[i].ok && steps[i].email == email ==> id !in steps[i].ids
  }

  /** As the log statement left it. */
  ghost predicate Untouched(s: State, id: string) {
    id in s.rows && !s.rows[id].processed && s.rows[id].popped.Never? && (Good(s.rows[id]) ==> s.rows[id].attempts == 0)
  }

  lemma StepLeavesUntouched(s: State, step: Step, id: string)
    requires Inv(s) && Untouched(s, id) && !HoldsRow(step, s.rows[id].email, id)
    requires step.Ack? && step.ok && step.email == s.rows[id].email ==> id !in step.ids
    ensures Untouched(Apply(s, step), id)
  {
    RowKeepsIdentity(s, step, id);
    if step.Fail? && id in MalformedIds(Batch(s, step.email)) { MalformedRowsAre(Batch(s, step.email), id); }
  }

  lemma {:induction false} RunLeavesUntouched(s: State, steps: seq<Step>, t: State, id: string)
    requires Inv(s) && Runs(s, steps, t) && Untouched(s, id)
    requires NeverHeld(steps, s.rows[id].email, id) && NeverAcked(steps, s.rows[id].email, id)
    ensures Untouched(t, id)
    decreases |steps|
  {
    if steps != [] {
      NeverHeldLater(steps, s.rows[id].email, id);
      assert forall i :: 0 <= i < |steps[1..]| ==> steps[1..][i] == steps[i + 1];
      StepLeavesUntouched(s, steps[0], id);
      StepKeepsInv(s, steps[0]);
      RowKeepsIdentity(s, steps[0], id);
      RunLeavesUntouched(Apply(s, steps[0]), steps[1..], t, id);
    }
  }

  /** Main result: a message that was logged with its payload and that no scan takes or acknowledges is returned for
      its account exactly from 13 minutes after the logging to a week after it was written. */
  lemma LoggedRowIsReplayableIff(s: State, k: Key, m: Msg, captured: bool, steps: seq<Step>, t: State, email: string)
    requires Inv(s) && m.id !in s.rows && Runs(Apply(s, Log(k, m, captured)), steps, t)
    requires NeverHeld(steps, k.email, m.id) && NeverAcked(steps, k.email, m.id)
    ensures m.id in t.rows && t.rows[m.id].chat == k.chat
    ensures Replayable(t.rows[m.id], email, t.now) <==>
              captured && email == k.email && s.now + GRACE <= t.now <= m.time + LOOKBACK
  {
    var u := Apply(s, Log(k, m, captured));
    assert m.id in u.rows && Untouched(u, m.id);
    StepKeepsInv(s, Log(k, m, captured));
    RunKeepsIdentity(u, steps, t, m.id);
    RunLeavesUntouched(u, steps, t, m.id);
  }
}
