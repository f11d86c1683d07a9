/** The durable WhatsApp queue as a protocol: messages are buffered and logged, drained by scans,
    acknowledged, lost from memory by crashes, and replayed from the log. Every database statement
    and every buffer call is one step, so scans, replays and ingestion interleave freely
    (store/wa_messages_store.go, scanner/scanner_whatsapp.go, scanner/wa_replay.go). */
module WaProtocol {
  import opened ChatBuffers
  import opened WaReplay

  const GRACE: int := 13 * 60
  const STALE: int := 31 * 60
  const LOOKBACK: int := 7 * 24 * 3600
  const MAX_ATTEMPTS: nat := 3
  const REPLAY_LIMIT: nat := 997

  datatype Stamp = Never | At(time: int)

  /** One wa_messages row; `captured` is raw_json != ''. */
  datatype LogRow = LogRow(email: string, chat: string, ts: int, created: int, captured: bool, payload: Payload,
                           attempts: nat, popped: Stamp, processed: bool)

  /** The process and its database. `held` counts, as history, the scans each row was handed to. */
  datatype State = State(now: int, rows: map<string, LogRow>, buffer: map<Key, seq<Msg>>,
                         drained: set<(string, string)>, batch: map<string, seq<Row>>, held: map<string, nat>)

  datatype Step =
    | Tick(d: nat)
    | Receive(k: Key, m: Msg)
    | Log(k: Key, m: Msg, captured: bool)
    | Drain(email: string)
    | Hold(email: string, ids: set<string>)
    | Ack(email: string, ids: set<string>, ok: bool)
    | Crash
    | Logout(email: string)
    | Select(email: string, rows: seq<Row>)
    | Requeue(k: Key, after: seq<Msg>)
    | Fail(email: string)

  function Init(now: int): State { State(now, map[], map[], {}, map[], map[]) }

  function Buffered(s: State, k: Key): seq<Msg> { if k in s.buffer then s.buffer[k] else [] }

  function Batch(s: State, email: string): seq<Row> { if email in s.batch then s.batch[email] else [] }

  // ---------- The replay query ----------

  predicate Replayable(r: LogRow, email: string, now: int) {
    && r.email == email && !r.processed && r.captured && r.attempts < MAX_ATTEMPTS
    && r.created <= now - GRACE
    && (r.popped.At? ==> r.popped.time <= now - STALE)
    && r.ts >= now - LOOKBACK
  }

  predicate RowOf(s: State, r: Row) {
    r.messageId in s.rows && s.rows[r.messageId].chat == r.chat && s.rows[r.messageId].payload == r.payload
  }

  /** ORDER BY ts LIMIT 997 over the replayable rows. */
  ghost predicate Selection(s: State, email: string, sel: seq<Row>) {
    && |sel| <= REPLAY_LIMIT
    && (forall i :: 0 <= i < |sel| ==> RowOf(s, sel[i]) && Replayable(s.rows[sel[i].messageId], email, s.now))
    && (forall i, j :: 0 <= i < j < |sel| ==>
          sel[i].messageId != sel[j].messageId && s.rows[sel[i].messageId].ts <= s.rows[sel[j].messageId].ts)
    && (forall id :: id in s.rows && Replayable(s.rows[id], email, s.now) ==>
          || (exists i :: 0 <= i < |sel| && sel[i].messageId == id)
          || (|sel| == REPLAY_LIMIT && s.rows[sel[|sel| - 1].messageId].ts <= s.rows[id].ts))
  }

  // ---------- Steps ----------

  ghost predicate Enabled(s: State, step: Step) {
    && (step.Hold? || step.Ack? ==> forall id :: id in step.ids ==> (step.email, id) in s.drained)
    && (step.Select? ==> Selection(s, step.email, step.rows))
    && (step.Requeue? ==>
          ReplayResult(Buffered(s, step.k), Oldest(Parsable(Batch(s, step.k.email), step.k.chat)), step.after))
  }

  /** UPDATE ... WHERE email = ? AND message_id IN (ids), with the statement's own guard. */
  function MarkPopped(r: LogRow, now: int): LogRow {
    if r.processed then r else r.(popped := At(now), attempts := r.attempts + 1)
  }

  function MarkProcessed(r: LogRow): LogRow { r.(processed := true) }

  function MarkFailed(r: LogRow): LogRow { if r.processed then r else r.(attempts := r.attempts + 1) }

  function RowAfter(s: State, step: Step, id: string): LogRow
    requires id in s.rows
  {
    var r := s.rows[id];
    match step
    case Hold(email, ids) => if r.email == email && id in ids then MarkPopped(r, s.now) else r
    case Ack(email, ids, ok) => if ok && r.email == email && id in ids then MarkProcessed(r) else r
    case Fail(email) => if r.email == email && id in MalformedIds(Batch(s, email)) then MarkFailed(r) else r
    case _ => r
  }

  function RowsAfter(s: State, step: Step): map<string, LogRow> {
    var updated := map id | id in s.rows :: RowAfter(s, step, id);
    match step
    case Log(k, m, captured) =>
      if m.id in s.rows then updated
      else updated[m.id := LogRow(k.email, k.chat, m.time, s.now, captured,
                                  if captured then Parsed(m) else Malformed, 0, Never, false)]
    case _ => updated
  }

  function HeldAfter(s: State, step: Step): map<string, nat> {
    match step
    case Hold(email, ids) =>
      map id | id in s.held :: s.held[id] + if id in s.rows && s.rows[id].email == email && id in ids then 1 else 0
    case Log(k, m, captured) => if m.id in s.held then s.held else s.held[m.id := 0]
    case _ => s.held
  }

  function MemoryAfter(s: State, step: Step): State {
    match step
    case Tick(d) => s.(now := s.now + d)
    case Receive(k, m) => s.(buffer := s.buffer[k := Newest(Buffered(s, k) + [m])])
    case Drain(email) =>
      s.(buffer := map k | k in s.buffer && k.email != email :: s.buffer[k],
         drained := s.drained + set k, m | k in s.buffer && k.email == email && m in s.buffer[k] :: (email, m.id))
    case Ack(email, ids, ok) => s.(drained := s.drained - set id | id in ids :: (email, id))
    case Crash => s.(buffer := map[], drained := {}, batch := map[])
    case Logout(email) => s.(buffer := map k | k in s.buffer && k.email != email :: s.buffer[k])
    case Select(email, rows) => s.(batch := s.batch[email := rows])
    case Requeue(k, after) => s.(buffer := s.buffer[k := after])
    case _ => s
  }

  function Apply(s: State, step: Step): State {
    MemoryAfter(s, step).(rows := RowsAfter(s, step), held := HeldAfter(s, step))
  }

  ghost predicate Runs(s: State, steps: seq<Step>, t: State)
    decreases |steps|
  {
    if steps == [] then s == t
    else Enabled(s, steps[0]) && Runs(Apply(s, steps[0]), steps[1..], t)
  }

  // ---------- Invariant ----------

  predicate Good(r: LogRow) { r.captured && r.payload.Parsed? }

  ghost predicate Inv(s: State) {
    && s.rows.Keys == s.held.Keys
    && (forall id :: id in s.rows ==> s.rows[id].payload.Parsed? ==> s.rows[id].payload.msg.id == id)
    && (forall id :: id in s.rows && Good(s.rows[id]) && !s.rows[id].processed ==> s.rows[id].attempts == s.held[id])
    && (forall e, i :: e in s.batch && 0 <= i < |s.batch[e]| ==> RowOf(s, s.batch[e][i]))
    && (forall e :: e in s.batch ==> DistinctRows(s.batch[e]))
    && (forall k :: k in s.buffer ==> |s.buffer[k]| <= CAP)
  }

  ghost predicate DistinctRows(rows: seq<Row>) {
    forall i, j :: 0 <= i < j < |rows| ==> rows[i].messageId != rows[j].messageId
  }

  lemma {:induction false} MalformedRowsAre(rows: seq<Row>, id: string)
    requires id in MalformedIds(rows)
    ensures exists i :: 0 <= i < |rows| && rows[i].messageId == id && rows[i].payload.Malformed?
  {
    var last := rows[|rows| - 1];
    if !(last.payload.Malformed? && last.messageId == id) {
      MalformedRowsAre(rows[..|rows| - 1], id);
      var front := rows[..|rows| - 1];
      var i :| 0 <= i < |front| && front[i].messageId == id && front[i].payload.Malformed?;
      assert rows[i].messageId == id;
    }
  }

  lemma RowKeepsIdentity(s: State, step: Step, id: string)
    requires id in s.rows
    ensures id in Apply(s, step).rows
    ensures Apply(s, step).rows[id] == RowAfter(s, step, id)
    ensures var r, r' := s.rows[id], RowAfter(s, step, id);
            r'.(attempts := r.attempts, popped := r.popped, processed := r.processed) == r
  {
  }

  lemma StepKeepsRow(s: State, step: Step, id: string)
    requires Inv(s) && Enabled(s, step) && id in Apply(s, step).rows
    ensures var t := Apply(s, step);
            && id in t.held
            && (t.rows[id].payload.Parsed? ==> t.rows[id].payload.msg.id == id)
            && (Good(t.rows[id]) && !t.rows[id].processed ==> t.rows[id].attempts == t.held[id])
  {
    if id in s.rows {
      RowKeepsIdentity(s, step, id);
      if step.Fail? && id in MalformedIds(Batch(s, step.email)) {
        MalformedRowsAre(Batch(s, step.email), id);
      }
    }
  }

  lemma StepKeepsBatches(s: State, step: Step)
    requires Inv(s) && Enabled(s, step)
    ensures var t := Apply(s, step); forall e, i :: e in t.batch && 0 <= i < |t.batch[e]| ==> RowOf(t, t.batch[e][i])
  {
    var t := Apply(s, step);
    forall e, i | e in t.batch && 0 <= i < |t.batch[e]| ensures RowOf(t, t.batch[e][i]) {
      var r := t.batch[e][i];
      assert RowOf(s, r);
      RowKeepsIdentity(s, step, r.messageId);
    }
  }

  lemma ReplayFits(before: seq<Msg>, raws: seq<Msg>, after: seq<Msg>)
    requires |before| <= CAP && ReplayResult(before, raws, after)
    ensures |after| <= CAP
  {
    ReplayKeepsNewest(before, raws, after);
  }

  lemma StepKeepsBuffer(s: State, step: Step, k: Key)
    requires Inv(s) && Enabled(s, step) && k in Apply(s, step).buffer
    ensures |Apply(s, step).buffer[k]| <= CAP
  {
    if step.Requeue? && step.k == k {
      ReplayFits(Buffered(s, k), Oldest(Parsable(Batch(s, k.email), k.chat)), step.after);
    } else if !(step.Receive? && step.k == k) {
      OtherBuffersStay(s, step, k);
    }
  }

  lemma OtherBuffersStay(s: State, step: Step, k: Key)
    requires k in Apply(s, step).buffer && ((step.Receive? || step.Requeue?) ==> step.k != k)
    ensures k in s.buffer && Apply(s, step).buffer[k] == s.buffer[k]
  {
  }

  lemma StepKeepsSelections(s: State, step: Step, email: string)
    requires Inv(s) && Enabled(s, step) && email in Apply(s, step).batch
    ensures DistinctRows(Apply(s, step).batch[email])
  {
  }

  lemma StepKeepsInv(s: State, step: Step)
    requires Inv(s) && Enabled(s, step)
    ensures Inv(Apply(s, step))
  {
    var t := Apply(s, step);
    StepKeepsBatches(s, step);
    forall k | k in t.buffer ensures |t.buffer[k]| <= CAP { StepKeepsBuffer(s, step, k); }
    forall e | e in t.batch ensures DistinctRows(t.batch[e]) { StepKeepsSelections(s, step, e); }
    forall id | id in t.rows
      ensures t.rows[id].payload.Parsed? ==> t.rows[id].payload.msg.id == id
      ensures Good(t.rows[id]) && !t.rows[id].processed ==> t.rows[id].attempts == t.held[id]
    {
      StepKeepsRow(s, step, id);
    }
    assert t.rows.Keys == t.held.Keys;
  }

  lemma {:induction false} RunKeepsInv(s: State, steps: seq<Step>, t: State)
    requires Inv(s) && Runs(s, steps, t)
    ensures Inv(t)
    decreases |steps|
  {
    if steps != [] {
      StepKeepsInv(s, steps[0]);
      RunKeepsInv(Apply(s, steps[0]), steps[1..], t);
    }
  }

  // ---------- Rows that nothing touches ----------

  /** The step neither hands the row to a scan, nor acknowledges it, nor fails it as malformed. */
  ghost predicate Leaves(step: Step, id: string) {
    match step
    case Hold(email, ids) => id !in ids
    case Ack(email, ids, ok) => ok ==> id !in ids
    case _ => true
  }

  /** Crashes, logouts, cuts of the buffer, failed scans and other rows' traffic leave a captured
      row as it was, so it stays due for replay. */
  lemma {:induction false} RowIsStable(s: State, steps: seq<Step>, t: State, id: string)
    requires Inv(s) && Runs(s, steps, t) && id in s.rows && Good(s.rows[id])
    requires forall i :: 0 <= i < |steps| ==> Leaves(steps[i], id)
    ensures id in t.rows && t.rows[id] == s.rows[id]
    decreases |steps|
  {
    if steps != [] {
      var s1 := Apply(s, steps[0]);
      assert Leaves(steps[0], id);
      StepKeepsInv(s, steps[0]);
      RowKeepsIdentity(s, steps[0], id);
      if steps[0].Fail? && id in MalformedIds(Batch(s, steps[0].email)) {
        MalformedRowsAre(Batch(s, steps[0].email), id);
      }
      assert forall i :: 0 <= i < |steps[1..]| ==> steps[1..][i] == steps[i + 1];
      RowIsStable(s1, steps[1..], t, id);
    }
  }

  // ---------- Retries terminate ----------

  function Remaining(r: LogRow): nat {
    if r.processed || r.attempts >= MAX_ATTEMPTS then 0 else MAX_ATTEMPTS - r.attempts
  }

  /** Scans handed the row while it still had attempts left. */
  function Retries(s: State, steps: seq<Step>, id: string): nat
    decreases |steps|
  {
    if steps == [] then 0
    else
      (if && id in s.rows && Remaining(s.rows[id]) > 0
          && steps[0].Hold? && s.rows[id].email == steps[0].email && id in steps[0].ids then 1 else 0)
      + Retries(Apply(s, steps[0]), steps[1..], id)
  }

  /** Main result: every scan of a row uses up one of its attempts for good, so along any run it is
      handed to at most three scans before the replay query stops returning it. */
  lemma {:induction false} RetriesAreBounded(s: State, steps: seq<Step>, t: State, id: string)
    requires Runs(s, steps, t) && id in s.rows
    ensures id in t.rows && Retries(s, steps, id) + Remaining(t.rows[id]) <= Remaining(s.rows[id])
    ensures Retries(s, steps, id) >= Remaining(s.rows[id]) ==>
              forall email, now :: !Replayable(t.rows[id], email, now)
    decreases |steps|
  {
    if steps != [] {
      RowKeepsIdentity(s, steps[0], id);
      RetriesAreBounded(Apply(s, steps[0]), steps[1..], t, id);
    }
  }

  ghost predicate CapturedParse(s: State) {
    forall id :: id in s.rows && s.rows[id].captured ==> s.rows[id].payload.Parsed?
  }

  /** In runs from the start every captured payload is the logged message itself, so no row the query returns is
      malformed; that case speaks of rows written by something else. */
  lemma {:induction false} CapturedRowsParse(s: State, steps: seq<Step>, t: State)
    requires CapturedParse(s) && Runs(s, steps, t)
    ensures CapturedParse(t)
    ensures forall id, email, now :: id in t.rows && Replayable(t.rows[id], email, now) ==> Good(t.rows[id])
    decreases |steps|
  {
    if steps != [] {
      StepParses(s, steps[0]);
      CapturedRowsParse(Apply(s, steps[0]), steps[1..], t);
    }
  }

  lemma StepParses(s: State, step: Step)
    requires CapturedParse(s)
    ensures CapturedParse(Apply(s, step))
  {
    forall id | id in Apply(s, step).rows && Apply(s, step).rows[id].captured
      ensures Apply(s, step).rows[id].payload.Parsed?
    {
      if id in s.rows { RowKeepsIdentity(s, step, id); }
    }
  }

  // ---------- Processed rows and requeueing ----------

  ghost predicate KeepsBatch(step: Step, email: string) {
    !step.Crash? && !(step.Select? && step.email == email)
  }

  ghost predicate AcksOk(step: Step, email: string, id: string) {
    step.Ack? && step.ok && step.email == email && id in step.ids
  }

  lemma {:induction false} BatchIsPending(s: State, steps: seq<Step>, t: State, email: string)
    requires Runs(s, steps, t) && forall i :: 0 <= i < |steps| ==> KeepsBatch(steps[i], email)
    ensures Batch(t, email) == Batch(s, email)
    decreases |steps|
  {
    if steps != [] {
      assert KeepsBatch(steps[0], email);
      assert forall i :: 0 <= i < |steps[1..]| ==> steps[1..][i] == steps[i + 1];
      BatchIsPending(Apply(s, steps[0]), steps[1..], t, email);
    }
  }

  lemma {:induction false} ProcessedIffAcked(s: State, steps: seq<Step>, t: State, id: string)
    requires Runs(s, steps, t) && id in s.rows
    ensures id in t.rows
    ensures t.rows[id].processed <==>
              s.rows[id].processed || exists i :: 0 <= i < |steps| && AcksOk(steps[i], s.rows[id].email, id)
    decreases |steps|
  {
    if steps != [] {
      var s1 := Apply(s, steps[0]);
      var email := s.rows[id].email;
      RowKeepsIdentity(s, steps[0], id);
      ProcessedIffAcked(s1, steps[1..], t, id);
      if i :| 0 <= i < |steps[1..]| && AcksOk(steps[1..][i], email, id) { assert AcksOk(steps[i + 1], email, id); }
      if i :| 0 < i < |steps| && AcksOk(steps[i], email, id) { assert AcksOk(steps[1..][i - 1], email, id); }
      assert s1.rows[id].processed <==> s.rows[id].processed || AcksOk(steps[0], email, id);
    }
  }

  /** Main result: the query and the reinsertion are two steps. A selected row is still unprocessed
      when it is reinserted exactly if no scan acknowledged it in between. */
  lemma RequeueIsCleanIffNoAckBetween(s: State, email: string, sel: seq<Row>, steps: seq<Step>, t: State, i: nat)
    requires Enabled(s, Select(email, sel)) && Runs(Apply(s, Select(email, sel)), steps, t) && i < |sel|
    requires forall j :: 0 <= j < |steps| ==> KeepsBatch(steps[j], email)
    ensures Batch(t, email) == sel && sel[i].messageId in t.rows
    ensures !t.rows[sel[i].messageId].processed <==>
              forall j :: 0 <= j < |steps| ==> !AcksOk(steps[j], email, sel[i].messageId)
  {
    var s1 := Apply(s, Select(email, sel));
    BatchIsPending(s1, steps, t, email);
    assert RowOf(s, sel[i]);
    RowKeepsIdentity(s, Select(email, sel), sel[i].messageId);
    ProcessedIffAcked(s1, steps, t, sel[i].messageId);
  }

  /** A message received, logged and left unscanned for the grace period. */
  lemma UnscannedState(k: Key, m: Msg) returns (steps: seq<Step>, s: State)
    requires !m.isReplay && m.time == 0
    ensures Runs(Init(0), steps, s) && s.now == GRACE && s.buffer == map[k := [m]] && s.drained == {}
    ensures s.rows == map[m.id := LogRow(k.email, k.chat, 0, 0, true, Parsed(m), 0, Never, false)]
  {
    var s1 := Apply(Init(0), Receive(k, m));
    assert [] + [m] == [m];
    assert s1.buffer == map[k := [m]] && s1.rows == map[];
    var s2 := Apply(s1, Log(k, m, true));
    assert s2.rows == map[m.id := LogRow(k.email, k.chat, 0, 0, true, Parsed(m), 0, Never, false)];
    s := Apply(s2, Tick(GRACE));
    assert s.rows == s2.rows;
    steps := [Receive(k, m), Log(k, m, true), Tick(GRACE)];
    Chain(Init(0), steps, [s1, s2, s]);
  }

  lemma QueryThenDrain(s: State, k: Key, m: Msg) returns (steps: seq<Step>, t: State)
    requires s.now == GRACE && s.buffer == map[k := [m]]
    requires m.time == 0 && s.rows == map[m.id := LogRow(k.email, k.chat, 0, 0, true, Parsed(m), 0, Never, false)]
    ensures Runs(s, steps, t) && |steps| == 2
    ensures t.rows == s.rows && t.buffer == map[] && (k.email, m.id) in t.drained
    ensures Batch(t, k.email) == [Row(m.id, k.chat, Parsed(m))]
  {
    var row := Row(m.id, k.chat, Parsed(m));
    var select, drain := Select(k.email, [row]), Drain(k.email);
    assert Replayable(s.rows[m.id], k.email, s.now);
    assert Enabled(s, select);
    var s4 := Apply(s, select);
    assert s4.rows == s.rows;
    t := Apply(s4, drain);
    assert k in s4.buffer && m in s4.buffer[k];
    assert t.rows == s4.rows;
    steps := [select, drain];
    Chain(s, steps, [s4, t]);
  }

  lemma AckThenReinsert(s: State, k: Key, m: Msg) returns (steps: seq<Step>, t: State)
    requires m.id in s.rows && s.rows[m.id].email == k.email && (k.email, m.id) in s.drained && s.buffer == map[]
    requires Batch(s, k.email) == [Row(m.id, k.chat, Parsed(m))]
    ensures Runs(s, steps, t)
    ensures m.id in t.rows && t.rows[m.id].processed && m.id in Ids(Buffered(t, k))
  {
    var ack, requeue := Ack(k.email, {m.id}, true), Requeue(k, [m.(isReplay := true)]);
    var s6 := AckedState(s, k, m);
    t := RequeuedState(s6, k, m);
    steps := [ack, requeue];
    Chain(s, steps, [s6, t]);
  }

  lemma AckedState(s: State, k: Key, m: Msg) returns (t: State)
    requires m.id in s.rows && s.rows[m.id].email == k.email && (k.email, m.id) in s.drained && s.buffer == map[]
    ensures Enabled(s, Ack(k.email, {m.id}, true)) && t == Apply(s, Ack(k.email, {m.id}, true))
    ensures m.id in t.rows && t.rows[m.id].processed && t.buffer == map[] && Batch(t, k.email) == Batch(s, k.email)
  {
    t := Apply(s, Ack(k.email, {m.id}, true));
    RowKeepsIdentity(s, Ack(k.email, {m.id}, true), m.id);
  }

  lemma RequeuedState(s: State, k: Key, m: Msg) returns (t: State)
    requires m.id in s.rows && s.rows[m.id].processed && s.buffer == map[]
    requires Batch(s, k.email) == [Row(m.id, k.chat, Parsed(m))]
    ensures Enabled(s, Requeue(k, [m.(isReplay := true)])) && t == Apply(s, Requeue(k, [m.(isReplay := true)]))
    ensures m.id in t.rows && t.rows[m.id].processed && m.id in Ids(Buffered(t, k))
  {
    var again := m.(isReplay := true);
    OneRowReplay(Row(m.id, k.chat, Parsed(m)));
    assert Buffered(s, k) == [];
    t := Apply(s, Requeue(k, [again]));
    RowKeepsIdentity(s, Requeue(k, [again]), m.id);
    assert Buffered(t, k) == [again] && again in [again];
  }

  /** The property that processed rows are never requeued fails when a scan drains, finishes and
      acknowledges the message between the query and the reinsertion. */
  lemma ProcessedRowIsRequeued()
    returns (first: seq<Step>, s: State, second: seq<Step>, u: State, last: seq<Step>, t: State, k: Key, id: string)
    ensures Runs(Init(0), first, s) && Runs(s, second, u) && Runs(u, last, t)
    ensures id in t.rows && t.rows[id].processed && id in Ids(Buffered(t, k))
  {
    k, id := Key("u", "c"), "m";
    var m := Msg(id, 0, "hi", false);
    first, s := UnscannedState(k, m);
    second, u := QueryThenDrain(s, k, m);
    last, t := AckThenReinsert(u, k, m);
  }

  lemma OneRowReplay(row: Row)
    requires row.payload.Parsed?
    ensures var m := row.payload.msg.(isReplay := true); ReplayResult([], Oldest(Parsable([row], row.chat)), [m])
  {
    var m := row.payload.msg.(isReplay := true);
    assert [row][..0] == [];
    assert Parsable([row], row.chat) == [m];
    assert Ids([]) == {};
    assert Unseen({}, [m]) == [m] by { assert [m][1..] == []; }
    assert [] + [m] == [m];
    assert Merges([], [m], [m]);
    assert Newest([m]) == [m];
  }

  /** A run is its chain of intermediate states. */
  lemma {:induction false} Chain(s: State, steps: seq<Step>, states: seq<State>)
    requires |steps| == |states| && |steps| > 0
    requires Enabled(s, steps[0]) && states[0] == Apply(s, steps[0])
    requires forall i ::
      0 < i < |steps| ==> Enabled(states[i - 1], steps[i]) && states[i] == Apply(states[i - 1], steps[i])
    ensures Runs(s, steps, states[|states| - 1])
    decreases |steps|
  {
    if |steps| > 1 {
      Chain(states[0], steps[1..], states[1..]);
    }
  }

  // ---------- One log for several accounts ----------

  /** A row's account never changes. */
  lemma {:induction false} OwnerNeverChanges(s: State, steps: seq<Step>, t: State, id: string)
    requires Runs(s, steps, t) && id in s.rows
    ensures id in t.rows && t.rows[id].email == s.rows[id].email
    decreases |steps|
  {
    if steps != [] {
      RowKeepsIdentity(s, steps[0], id);
      OwnerNeverChanges(Apply(s, steps[0]), steps[1..], t, id);
    }
  }

  /** message_id is unique over the whole table: a message that an account logs belongs to that account, for
      good, if and only if no other account had logged it before; otherwise no query of the account ever
      returns it. */
  lemma LoggedForAccountIff(s: State, k: Key, m: Msg, captured: bool, steps: seq<Step>, t: State)
    requires Runs(Apply(s, Log(k, m, captured)), steps, t)
    ensures m.id in t.rows
    ensures t.rows[m.id].email == k.email <==> m.id !in s.rows || s.rows[m.id].email == k.email
    ensures t.rows[m.id].email != k.email ==> forall now :: !Replayable(t.rows[m.id], k.email, now)
  {
    var u := Apply(s, Log(k, m, captured));
    if m.id in s.rows { RowKeepsIdentity(s, Log(k, m, captured), m.id); }
    OwnerNeverChanges(u, steps, t, m.id);
  }
}
