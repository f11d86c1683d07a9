/** How long a logged WhatsApp message can wait (scanner/wa_replay.go, scanner/scanner_whatsapp.go): rounds of
    one replay cycle followed by one scan of the account, with anything at all in between. */
module WaRounds {
  import opened ChatBuffers
  import opened WaReplay
  import opened WaProtocol
  import opened WaDelivery

  /** Everything buffered for an account. */
  ghost function AccountIds(s: State, email: string): set<string> {
    set k, m | k in s.buffer && k.email == email && m in s.buffer[k] :: m.id
  }

  /** The chat of the oldest selected row has room for a cycle's 149 messages. */
  predicate Room(s: State, email: string, sel: seq<Row>) {
    sel == [] || |Buffered(s, Key(email, sel[0].chat))| + PER_CHAT_MAX <= CAP
  }

  /** Any steps up to `start`, other cycles and scans included, an uninterrupted cycle up to `full`, and a scan that
      holds all it drains. */
  datatype Round = Round(gap: seq<Step>, start: State, sel: seq<Row>, rs: seq<Step>, full: State, end: State)

  ghost predicate Plays(s: State, email: string, r: Round) {
    && Runs(s, r.gap, r.start)
    && Runs(r.start, CycleSteps(email, r.sel, r.rs), r.full) && Requeues(email, r.sel, r.rs)
    && Runs(r.full, [Drain(email), Hold(email, AccountIds(r.full, email))], r.end)
  }

  ghost predicate IsRound(s: State, email: string, r: Round) {
    Plays(s, email, r) && Room(r.start, email, r.sel)
  }

  ghost predicate Rounds(s: State, email: string, rounds: seq<Round>, t: State)
    decreases |rounds|
  {
    if rounds == [] then s == t
    else IsRound(s, email, rounds[0]) && Rounds(rounds[0].end, email, rounds[1..], t)
  }

  /** The row is due when the cycle starts, and the scan after the cycle does not get it. */
  ghost predicate Waits(email: string, id: string, r: Round) {
    Due(r.start, email, id) && id !in AccountIds(r.full, email)
  }

  ghost predicate AllWait(email: string, id: string, rounds: seq<Round>) {
    forall i :: 0 <= i < |rounds| ==> Waits(email, id, rounds[i])
  }

  lemma FirstWaits(email: string, id: string, rounds: seq<Round>)
    requires AllWait(email, id, rounds) && rounds != []
    ensures Waits(email, id, rounds[0]) && AllWait(email, id, rounds[1..])
  {
    assert forall i :: 0 <= i < |rounds[1..]| ==> rounds[1..][i] == rounds[i + 1];
  }

  // ---------- Attempts that are left ----------

  /** A row that is yet to be logged has all of its attempts. */
  function LeftOf(s: State, id: string): nat { if id in s.rows then Remaining(s.rows[id]) else MAX_ATTEMPTS }

  ghost function Left(s: State, ids: set<string>): nat
    decreases ids
  {
    if ids == {} then 0
    else
      var id :| id in ids;
      LeftOf(s, id) + Left(s, ids - {id})
  }

  lemma {:induction false} LeftWithout(s: State, ids: set<string>, id: string)
    requires id in ids
    ensures Left(s, ids) == LeftOf(s, id) + Left(s, ids - {id})
    decreases ids
  {
    var d :| d in ids && Left(s, ids) == LeftOf(s, d) + Left(s, ids - {d});
    if d != id {
      LeftWithout(s, ids - {d}, id);
      LeftWithout(s, ids - {id}, d);
      assert ids - {d} - {id} == ids - {id} - {d};
    }
  }

  lemma {:induction false} LeftFalls(s: State, t: State, ids: set<string>)
    requires forall id :: id in ids ==> LeftOf(t, id) <= LeftOf(s, id)
    ensures Left(t, ids) <= Left(s, ids)
    decreases ids
  {
    if ids != {} {
      var id :| id in ids;
      LeftWithout(s, ids, id);
      LeftWithout(t, ids, id);
      LeftFalls(s, t, ids - {id});
    }
  }

  lemma {:induction false} LeftIsAtMost(s: State, ids: set<string>)
    ensures Left(s, ids) <= MAX_ATTEMPTS * |ids|
    decreases ids
  {
    if ids != {} {
      var id :| id in ids;
      LeftWithout(s, ids, id);
      LeftIsAtMost(s, ids - {id});
    }
  }

  /** Rows keep their account and time, and attempts are never given back. */
  lemma {:induction false} RunSpends(s: State, steps: seq<Step>, t: State, id: string)
    requires Runs(s, steps, t)
    ensures LeftOf(t, id) <= LeftOf(s, id)
    ensures id in s.rows ==>
              id in t.rows && t.rows[id].email == s.rows[id].email && t.rows[id].ts == s.rows[id].ts
    decreases |steps|
  {
    if steps != [] {
      if id in s.rows { RowKeepsIdentity(s, steps[0], id); }
      RunSpends(Apply(s, steps[0]), steps[1..], t, id);
    }
  }

  lemma RoundSpends(s: State, email: string, r: Round, id: string)
    requires IsRound(s, email, r)
    ensures LeftOf(r.end, id) <= LeftOf(r.full, id) <= LeftOf(r.start, id) <= LeftOf(s, id)
    ensures id in r.start.rows ==>
              id in r.end.rows && r.end.rows[id].email == r.start.rows[id].email
              && r.end.rows[id].ts == r.start.rows[id].ts
  {
    RunSpends(s, r.gap, r.start, id);
    RunSpends(r.start, CycleSteps(email, r.sel, r.rs), r.full, id);
    RunSpends(r.full, [Drain(email), Hold(email, AccountIds(r.full, email))], r.end, id);
  }

  lemma {:induction false} RoundsSpend(s: State, email: string, rounds: seq<Round>, t: State, id: string)
    requires Rounds(s, email, rounds, t) && id in s.rows
    ensures id in t.rows && t.rows[id].email == s.rows[id].email && t.rows[id].ts == s.rows[id].ts
    decreases |rounds|
  {
    if rounds != [] {
      RunSpends(s, rounds[0].gap, rounds[0].start, id);
      RoundSpends(s, email, rounds[0], id);
      RoundsSpend(rounds[0].end, email, rounds[1..], t, id);
    }
  }

  // ---------- What a round uses up ----------

  /** With room in its chat, the oldest selected row reaches the buffer. */
  lemma FirstIsDelivered(s: State, email: string, sel: seq<Row>, rs: seq<Step>, t: State)
    requires Inv(s) && Room(s, email, sel)
    requires Runs(s, CycleSteps(email, sel, rs), t) && Requeues(email, sel, rs)
    requires sel != [] && sel[0].payload.Parsed?
    ensures sel[0].messageId in Ids(Buffered(t, Key(email, sel[0].chat)))
  {
    var k, id := Key(email, sel[0].chat), sel[0].messageId;
    var merged := CycleDelivers(s, email, sel, rs, t, k.chat, id);
    var kept := Oldest(Parsable(sel, k.chat));
    assert Parsable(sel[..0], k.chat) == [];
    assert KeptRow(sel, k.chat, id);
    var u := CycleOpens(s, email, sel, rs, t);
    KeptIdsAre(sel, k.chat, id);
    ArrangedIds(Buffered(s, k), kept, merged);
    assert id in Ids(merged);
    var m :| m in merged && m.id == id;
    var p :| 0 <= p < |merged| && merged[p] == m;
  }

  lemma BufferedIsAccounted(s: State, k: Key, id: string)
    requires id in Ids(Buffered(s, k))
    ensures id in AccountIds(s, k.email)
  {
    var m :| m in Buffered(s, k) && m.id == id;
    assert k in s.buffer && m in s.buffer[k];
  }

  /** A scan charges an attempt to every pending row that it drained. */
  lemma ScanCharges(s: State, email: string, t: State, id: string)
    requires Runs(s, [Drain(email), Hold(email, AccountIds(s, email))], t)
    requires id in AccountIds(s, email) && id in s.rows && s.rows[id].email == email && Remaining(s.rows[id]) > 0
    ensures LeftOf(t, id) < LeftOf(s, id)
  {
    var hold := Hold(email, AccountIds(s, email));
    var steps := [Drain(email), hold];
    assert steps[0] == Drain(email) && steps[1..] == [hold];
    var s1 := Apply(s, Drain(email));
    assert [hold][0] == hold && [hold][1..] == [];
    assert Runs(Apply(s1, hold), [], t);
    RowKeepsIdentity(s, Drain(email), id);
    RowKeepsIdentity(s1, hold, id);
  }

  /** Each round costs the oldest selected row an attempt: as malformed, or in the scan. */
  lemma FirstIsCharged(s: State, email: string, r: Round)
    requires Inv(s) && IsRound(s, email, r) && r.sel != []
    ensures LeftOf(r.end, r.sel[0].messageId) < LeftOf(s, r.sel[0].messageId)
    ensures r.sel[0].payload.Parsed? ==> r.sel[0].messageId in AccountIds(r.full, email)
  {
    var id := r.sel[0].messageId;
    RunKeepsInv(s, r.gap, r.start);
    CycleKeepsRow(r.start, email, r.sel, r.rs, r.full, 0);
    RoundSpends(s, email, r, id);
    if r.sel[0].payload.Parsed? {
      FirstIsDelivered(r.start, email, r.sel, r.rs, r.full);
      BufferedIsAccounted(r.full, Key(email, r.sel[0].chat), id);
      ScanCharges(r.full, email, r.end, id);
    }
  }

  /** The account's rows that are not younger than this one. */
  ghost function Ahead(t: State, email: string, id: string): set<string>
    requires id in t.rows
  {
    set j | j in t.rows && j != id && t.rows[j].email == email && t.rows[j].ts <= t.rows[id].ts
  }

  lemma RowLasts(s: State, email: string, rounds: seq<Round>, t: State, id: string)
    requires Rounds(s, email, rounds, t) && rounds != [] && id in rounds[0].start.rows
    ensures var start := rounds[0].start;
      id in t.rows && t.rows[id].email == start.rows[id].email && t.rows[id].ts == start.rows[id].ts
  {
    RoundSpends(s, email, rounds[0], id);
    RoundsSpend(rounds[0].end, email, rounds[1..], t, id);
  }

  /** The oldest selected row of a round in which another row waits stands ahead of that row. */
  lemma {:induction false} FirstIsAhead(s: State, email: string, rounds: seq<Round>, t: State, id: string)
    requires Inv(s) && Rounds(s, email, rounds, t) && rounds != [] && Waits(email, id, rounds[0])
    ensures rounds[0].sel != [] && id in t.rows && rounds[0].sel[0].messageId in Ahead(t, email, id)
  {
    var r := rounds[0];
    RunKeepsInv(s, r.gap, r.start);
    var steps := CycleSteps(email, r.sel, r.rs);
    assert steps[0] == Select(email, r.sel);
    SelectedOrCrowdedOut(r.start, email, r.sel, id);
    CycleKeepsRow(r.start, email, r.sel, r.rs, r.full, 0);
    FirstIsCharged(s, email, r);
    var first := r.sel[0].messageId;
    RowLasts(s, email, rounds, t, first);
    RowLasts(s, email, rounds, t, id);
  }

  lemma RoundKeepsInv(s: State, email: string, r: Round)
    requires Inv(s) && IsRound(s, email, r)
    ensures Inv(r.end)
  {
    RunKeepsInv(s, r.gap, r.start);
    RunKeepsInv(r.start, CycleSteps(email, r.sel, r.rs), r.full);
    RunKeepsInv(r.full, [Drain(email), Hold(email, AccountIds(r.full, email))], r.end);
  }

  lemma RoundCosts(s: State, email: string, r: Round, ahead: set<string>)
    requires Inv(s) && IsRound(s, email, r) && r.sel != [] && r.sel[0].messageId in ahead
    ensures Left(r.end, ahead) < Left(s, ahead)
  {
    var first := r.sel[0].messageId;
    FirstIsCharged(s, email, r);
    forall j | j in ahead - {first} ensures LeftOf(r.end, j) <= LeftOf(s, j) {
      RoundSpends(s, email, r, j);
    }
    LeftFalls(s, r.end, ahead - {first});
    LeftWithout(s, ahead, first);
    LeftWithout(r.end, ahead, first);
  }

  /** One more round of waiting, and what is left pays for the others. */
  lemma WaitGoesOn(s: State, email: string, rounds: seq<Round>, t: State, id: string, ahead: set<string>)
    requires Inv(s) && Rounds(s, email, rounds, t) && rounds != [] && Waits(email, id, rounds[0])
    requires id in t.rows && ahead == Ahead(t, email, id)
    ensures Inv(rounds[0].end) && Left(rounds[0].end, ahead) < Left(s, ahead)
  {
    FirstIsAhead(s, email, rounds, t, id);
    RoundCosts(s, email, rounds[0], ahead);
    RoundKeepsInv(s, email, rounds[0]);
  }

  lemma {:induction false} WaitIsPaidFor(s: State, email: string, rounds: seq<Round>, t: State, id: string)
    requires Inv(s) && Rounds(s, email, rounds, t) && id in t.rows
    requires AllWait(email, id, rounds)
    ensures |rounds| <= Left(s, Ahead(t, email, id))
    decreases |rounds|
  {
    if rounds != [] {
      FirstWaits(email, id, rounds);
      WaitGoesOn(s, email, rounds, t, id, Ahead(t, email, id));
      WaitIsPaidFor(rounds[0].end, email, rounds[1..], t, id);
    }
  }

  /** Main result: however the rounds interleave with other traffic, a due row is left out of at most three
      rounds for every row of its account that is not younger. */
  lemma WaitIsBounded(s: State, email: string, rounds: seq<Round>, t: State, id: string)
    requires Inv(s) && Rounds(s, email, rounds, t) && id in t.rows
    requires |rounds| > MAX_ATTEMPTS * |Ahead(t, email, id)|
    ensures exists i ::
      0 <= i < |rounds| && (id in AccountIds(rounds[i].full, email) || !Due(rounds[i].start, email, id))
  {
    if AllWait(email, id, rounds) {
      WaitIsPaidFor(s, email, rounds, t, id);
      LeftIsAtMost(s, Ahead(t, email, id));
    }
  }
}
