/** Why a wait is bounded only while the buffer has room (channels/msgbuffer.go, scanner/wa_replay.go): before every
    cycle two hundred newer messages reach the chat and the log, the replayed message is cut at once, and its row
    stays as it was, however often this happens, although every newer message is scanned and acknowledged. */
module WaStarvation {
  import opened ChatBuffers
  import opened WaReplay
  import opened WaProtocol
  import opened WaDelivery
  import opened WaRounds

  const KEY: Key := Key("u", "c")
  const MSG: Msg := Msg("m", 0, "hi", false)
  const ROW: Row := Row("m", "c", Parsed(MSG))
  const AGAIN: Msg := Msg("m", 0, "hi", true)
  const LOGGED: LogRow := LogRow("u", "c", 0, 0, true, Parsed(MSG), 0, Never, false)

  /** Other people's messages; `base` keeps the ids of different rounds apart. */
  function News(base: nat, n: nat, time: int): seq<Msg> {
    seq(n, i requires 0 <= i < n => Msg(seq(base + i + 1, _ => 'x'), time, "", false))
  }

  lemma NewsAreOthers(base: nat, n: nat, time: int)
    ensures "m" !in Ids(News(base, n, time))
  {
    var news := News(base, n, time);
    forall x | x in news ensures x.id != "m" {
      var i :| 0 <= i < |news| && news[i] == x;
      assert x.id[0] == 'x';
    }
  }

  lemma NewsGrow(base: nat, n: nat, time: int)
    requires n > 0
    ensures News(base, n, time) == News(base, n - 1, time) + [News(base, n, time)[n - 1]]
  {
  }

  lemma {:induction false} RunsOn(s: State, a: seq<Step>, t: State, b: seq<Step>, u: State)
    requires Runs(s, a, t) && Runs(t, b, u)
    ensures Runs(s, a + b, u)
    decreases |a|
  {
    if a == [] {
      assert a + b == b;
    } else {
      RunsOn(Apply(s, a[0]), a[1..], t, b, u);
      assert (a + b)[1..] == a[1..] + b;
    }
  }

  lemma OneStep(s: State, step: Step)
    requires Enabled(s, step)
    ensures Runs(s, [step], Apply(s, step))
  {
    assert [step][0] == step && [step][1..] == [];
    assert Runs(Apply(s, step), [], Apply(s, step));
  }

  // ---------- What the steps of a round do ----------

  lemma KeepsRows(s: State, step: Step)
    requires step.Tick? || step.Receive? || step.Drain? || step.Select? || step.Requeue? || step.Crash?
    ensures Apply(s, step).rows == s.rows
  {
    assert forall id :: id in s.rows ==> RowAfter(s, step, id) == s.rows[id];
  }

  /** The row is logged, due, and nowhere in memory; every other row is processed, or one of `open`, which were
      logged at this moment. */
  ghost predicate Stuck(s: State, open: set<string>) {
    && "m" in s.rows && s.rows["m"] == LOGGED && GRACE <= s.now <= LOOKBACK && "m" !in open
    && forall id :: id in s.rows && id != "m" ==> Rests(s, open, id)
  }

  predicate Rests(s: State, open: set<string>, id: string)
    requires id in s.rows
  {
    s.rows[id].email == "u" && (s.rows[id].processed || (id in open && s.rows[id].created == s.now))
  }

  lemma AfterReceive(s: State, news: seq<Msg>, x: Msg) returns (t: State)
    requires Buffered(s, KEY) == news && |news| < CAP && s.buffer.Keys <= {KEY}
    ensures t == Apply(s, Receive(KEY, x)) && t.rows == s.rows && t.now == s.now
    ensures Buffered(t, KEY) == news + [x] && t.buffer.Keys <= {KEY} && KEY in t.buffer
  {
    t := Apply(s, Receive(KEY, x));
    KeepsRows(s, Receive(KEY, x));
  }

  lemma AfterLog(s: State, open: set<string>, x: Msg) returns (t: State)
    requires Stuck(s, open) && x.id != "m"
    ensures t == Apply(s, Log(KEY, x, true)) && t.now == s.now && t.buffer == s.buffer
    ensures Stuck(t, open + {x.id}) && x.id in t.rows
  {
    var step := Log(KEY, x, true);
    t := Apply(s, step);
    forall id | id in t.rows && id != "m" ensures Rests(t, open + {x.id}, id) {
      if id in s.rows { RowKeepsIdentity(s, step, id); }
    }
    RowKeepsIdentity(s, step, "m");
  }

  /** Every message received is logged at once. */
  ghost predicate LogsAll(steps: seq<Step>) {
    forall i :: 0 <= i < |steps| && steps[i].Receive? ==> LogsNext(steps, i)
  }

  predicate LogsNext(steps: seq<Step>, i: nat)
    requires i < |steps| && steps[i].Receive?
  {
    i + 1 < |steps| && steps[i + 1] == Log(steps[i].k, steps[i].m, true)
  }

  lemma LogsOneMore(steps: seq<Step>, x: Msg)
    requires LogsAll(steps)
    ensures LogsAll(steps + [Receive(KEY, x), Log(KEY, x, true)])
  {
    var all := steps + [Receive(KEY, x), Log(KEY, x, true)];
    forall i | 0 <= i < |all| && all[i].Receive? ensures LogsNext(all, i) {
      if i < |steps| { assert steps[i].Receive? && LogsNext(steps, i); }
    }
  }

  /** n messages reach the chat and the log. */
  lemma {:induction false} Receives(s: State, base: nat, n: nat, time: int) returns (steps: seq<Step>, t: State)
    requires Stuck(s, {}) && s.buffer == map[] && n <= CAP
    ensures Runs(s, steps, t) && LogsAll(steps) && t.now == s.now && Buffered(t, KEY) == News(base, n, time)
    ensures Stuck(t, Ids(News(base, n, time))) && t.buffer.Keys <= {KEY} && (n > 0 ==> KEY in t.buffer)
    decreases n
  {
    if n == 0 {
      steps, t := [], s;
      assert News(base, 0, time) == [] && Ids([]) == {};
    } else {
      var front, u := Receives(s, base, n - 1, time);
      var more;
      var x := News(base, n, time)[n - 1];
      NewsGrow(base, n, time);
      NewsAreOthers(base, n, time);
      assert x in News(base, n, time);
      more, t := ReceiveOne(u, News(base, n - 1, time), x);
      RunsOn(s, front, u, more, t);
      LogsOneMore(front, x);
      steps := front + more;
    }
  }

  lemma ReceiveOne(u: State, news: seq<Msg>, x: Msg) returns (more: seq<Step>, t: State)
    requires Stuck(u, Ids(news)) && Buffered(u, KEY) == news && |news| < CAP && u.buffer.Keys <= {KEY} && x.id != "m"
    ensures more == [Receive(KEY, x), Log(KEY, x, true)] && Runs(u, more, t) && t.now == u.now
    ensures Stuck(t, Ids(news + [x])) && Buffered(t, KEY) == news + [x] && t.buffer.Keys <= {KEY} && KEY in t.buffer
  {
    IdsOneMore(news, x);
    var v := AfterReceive(u, news, x);
    t := AfterLog(v, Ids(news), x);
    TwoSteps(u, Receive(KEY, x), Log(KEY, x, true));
    more := [Receive(KEY, x)] + [Log(KEY, x, true)];
  }

  lemma IdsOneMore(s: seq<Msg>, x: Msg)
    ensures Ids(s + [x]) == Ids(s) + {x.id}
  {
    assert forall m :: m in s + [x] <==> m in s || m == x;
  }

  lemma RunsOneMore(s: State, front: seq<Step>, u: State, step: Step)
    requires Runs(s, front, u) && Enabled(u, step)
    ensures Runs(s, front + [step], Apply(u, step))
  {
    OneStep(u, step);
    RunsOn(s, front, u, [step], Apply(u, step));
  }

  lemma RowIsSelected(s: State, open: set<string>)
    requires Stuck(s, open)
    ensures Enabled(s, Select("u", [ROW])) && Due(s, "u", "m")
  {
    assert Replayable(s.rows["m"], "u", s.now);
    forall id | id in s.rows && id != "m" ensures !Replayable(s.rows[id], "u", s.now) {
      assert Rests(s, open, id);
    }
    assert [ROW][0].messageId == "m";
  }

  lemma OneRowKept()
    ensures Oldest(Parsable([ROW], "c")) == [AGAIN] && MalformedIds([ROW]) == []
  {
    assert [ROW][..0] == [];
  }

  /** A full buffer of messages that are not older than the row's. */
  ghost predicate FullOfNews(news: seq<Msg>) {
    |news| == CAP && "m" !in Ids(news) && SortedByTime(news) && forall i :: 0 <= i < |news| ==> news[i].time >= 0
  }

  lemma NewsFill(base: nat, time: int)
    requires time >= 0
    ensures FullOfNews(News(base, CAP, time))
  {
    NewsAreOthers(base, CAP, time);
  }

  /** Into such a buffer the replayed message does not get. */
  lemma CutAtOnce(news: seq<Msg>)
    requires FullOfNews(news)
    ensures ReplayResult(news, [AGAIN], news)
  {
    assert [AGAIN][1..] == [] && Unseen(Ids(news), [AGAIN]) == [AGAIN];
    var merged := [AGAIN] + news;
    MergedIsSorted(news, merged);
    assert merged[1..] == news && Newest(merged) == news;
    assert Merges(news, [AGAIN], merged);
  }

  lemma MergedIsSorted(news: seq<Msg>, merged: seq<Msg>)
    requires FullOfNews(news) && merged == [AGAIN] + news
    ensures SortedByTime(merged) && multiset(merged) == multiset(news + [AGAIN])
  {
    assert forall i :: 0 < i < |merged| ==> merged[i] == news[i - 1];
  }

  lemma AfterSelect(s: State, open: set<string>) returns (t: State)
    requires Stuck(s, open)
    ensures Enabled(s, Select("u", [ROW])) && t == Apply(s, Select("u", [ROW]))
    ensures Stuck(t, open) && t.buffer == s.buffer && t.now == s.now && Batch(t, "u") == [ROW]
  {
    RowIsSelected(s, open);
    t := Apply(s, Select("u", [ROW]));
    KeepsRows(s, Select("u", [ROW]));
  }

  lemma AfterFail(s: State, open: set<string>) returns (t: State)
    requires Stuck(s, open) && Batch(s, "u") == [ROW]
    ensures t == Apply(s, Fail("u"))
    ensures Stuck(t, open) && t.buffer == s.buffer && t.now == s.now && Batch(t, "u") == [ROW]
  {
    OneRowKept();
    t := Apply(s, Fail("u"));
    forall id | id in s.rows ensures t.rows[id] == s.rows[id] { RowKeepsIdentity(s, Fail("u"), id); }
    assert t.rows == s.rows;
  }

  lemma AfterRequeue(s: State, open: set<string>, news: seq<Msg>) returns (t: State)
    requires Stuck(s, open) && Batch(s, "u") == [ROW] && s.buffer == map[KEY := news] && FullOfNews(news)
    ensures Enabled(s, Requeue(KEY, news)) && t == Apply(s, Requeue(KEY, news))
    ensures Stuck(t, open) && t.buffer == s.buffer && t.now == s.now
  {
    OneRowKept();
    CutAtOnce(news);
    t := Apply(s, Requeue(KEY, news));
    KeepsRows(s, Requeue(KEY, news));
    assert t.buffer == s.buffer;
  }

  lemma OneRequeue(news: seq<Msg>)
    ensures Requeues("u", [ROW], [Requeue(KEY, news)])
  {
    assert [Requeue(KEY, news)][0].k == Key("u", ROW.chat);
  }

  /** The cycle: query, count of malformed rows, reinsertion. */
  lemma CycleCuts(s: State, open: set<string>, news: seq<Msg>) returns (rs: seq<Step>, t: State)
    requires Stuck(s, open) && s.buffer == map[KEY := news] && FullOfNews(news)
    ensures Runs(s, CycleSteps("u", [ROW], rs), t) && Requeues("u", [ROW], rs)
    ensures Stuck(t, open) && t.buffer == s.buffer && t.now == s.now
  {
    var s1 := AfterSelect(s, open);
    var s2 := AfterFail(s1, open);
    t := AfterRequeue(s2, open, news);
    rs := [Requeue(KEY, news)];
    OneRequeue(news);
    ThreeSteps(s, Select("u", [ROW]), Fail("u"), Requeue(KEY, news));
    assert CycleSteps("u", [ROW], rs) == [Select("u", [ROW])] + [Fail("u")] + [Requeue(KEY, news)];
  }

  lemma TwoSteps(s: State, a: Step, b: Step)
    requires Enabled(s, a) && Enabled(Apply(s, a), b)
    ensures Runs(s, [a] + [b], Apply(Apply(s, a), b))
  {
    OneStep(s, a);
    OneStep(Apply(s, a), b);
    RunsOn(s, [a], Apply(s, a), [b], Apply(Apply(s, a), b));
  }

  lemma ThreeSteps(s: State, a: Step, b: Step, c: Step)
    requires Enabled(s, a) && Enabled(Apply(s, a), b) && Enabled(Apply(Apply(s, a), b), c)
    ensures Runs(s, [a] + [b] + [c], Apply(Apply(Apply(s, a), b), c))
  {
    TwoSteps(s, a, b);
    var u := Apply(Apply(s, a), b);
    OneStep(u, c);
    RunsOn(s, [a] + [b], u, [c], Apply(u, c));
  }

  lemma AfterDrain(s: State, open: set<string>, news: seq<Msg>) returns (t: State)
    requires Stuck(s, open) && s.buffer == map[KEY := news]
    ensures t == Apply(s, Drain("u")) && Stuck(t, open) && t.buffer == map[] && t.now == s.now
    ensures forall id :: id in Ids(news) ==> ("u", id) in t.drained
  {
    t := Apply(s, Drain("u"));
    KeepsRows(s, Drain("u"));
    forall id | id in Ids(news) ensures ("u", id) in t.drained {
      var m :| m in news && m.id == id;
      assert KEY in s.buffer && m in s.buffer[KEY];
    }
  }

  lemma AfterHold(s: State, open: set<string>, ids: set<string>) returns (t: State)
    requires Stuck(s, open) && "m" !in ids
    ensures t == Apply(s, Hold("u", ids)) && Stuck(t, open) && t.buffer == s.buffer && t.now == s.now
    ensures t.drained == s.drained
  {
    t := Apply(s, Hold("u", ids));
    RowKeepsIdentity(s, Hold("u", ids), "m");
    forall id | id in t.rows && id != "m" ensures Rests(t, open, id) {
      RowKeepsIdentity(s, Hold("u", ids), id);
      assert Rests(s, open, id);
    }
  }

  /** The newer messages are acknowledged, and their rows are processed. */
  lemma AfterAck(s: State, open: set<string>) returns (t: State)
    requires Stuck(s, open) && s.buffer == map[]
    ensures t == Apply(s, Ack("u", open, true)) && Stuck(t, {}) && t.buffer == map[] && t.now == s.now
  {
    var step := Ack("u", open, true);
    t := Apply(s, step);
    RowKeepsIdentity(s, step, "m");
    forall id | id in t.rows && id != "m" ensures Rests(t, {}, id) {
      RowKeepsIdentity(s, step, id);
      assert Rests(s, open, id);
    }
  }

  lemma NewsAreAccounted(s: State, news: seq<Msg>)
    requires s.buffer == map[KEY := news]
    ensures AccountIds(s, "u") == Ids(news)
  {
    forall id | id in Ids(news) ensures id in AccountIds(s, "u") {
      var m :| m in news && m.id == id;
      assert KEY in s.buffer && m in s.buffer[KEY];
    }
  }

  /** The scan drains the newer messages and holds them; the row is not among them. */
  lemma ScanMisses(s: State, news: seq<Msg>) returns (t: State)
    requires Stuck(s, Ids(news)) && s.buffer == map[KEY := news] && FullOfNews(news)
    ensures "m" !in AccountIds(s, "u")
    ensures Runs(s, [Drain("u"), Hold("u", AccountIds(s, "u"))], t)
    ensures Scanned(t, Ids(news)) && t.now == s.now
  {
    NewsAreAccounted(s, news);
    var ids := AccountIds(s, "u");
    var s1 := AfterDrain(s, ids, news);
    t := AfterHold(s1, ids, ids);
    TwoSteps(s, Drain("u"), Hold("u", ids));
    assert [Drain("u")] + [Hold("u", ids)] == [Drain("u"), Hold("u", ids)];
  }

  /** What a scan leaves: all of `open` was handed to it, and nothing is buffered. */
  ghost predicate Scanned(s: State, open: set<string>) {
    Stuck(s, open) && s.buffer == map[] && forall id :: id in open ==> ("u", id) in s.drained
  }

  /** The last scan acknowledges what it was handed, and time passes. */
  lemma AckAndPause(s: State, open: set<string>, pause: nat) returns (t: State)
    requires Scanned(s, open) && s.now + pause <= LOOKBACK
    ensures Runs(s, [Ack("u", open, true)] + [Tick(pause)], t)
    ensures Stuck(t, {}) && t.buffer == map[] && t.now == s.now + pause
  {
    var u := AfterAck(s, open);
    t := Apply(u, Tick(pause));
    KeepsRows(u, Tick(pause));
    forall id | id in t.rows && id != "m" ensures Rests(t, {}, id) { assert Rests(u, {}, id); }
    TwoSteps(s, Ack("u", open, true), Tick(pause));
  }

  /** An acknowledgement, a pause, and two hundred messages reach the chat and the log. */
  lemma ChatFills(s: State, open: set<string>, pause: nat, base: nat)
    returns (gap: seq<Step>, start: State, news: seq<Msg>)
    requires Scanned(s, open) && s.now + pause <= LOOKBACK
    ensures Runs(s, gap, start) && IsGap(gap, open, pause)
    ensures Stuck(start, Ids(news)) && start.buffer == map[KEY := news] && FullOfNews(news)
    ensures start.now == s.now + pause
  {
    var later := AckAndPause(s, open, pause);
    var first, steps := [Ack("u", open, true)] + [Tick(pause)], [];
    steps, start := Receives(later, base, CAP, later.now);
    RunsOn(s, first, later, steps, start);
    gap, news := first + steps, News(base, CAP, later.now);
    NewsFill(base, later.now);
    assert start.buffer == map[KEY := news];
    GapLogs(open, pause, steps);
  }

  lemma GapLogs(open: set<string>, pause: nat, steps: seq<Step>)
    requires LogsAll(steps)
    ensures IsGap([Ack("u", open, true)] + [Tick(pause)] + steps, open, pause)
  {
    var gap := [Ack("u", open, true)] + [Tick(pause)] + steps;
    assert forall i :: 2 <= i < |gap| ==> gap[i] == steps[i - 2];
    forall i | 0 <= i < |gap| && gap[i].Receive? ensures LogsNext(gap, i) { assert LogsNext(steps, i - 2); }
  }

  /** What lies between two rounds: the scanned messages are acknowledged, time passes, newer messages arrive and
      are logged. */
  ghost predicate IsGap(gap: seq<Step>, open: set<string>, pause: nat) {
    |gap| >= 2 && gap[0] == Ack("u", open, true) && gap[1] == Tick(pause) && LogsAll(gap)
  }

  /** One such round, after a pause. */
  lemma RoundStarves(s: State, open: set<string>, pause: nat, base: nat) returns (r: Round, news: set<string>)
    requires Scanned(s, open) && s.now + pause <= LOOKBACK
    ensures Plays(s, "u", r) && !Room(r.start, "u", r.sel) && Waits("u", "m", r)
    ensures Scanned(r.end, news) && r.end.now == s.now + pause
    ensures IsGap(r.gap, open, pause)
  {
    var gap, start, filled := ChatFills(s, open, pause, base);
    news := Ids(filled);
    RowIsSelected(start, news);
    var rs, full := CycleCuts(start, news, filled);
    var end := ScanMisses(full, filled);
    r := Round(gap, start, [ROW], rs, full, end);
  }

  // ---------- Any number of rounds ----------

  ghost predicate PlaysAll(s: State, email: string, rounds: seq<Round>, t: State)
    decreases |rounds|
  {
    if rounds == [] then s == t
    else Plays(s, email, rounds[0]) && PlaysAll(rounds[0].end, email, rounds[1..], t)
  }

  /** No round has room, the row waits through each, the rounds are `pauses` apart, and all newer messages are
      logged. */
  ghost predicate Starved(rounds: seq<Round>, pauses: seq<nat>, email: string, id: string) {
    && |rounds| == |pauses|
    && forall i :: 0 <= i < |rounds| ==>
         && !Room(rounds[i].start, email, rounds[i].sel) && Waits(email, id, rounds[i])
         && |rounds[i].gap| >= 2 && rounds[i].gap[1] == Tick(pauses[i]) && LogsAll(rounds[i].gap)
  }

  function Sum(pauses: seq<nat>): nat { if pauses == [] then 0 else pauses[0] + Sum(pauses[1..]) }

  lemma StarvedOneMore(r: Round, rounds: seq<Round>, pauses: seq<nat>, email: string, id: string)
    requires pauses != [] && Starved(rounds, pauses[1..], email, id)
    requires !Room(r.start, email, r.sel) && Waits(email, id, r)
    requires |r.gap| >= 2 && r.gap[1] == Tick(pauses[0]) && LogsAll(r.gap)
    ensures Starved([r] + rounds, pauses, email, id)
  {
    var all := [r] + rounds;
    assert forall i :: 0 < i < |all| ==> all[i] == rounds[i - 1] && pauses[i] == pauses[1..][i - 1];
  }

  lemma {:induction false} RoundsStarve(s: State, open: set<string>, pauses: seq<nat>, base: nat)
    returns (rounds: seq<Round>, t: State, last: set<string>)
    requires Scanned(s, open) && s.now + Sum(pauses) <= LOOKBACK
    ensures PlaysAll(s, "u", rounds, t) && Starved(rounds, pauses, "u", "m")
    ensures Scanned(t, last)
    decreases |pauses|
  {
    if pauses == [] {
      rounds, t, last := [], s, open;
    } else {
      var r, news := RoundStarves(s, open, pauses[0], base);
      var later;
      later, t, last := RoundsStarve(r.end, news, pauses[1..], base + CAP);
      rounds := [r] + later;
      StarvedOneMore(r, later, pauses, "u", "m");
      assert rounds[1..] == later;
    }
  }

  /** The state the rounds start from: logged, left alone for the grace period, lost from memory by a crash. */
  lemma StuckFromTheStart() returns (steps: seq<Step>, s: State)
    ensures Runs(Init(0), steps, s) && Scanned(s, {}) && s.now == GRACE
  {
    var first, u := UnscannedState(KEY, MSG);
    s := Apply(u, Crash);
    KeepsRows(u, Crash);
    OneStep(u, Crash);
    RunsOn(Init(0), first, u, [Crash], s);
    steps := first + [Crash];
  }

  /** Without room the wait has no bound: for any number of rounds, any pauses apart that fit the lookback, there is
      a run through all of them, with every newer message logged, after which the row is due, untouched and still
      undelivered. */
  lemma WaitWithoutRoomIsUnbounded(pauses: seq<nat>)
    returns (first: seq<Step>, s: State, rounds: seq<Round>, t: State, email: string, id: string)
    requires Sum(pauses) <= LOOKBACK - GRACE
    ensures Runs(Init(0), first, s) && PlaysAll(s, email, rounds, t) && Starved(rounds, pauses, email, id)
    ensures id in s.rows && id in t.rows && t.rows[id] == s.rows[id] && !t.rows[id].processed
    ensures Due(t, email, id) && id !in AccountIds(t, email)
  {
    first, s := StuckFromTheStart();
    var last;
    rounds, t, last := RoundsStarve(s, {}, pauses, 0);
    email, id := "u", "m";
    RowIsSelected(t, last);
  }
}
