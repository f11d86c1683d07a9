/** What the activity stamp of a tracked thread stands for (scanner/scanner_slack_threads.go): over any number of
    sweeps and registrations it keeps up with what people write, and bots do not move it, so a thread is given up
    after a week without people and not before. */
module ThreadActivity {
  import opened SlackTime
  import opened SlackThreads
  import opened ThreadTable
  import opened ThreadGroups

  /** Each member's stamp has kept up with what people wrote after `since`, as far as its cursor goes. */
  ghost predicate KeepsUp(g: Group, since: Ts) {
    forall i, j :: 0 <= i < |g.members| && WroteUpTo(g.log, j, since, g.members[i].lastTS) ==>
      g.log[j].ts <= g.members[i].lastActivityTS
  }

  /** Message j was written by a person, after `since` and up to `hi`. */
  predicate WroteUpTo(log: seq<Reply>, j: int, since: Ts, hi: Ts) {
    0 <= j < |log| && ByPerson(log[j]) && since < log[j].ts <= hi
  }

  /** Each member's stamp is one of `stamps` or the time of something that a person wrote. */
  ghost predicate FromPeople(g: Group, stamps: set<Ts>) {
    forall i :: 0 <= i < |g.members| ==>
      g.members[i].lastActivityTS in stamps || ByPersonAt(g.log, g.members[i].lastActivityTS)
  }

  ghost predicate ByPersonAt(log: seq<Reply>, ts: Ts) {
    exists j :: 0 <= j < |log| && ByPerson(log[j]) && log[j].ts == ts
  }

  lemma ByPersonInMore(log: seq<Reply>, more: seq<Reply>, ts: Ts)
    requires ByPersonAt(log, ts)
    ensures ByPersonAt(log + more, ts)
  {
    var j :| 0 <= j < |log| && ByPerson(log[j]) && log[j].ts == ts;
    assert (log + more)[j] == log[j];
  }

  // ---------- One page ----------

  /** An unresolved read takes in everything that people wrote between the cursor and where it stops. */
  lemma PageTakesIn(parent: Reply, log: seq<Reply>, min: Ts, act: Ts, sw: Sweep, j: nat)
    requires NONE < parent.ts <= min && Ascending(log) && j < |log| && ByPerson(log[j])
    requires var res := Scan(Page(parent, log, min, sw), min, min, act);
      !res.isResolved && min < log[j].ts <= res.newLastTS
    ensures log[j].ts <= Scan(Page(parent, log, min, sw), min, min, act).newLastActivity
  {
    var below, read, rest := PageShape(parent, log, min, sw);
    var head := parent.(check := parent.ts in sw.checked);
    var marked := Marked(read, sw.checked);
    MarkedIs(read, sw.checked);
    ScanSkips(head, marked, min, min, act);
    ScanAscending(marked, min, min, act);
    PlaceInRead(log, below, read, rest, min, Scan(marked, min, min, act).newLastTS, j);
    var i := j - |below|;
    assert IsActivity(marked, min, i);
    ScanReads(marked, min, min, act, i);
  }

  lemma PlaceInRead(log: seq<Reply>, below: seq<Reply>, read: seq<Reply>, rest: seq<Reply>, min: Ts, stop: Ts, j: nat)
    requires log == below + read + rest && j < |log| && min < log[j].ts <= stop
    requires forall i :: 0 <= i < |below| ==> below[i].ts <= min
    requires forall i :: 0 <= i < |rest| ==> rest[i].ts > if read == [] then min else read[|read| - 1].ts
    requires stop == if read == [] then min else read[|read| - 1].ts
    ensures |below| <= j < |below| + |read| && read[j - |below|] == log[j]
  {
    assert forall i :: 0 <= i < |below| ==> log[i] == below[i];
    assert forall i :: 0 <= i < |rest| ==> log[|below| + |read| + i] == rest[i];
  }

  /** Its stamp is the one it started from or the time of something that a person wrote. */
  lemma PageStamp(parent: Reply, log: seq<Reply>, min: Ts, act: Ts, sw: Sweep)
    requires NONE < parent.ts <= min && Ascending(log)
    ensures var after := Scan(Page(parent, log, min, sw), min, min, act).newLastActivity;
      act <= after && (after == act || ByPersonAt(log, after))
  {
    var below, read, rest := PageShape(parent, log, min, sw);
    var marked := Marked(read, sw.checked);
    MarkedIs(read, sw.checked);
    ScanSkips(parent.(check := parent.ts in sw.checked), marked, min, min, act);
    ScanIsMeant(marked, min, min, act);
    var after := Scan(marked, min, min, act).newLastActivity;
    if after != act {
      var i: nat :| IsActivity(marked, min, i) && marked[i].ts == after;
      assert log[|below| + i] == read[i] && ByPerson(read[i]);
    }
  }

  // ---------- Sweep after sweep ----------

  lemma SweepKeepsUp(g: Group, sw: Sweep, since: Ts)
    requires ValidGroup(g) && PossibleSweep(g, sw) && KeepsUp(g, since) && !ScanFor(g, sw).isResolved
    ensures KeepsUp(GroupSweep(g, sw), since)
  {
    var u, log, min, res := GroupSweep(g, sw), g.log + sw.posted, MinOf(g.members), ScanFor(g, sw);
    MinIsKnown(g);
    PageStamp(g.parent, log, min, g.members[0].lastActivityTS, sw);
    forall i, j | 0 <= i < |u.members| && WroteUpTo(log, j, since, u.members[i].lastTS)
      ensures log[j].ts <= u.members[i].lastActivityTS
    {
      if log[j].ts > min {
        PageTakesIn(g.parent, log, min, g.members[0].lastActivityTS, sw, j);
      } else {
        KnownIsBelowPosted(g.parent, g.log, sw.posted, min);
        assert WroteUpTo(g.log, j, since, g.members[0].lastTS);
      }
    }
  }

  lemma OpenMeansUnresolved(g: Group, sweeps: seq<Sweep>, u: Group)
    requires sweeps != [] && GroupSweeps(g, sweeps, u) && !u.closed
    ensures !ScanFor(g, sweeps[0]).isResolved
  {
  }

  /** Main result: over any number of sweeps of a group that is not closed, the stamps keep up with what people write,
      and nothing else moves them. */
  lemma {:induction false} SweepsKeepUp(g: Group, sweeps: seq<Sweep>, u: Group, since: Ts, stamps: set<Ts>)
    requires ValidGroup(g) && GroupSweeps(g, sweeps, u) && !u.closed
    requires KeepsUp(g, since) && FromPeople(g, stamps)
    ensures KeepsUp(u, since) && FromPeople(u, stamps)
    decreases |sweeps|
  {
    if sweeps != [] {
      var sw, v := sweeps[0], GroupSweep(g, sweeps[0]);
      OpenMeansUnresolved(g, sweeps, u);
      SweepKeepsUp(g, sw, since);
      StampsStay(g, sw, stamps);
      SweepKeepsGroup(g, sw);
      SweepsKeepUp(v, sweeps[1..], u, since, stamps);
    }
  }

  lemma StampsStay(g: Group, sw: Sweep, stamps: set<Ts>)
    requires ValidGroup(g) && PossibleSweep(g, sw) && FromPeople(g, stamps) && !ScanFor(g, sw).isResolved
    ensures FromPeople(GroupSweep(g, sw), stamps)
  {
    MinIsKnown(g);
    PageStamp(g.parent, g.log + sw.posted, MinOf(g.members), g.members[0].lastActivityTS, sw);
    if ByPersonAt(g.log, g.members[0].lastActivityTS) {
      ByPersonInMore(g.log, sw.posted, g.members[0].lastActivityTS);
    }
  }

  /** A registration keeps up, too: it sets the stamp along with the cursor. */
  lemma RegisterKeepsUp(g: Group, i: nat, c: Ts, posted: seq<Reply>, since: Ts)
    requires ValidGroup(g) && PossibleEvent(g, Registered(i, c, posted)) && KeepsUp(g, since)
    ensures KeepsUp(Register(g, i, c, posted), since)
  {
    var u := Register(g, i, c, posted);
    forall n, j | 0 <= n < |u.members| && WroteUpTo(u.log, j, since, u.members[n].lastTS)
      ensures u.log[j].ts <= u.members[n].lastActivityTS
    {
      if n != i {
        KnownIsBelowPosted(g.parent, g.log, posted, g.members[n].lastTS);
        assert WroteUpTo(g.log, j, since, g.members[n].lastTS);
      }
    }
  }

  // ---------- The timeout ----------

  /** The timeout reads the whole seconds of a stamp. */
  function SecondOf(ts: Ts): Micros { (ts / SECOND) * SECOND }

  function StampsOf(g: Group): set<Ts> { set n | 0 <= n < |g.members| :: g.members[n].lastActivityTS }

  ghost predicate Dated(log: seq<Reply>) { forall j :: 0 <= j < |log| ==> log[j].ts != NONE }

  /** No person wrote anything within the week, and the stamps to start from are older than that. */
  ghost predicate Quiet(g: Group, log: seq<Reply>, now: Micros) {
    && (forall act :: act in StampsOf(g) ==> act != NONE && SecondOf(act) < now - 7 * DAY)
    && (forall j :: 0 <= j < |log| && ByPerson(log[j]) ==> SecondOf(log[j].ts) < now - 7 * DAY)
  }

  /** Main result: a thread in which somebody wrote within the last week, as far as it was read, is not timed out; one
      in which nobody did for more than a week, and whose stamp was older than that, is. */
  lemma TimeoutFollowsPeople(g: Group, sweeps: seq<Sweep>, u: Group, since: Ts, i: nat, now: Micros)
    requires ValidGroup(g) && GroupSweeps(g, sweeps, u) && !u.closed && i < |u.members| && KeepsUp(g, since)
    ensures (exists j :: WroteUpTo(u.log, j, since, u.members[i].lastTS) && SecondOf(u.log[j].ts) >= now - 7 * DAY) ==>
              !TimedOut(u.members[i].lastActivityTS, now)
    ensures Quiet(g, u.log, now) ==> TimedOut(u.members[i].lastActivityTS, now)
  {
    RunEnds(g, sweeps, u, since);
    RecentIsNotTimedOut(u, since, i, now);
    if Quiet(g, u.log, now) { QuietIsTimedOut(g, u, i, now); }
  }

  lemma RunEnds(g: Group, sweeps: seq<Sweep>, u: Group, since: Ts)
    requires ValidGroup(g) && GroupSweeps(g, sweeps, u) && !u.closed && KeepsUp(g, since)
    ensures KeepsUp(u, since) && FromPeople(u, StampsOf(g)) && Dated(u.log)
  {
    assert FromPeople(g, StampsOf(g));
    SweepsKeepUp(g, sweeps, u, since, StampsOf(g));
    var more := LogGrows(g, sweeps, u);
  }

  lemma RecentIsNotTimedOut(u: Group, since: Ts, i: nat, now: Micros)
    requires i < |u.members| && KeepsUp(u, since)
    ensures (exists j :: WroteUpTo(u.log, j, since, u.members[i].lastTS) && SecondOf(u.log[j].ts) >= now - 7 * DAY) ==>
              !TimedOut(u.members[i].lastActivityTS, now)
  {
    TimedOutIff(u.members[i].lastActivityTS, now);
    if j :| WroteUpTo(u.log, j, since, u.members[i].lastTS) && SecondOf(u.log[j].ts) >= now - 7 * DAY {
      SecondsGrow(u.log[j].ts, u.members[i].lastActivityTS);
    }
  }

  lemma QuietIsTimedOut(g: Group, u: Group, i: nat, now: Micros)
    requires i < |u.members| && FromPeople(u, StampsOf(g)) && Dated(u.log) && Quiet(g, u.log, now)
    ensures TimedOut(u.members[i].lastActivityTS, now)
  {
    TimedOutIff(u.members[i].lastActivityTS, now);
  }

  lemma SecondsGrow(a: Ts, b: Ts)
    requires a <= b
    ensures SecondOf(a) <= SecondOf(b)
  {
  }

  lemma TimedOutIff(act: Ts, now: Micros)
    ensures TimedOut(act, now) <==> act != NONE && SecondOf(act) < now - 7 * DAY
  {
  }

  /** And a thread that is timed out is never skipped by the shortcut, so that it is closed. */
  lemma TimedOutIsNotSkipped(threadTS: Ts, lastTS: Ts, act: Ts, a: ChannelActivity, now: Micros)
    requires act != NONE && SecondOf(act) < now - 7 * DAY
    ensures !ShouldSkipThreadFetch(threadTS, lastTS, act, a, now)
  {
  }
}
