/** Concrete runs of the Slack protocol, each reachable from the initial state: the ways in which a promise of
    the scanner fails, and a cursor that moves backwards. One user, one channel. */
module SlackRunWitnesses {
  import opened SlackTime
  import opened SlackRuns

  const CHAN: string := "C1"
  const USER: string := "ann"
  const KEY: Pair := Pair(USER, CHAN)
  const START: State := Init(0)

  function Root(id: Ts): Entry { Entry(CHAN, id, false) }

  function Reply(id: Ts): Entry { Entry(CHAN, id, true) }

  function Seen(e: Entry): Item { Item(USER, e) }

  // ---------- Putting runs together ----------

  lemma {:induction false} RunsOn(s: State, a: seq<Step>, t: State, b: seq<Step>, w: State)
    requires Runs(s, a, t) && Runs(t, b, w)
    ensures Runs(s, a + b, w)
    decreases |a|
  {
    if a == [] {
      assert a + b == b;
    } else {
      RunsOn(Apply(s, a[0]), a[1..], t, b, w);
      assert (a + b)[1..] == a[1..] + b;
    }
  }

  /** What the steps lead to, from the start. */
  ghost predicate Reached(steps: seq<Step>, t: State) { exists u :: u == t && Runs(START, steps, u) }

  lemma Then(a: seq<Step>, t: State, step: Step)
    requires Reached(a, t) && Enabled(t, step)
    ensures Reached(a + [step], Apply(t, step))
  {
    assert [step][1..] == [];
    assert Runs(Apply(t, step), [step][1..], Apply(t, step));
    RunsOn(START, a, t, [step], Apply(t, step));
  }

  /** A moment of the channel: what was posted, where the stored cursor is, and the passes under way. */
  function Moment(log: set<Entry>, cursors: map<Pair, Ts>, done: set<Item>, passes: map<nat, Pass>): State {
    State(0, log, cursors, map[], done, {}, passes)
  }

  /** A pass that has listed what the channel held. */
  function Listed(log: set<Entry>): Pass {
    NewPass({USER}, {CHAN}).(lastTS := map[KEY := NONE], fetched := {CHAN}, known := log, snapshot := log)
  }

  function With(s: State, p: nat, pass: Pass): State { s.(passes := s.passes[p := pass]) }

  function Done(s: State, done: set<Item>): State { s.(done := done) }

  function Posted(s: State, e: Entry): State { s.(log := s.log + {e}) }

  function Stored(s: State, id: Ts): State { s.(cursors := s.cursors[KEY := id]) }

  /** The pass with one more reply read, with its channel read to the end, closed, and with the cursor stored. */
  function Reads(pass: Pass, e: Entry): Pass { pass.(snapshot := pass.snapshot + {e}) }

  function Ready(pass: Pass): Pass { pass.(ready := pass.ready + {CHAN}) }

  function Closed(pass: Pass): Pass { pass.(closed := true, committing := true) }

  function Committed(pass: Pass): Pass { pass.(committed := pass.committed + {KEY}) }

  ghost predicate OurRoots(log: set<Entry>) { forall e :: e in log ==> e.id > NONE && e.chan == CHAN && !e.reply }

  lemma ListRuns(a: seq<Step>, log: set<Entry>, done: set<Item>, passes: map<nat, Pass>, p: nat)
    returns (b: seq<Step>)
    requires Reached(a, Moment(log, map[], done, passes)) && p !in passes && OurRoots(log)
    ensures Reached(b, Moment(log, map[], done, passes[p := Listed(log)]))
    ensures b == a + [Start(p, {USER}, {CHAN})] + [ReadCursor(p, KEY)] + [FetchPage(p, CHAN, NONE)]
  {
    var s := Moment(log, map[], done, passes);
    var t1 := Apply(s, Start(p, {USER}, {CHAN}));
    Then(a, s, Start(p, {USER}, {CHAN}));
    b := a + [Start(p, {USER}, {CHAN})];
    Then(b, t1, ReadCursor(p, KEY));
    var t2 := Apply(t1, ReadCursor(p, KEY));
    b := b + [ReadCursor(p, KEY)];
    assert t2.passes[p] == NewPass({USER}, {CHAN}).(lastTS := map[KEY := NONE]);
    assert t2 == Moment(log, map[], done, passes[p := t2.passes[p]]);
    PageRuns(b, log, done, passes, p, t2.passes[p]);
    b := b + [FetchPage(p, CHAN, NONE)];
  }

  lemma PageRuns(a: seq<Step>, log: set<Entry>, done: set<Item>, passes: map<nat, Pass>, p: nat, pass: Pass)
    requires pass == NewPass({USER}, {CHAN}).(lastTS := map[KEY := NONE]) && OurRoots(log)
    requires Reached(a, Moment(log, map[], done, passes[p := pass]))
    ensures Reached(a + [FetchPage(p, CHAN, NONE)], Moment(log, map[], done, passes[p := Listed(log)]))
  {
    var s := Moment(log, map[], done, passes[p := pass]);
    assert IsMin(pass, CHAN, NONE);
    Then(a, s, FetchPage(p, CHAN, NONE));
    assert Roots(s, CHAN) == log && Page(s, CHAN, NONE) == log && BeforeWindow(s, {USER}, CHAN, NONE) == {};
    var after := PassAfter(s, pass, FetchPage(p, CHAN, NONE));
    assert after == Listed(log);
    assert passes[p := pass][p := after] == passes[p := after];
    assert Apply(s, FetchPage(p, CHAN, NONE)) == Moment(log, map[], done, passes[p := pass][p := after]);
  }

  lemma RepliesRun(a: seq<Step>, s: State, p: nat, e: Entry)
    requires Reached(a, s) && p in s.passes && PassEnabled(s, s.passes[p], ReadReplies(p, CHAN, {e}))
    ensures Reached(a + [ReadReplies(p, CHAN, {e})], With(s, p, Reads(s.passes[p], e)))
  {
    Then(a, s, ReadReplies(p, CHAN, {e}));
  }

  lemma EndRuns(a: seq<Step>, s: State, p: nat)
    requires Reached(a, s) && p in s.passes && PassEnabled(s, s.passes[p], EndFetch(p, CHAN))
    ensures Reached(a + [EndFetch(p, CHAN)], With(s, p, Ready(s.passes[p])))
  {
    Then(a, s, EndFetch(p, CHAN));
  }

  /** The pass after it classified a message above the cursor. */
  function Sees(pass: Pass, e: Entry, lts: Ts, isCandidate: bool): Pass {
    var i := Seen(e);
    pass.(readAt := pass.readAt[i := lts], seen := pass.seen + {i}, newTS := pass.newTS[KEY := e.id],
          candidates := if isCandidate then pass.candidates + {i} else pass.candidates)
  }

  lemma SeeRuns(a: seq<Step>, s: State, p: nat, e: Entry, isCandidate: bool)
    requires Reached(a, s) && p in s.passes && e.chan == CHAN
    requires PassEnabled(s, s.passes[p], Classify(p, Seen(e), isCandidate))
    requires e.id > Cursor(s.cursors, KEY) && e.id > Cursor(s.passes[p].newTS, KEY)
    ensures Reached(a + [Classify(p, Seen(e), isCandidate)],
                 With(Done(s, if isCandidate then s.done else s.done + {Seen(e)}), p,
                      Sees(s.passes[p], e, Cursor(s.cursors, KEY), isCandidate)))
  {
    Then(a, s, Classify(p, Seen(e), isCandidate));
    assert PairOf(Seen(e)) == KEY;
  }

  /** The pass after it met a cursor at or past the message. */
  function Skips(pass: Pass, e: Entry, lts: Ts): Pass {
    pass.(readAt := pass.readAt[Seen(e) := lts], skipped := pass.skipped + {Seen(e)})
  }

  lemma SkipRuns(a: seq<Step>, s: State, p: nat, e: Entry)
    requires Reached(a, s) && p in s.passes && e.chan == CHAN
    requires PassEnabled(s, s.passes[p], Classify(p, Seen(e), false))
    requires NONE < e.id <= Cursor(s.cursors, KEY) && Seen(e) !in s.passes[p].seen
    ensures Reached(a + [Classify(p, Seen(e), false)],
                 With(s, p, Skips(s.passes[p], e, Cursor(s.cursors, KEY))))
  {
    Then(a, s, Classify(p, Seen(e), false));
    assert PairOf(Seen(e)) == KEY;
  }

  lemma CloseRuns(a: seq<Step>, s: State, p: nat)
    requires Reached(a, s) && p in s.passes && !s.passes[p].expired && PassEnabled(s, s.passes[p], Close(p))
    ensures Reached(a + [Close(p)], With(s, p, Closed(s.passes[p])))
  {
    Then(a, s, Close(p));
  }

  lemma CommitRuns(a: seq<Step>, s: State, p: nat)
    requires Reached(a, s) && p in s.passes && PassEnabled(s, s.passes[p], Commit(p, KEY))
    ensures Reached(a + [Commit(p, KEY)],
                 With(Stored(s, s.passes[p].newTS[KEY]), p, Committed(s.passes[p])))
  {
    Then(a, s, Commit(p, KEY));
  }

  lemma PostRuns(a: seq<Step>, s: State, e: Entry)
    requires Reached(a, s) && Enabled(s, Post(e))
    ensures Reached(a + [Post(e)], Posted(s, e))
  {
    Then(a, s, Post(e));
  }

  lemma FirstPost()
    ensures Reached([Post(Root(1))], Posted(START, Root(1)))
  {
    assert Runs(START, [], START);
    PostRuns([], START, Root(1));
    assert [] + [Post(Root(1))] == [Post(Root(1))];
  }

  // ---------- A dropped candidate ----------

  /** A pass over one root message, listed and read to the end. */
  lemma OneRootRead() returns (a: seq<Step>)
    ensures Reached(a, Moment({Root(1)}, map[], {}, map[0 := Listed({Root(1)}).(ready := {CHAN})]))
  {
    FirstPost();
    assert {} + {Root(1)} == {Root(1)};
    assert Posted(START, Root(1)) == Moment({Root(1)}, map[], {}, map[]);
    a := ListRuns([Post(Root(1))], {Root(1)}, {}, map[], 0);
    var s := Moment({Root(1)}, map[], {}, map[][0 := Listed({Root(1)})]);
    EndRuns(a, s, 0);
    a := a + [EndFetch(0, CHAN)];
    assert {} + {CHAN} == {CHAN};
    assert Ready(Listed({Root(1)})) == Listed({Root(1)}).(ready := {CHAN});
    assert s.passes[0 := Ready(Listed({Root(1)}))] == map[0 := Ready(Listed({Root(1)}))];
  }

  /** Why commits must be clean: when the user lookup fails after classification, the candidate is
      neither analysed nor held, and the cursor passes it. */
  lemma DroppedCandidateIsLost() returns (steps: seq<Step>, t: State)
    ensures Runs(START, steps, t) && Root(1) in t.log
    ensures 1 <= Cursor(t.cursors, KEY) && !Settled(t, Seen(Root(1)))
  {
    steps := OneRootRead();
    var pass := Listed({Root(1)}).(ready := {CHAN});
    var s := Moment({Root(1)}, map[], {}, map[0 := pass]);
    SeeRuns(steps, s, 0, Root(1), true);
    steps := steps + [Classify(0, Seen(Root(1)), true)];
    pass := Sees(pass, Root(1), NONE, true);
    steps, t := DropAndCommit(steps, With(Done(s, {}), 0, pass), pass);
  }

  lemma DropAndCommit(a: seq<Step>, s: State, pass: Pass) returns (steps: seq<Step>, t: State)
    requires pass == Sees(Listed({Root(1)}).(ready := {CHAN}), Root(1), NONE, true)
    requires Reached(a, s) && 0 in s.passes && s.passes[0] == pass
    ensures Reached(steps, t) && t.log == s.log && t.done == s.done && t.excused == s.excused
    ensures Cursor(t.cursors, KEY) == 1
  {
    var drop := Drop(0, {Seen(Root(1))});
    Then(a, s, drop);
    var after := pass.(dropped := pass.dropped + {Seen(Root(1))});
    assert Apply(s, drop).passes[0] == after;
    steps, t := CloseAndCommit(a + [drop], Apply(s, drop), after);
  }

  lemma CloseAndCommit(a: seq<Step>, s: State, pass: Pass) returns (steps: seq<Step>, t: State)
    requires Reached(a, s) && 0 in s.passes && s.passes[0] == pass && !pass.expired
    requires PassEnabled(s, pass, Close(0)) && KEY in pass.newTS && KEY !in pass.held && KEY !in pass.committed
    ensures Reached(steps, t) && t.log == s.log && t.done == s.done && t.excused == s.excused
    ensures Cursor(t.cursors, KEY) == pass.newTS[KEY] && steps == a + [Close(0)] + [Commit(0, KEY)]
  {
    CloseRuns(a, s, 0);
    var closed := With(s, 0, Closed(pass));
    CommitRuns(a + [Close(0)], closed, 0);
    steps := a + [Close(0)] + [Commit(0, KEY)];
    t := With(Stored(closed, pass.newTS[KEY]), 0, Committed(Closed(pass)));
  }

  // ---------- A reply read late ----------

  /** One pass, nothing dropped, nothing overlapping: a root message posted after the listing is older than
      a reply that the same pass still reads, and the cursor passes it for good. */
  lemma LateRootIsLost() returns (steps: seq<Step>, t: State)
    ensures Runs(START, steps, t) && Root(2) in t.log && NoDrops(steps)
    ensures 2 <= Cursor(t.cursors, KEY) && !Settled(t, Seen(Root(2)))
    ensures Root(2) !in Page(t, CHAN, Cursor(t.cursors, KEY))
  {
    var log := {Root(1)} + {Root(2)} + {Reply(3)};
    steps := LatePosts();
    steps := LateReads(steps, log, Listed({Root(1)}));
    steps, t := LateVerdicts(steps, log, LateRead());
    assert Root(2) in log;
  }

  /** The pass of the late reply, read to the end. */
  function LateRead(): Pass { Listed({Root(1)}).(snapshot := {Root(1)} + {Reply(3)}, ready := {} + {CHAN}) }

  ghost predicate NoDrops(steps: seq<Step>) { forall j :: 0 <= j < |steps| ==> !steps[j].Drop? }

  lemma LatePosts() returns (steps: seq<Step>)
    ensures NoDrops(steps)
    ensures Reached(steps, Moment({Root(1)} + {Root(2)} + {Reply(3)}, map[], {}, map[0 := Listed({Root(1)})]))
  {
    FirstPost();
    assert {} + {Root(1)} == {Root(1)};
    assert Posted(START, Root(1)) == Moment({Root(1)}, map[], {}, map[]);
    steps := ListRuns([Post(Root(1))], {Root(1)}, {}, map[], 0);
    var passes := map[0 := Listed({Root(1)})];
    assert map[][0 := Listed({Root(1)})] == passes;
    LatePair(steps, passes);
    steps := steps + [Post(Root(2))] + [Post(Reply(3))];
  }

  lemma LatePair(a: seq<Step>, passes: map<nat, Pass>)
    requires Reached(a, Moment({Root(1)}, map[], {}, passes))
    ensures Reached(a + [Post(Root(2))] + [Post(Reply(3))],
                 Moment({Root(1)} + {Root(2)} + {Reply(3)}, map[], {}, passes))
  {
    var s := Moment({Root(1)}, map[], {}, passes);
    PostRuns(a, s, Root(2));
    PostRuns(a + [Post(Root(2))], Posted(s, Root(2)), Reply(3));
    assert Posted(Posted(s, Root(2)), Reply(3)) ==
           Moment({Root(1)} + {Root(2)} + {Reply(3)}, map[], {}, passes);
  }

  lemma LateReads(a: seq<Step>, log: set<Entry>, pass: Pass) returns (steps: seq<Step>)
    requires pass == Listed({Root(1)}) && Reply(3) in log && NoDrops(a)
    requires Reached(a, Moment(log, map[], {}, map[0 := pass]))
    ensures NoDrops(steps) && Reached(steps, Moment(log, map[], {}, map[0 := LateRead()]))
  {
    var s := Moment(log, map[], {}, map[0 := pass]);
    RepliesRun(a, s, 0, Reply(3));
    s := With(s, 0, Reads(pass, Reply(3)));
    EndRuns(a + [ReadReplies(0, CHAN, {Reply(3)})], s, 0);
    steps := a + [ReadReplies(0, CHAN, {Reply(3)})] + [EndFetch(0, CHAN)];
    assert Ready(Reads(pass, Reply(3))) == LateRead();
    assert s.passes[0 := LateRead()] == map[0 := LateRead()];
  }

  lemma LateVerdicts(a: seq<Step>, log: set<Entry>, pass: Pass) returns (steps: seq<Step>, t: State)
    requires pass == LateRead() && NoDrops(a) && Reached(a, Moment(log, map[], {}, map[0 := pass]))
    ensures Reached(steps, t) && t.log == log && Cursor(t.cursors, KEY) == 3 && NoDrops(steps)
    ensures !Settled(t, Seen(Root(2)))
  {
    var s := Moment(log, map[], {}, map[0 := pass]);
    SeeRuns(a, s, 0, Root(1), false);
    steps := a + [Classify(0, Seen(Root(1)), false)];
    var p1 := Sees(pass, Root(1), NONE, false);
    s := With(Done(s, s.done + {Seen(Root(1))}), 0, p1);
    assert s.done == {Seen(Root(1))};
    steps, t := LateReplyCommits(steps, s, p1);
  }

  lemma LateReplyCommits(a: seq<Step>, s: State, pass: Pass) returns (steps: seq<Step>, t: State)
    requires pass == Sees(LateRead(), Root(1), NONE, false) && NoDrops(a) && Reached(a, s)
    requires 0 in s.passes && s.passes[0] == pass && s.cursors == map[]
    requires s.done == {Seen(Root(1))} && s.excused == {}
    ensures Reached(steps, t) && t.log == s.log && Cursor(t.cursors, KEY) == 3 && NoDrops(steps)
    ensures t.done == s.done + {Seen(Reply(3))} && t.excused == {}
  {
    SeeRuns(a, s, 0, Reply(3), false);
    steps := a + [Classify(0, Seen(Reply(3)), false)];
    var p2 := Sees(pass, Reply(3), NONE, false);
    assert p2.newTS[KEY] == 3;
    steps, t := CloseAndCommit(steps, With(Done(s, s.done + {Seen(Reply(3))}), 0, p2), p2);
  }

  // ---------- A reply that is never read ----------

  function Roots12(): set<Entry> { {Root(1)} + {Root(2)} }

  function Log34(): set<Entry> { Roots12() + {Reply(3)} + {Reply(4)} }

  /** The pass that could read the thread of the second root only. */
  function HalfRead(): Pass { Ready(Reads(Listed(Roots12()), Reply(4))) }

  ghost predicate OnePass(steps: seq<Step>) {
    forall j :: 0 <= j < |steps| && (steps[j].Start? || OfPass(steps[j])) ==> steps[j].p == 0
  }

  /** One pass, nothing dropped, nothing overlapping: the replies of the first root, 3 among them, cannot be read, and
      reply 4 to the second root can. The cursor goes to 4, reply 3 is neither done nor excused, and no later listing
      names the first root, with which its replies would be read. */
  lemma UnreadReplyIsLost() returns (steps: seq<Step>, t: State)
    ensures Runs(START, steps, t) && NoDrops(steps) && OnePass(steps) && Reply(3) in t.log
    ensures Cursor(t.cursors, KEY) == 4 && !Settled(t, Seen(Reply(3)))
    ensures Root(1) !in Page(t, CHAN, Cursor(t.cursors, KEY))
  {
    steps := HalfReads();
    var s := Moment(Log34(), map[], {}, map[0 := HalfRead()]);
    var u;
    steps, u := HalfSees(steps, s);
    steps, t := HalfCommits(steps, u);
  }

  lemma HalfReads() returns (steps: seq<Step>)
    ensures NoDrops(steps) && OnePass(steps)
    ensures Reached(steps, Moment(Log34(), map[], {}, map[0 := HalfRead()]))
  {
    var passes := map[0 := Listed(Roots12())];
    assert map[][0 := Listed(Roots12())] == passes;
    steps := TwoRootsListed();
    HalfPosts(steps, passes);
    steps := steps + [Post(Reply(3))] + [Post(Reply(4))];
    steps := HalfEnds(steps, passes);
  }

  lemma TwoRootsListed() returns (steps: seq<Step>)
    ensures NoDrops(steps) && OnePass(steps)
    ensures Reached(steps, Moment(Roots12(), map[], {}, map[][0 := Listed(Roots12())]))
  {
    TwoPosts();
    steps := ListRuns([Post(Root(1))] + [Post(Root(2))], Roots12(), {}, map[], 0);
  }

  lemma TwoPosts()
    ensures Reached([Post(Root(1))] + [Post(Root(2))], Moment(Roots12(), map[], {}, map[]))
  {
    FirstPost();
    PostRuns([Post(Root(1))], Posted(START, Root(1)), Root(2));
    assert {} + {Root(1)} + {Root(2)} == Roots12();
    assert Posted(Posted(START, Root(1)), Root(2)) == Moment(Roots12(), map[], {}, map[]);
  }

  lemma HalfPosts(a: seq<Step>, passes: map<nat, Pass>)
    requires Reached(a, Moment(Roots12(), map[], {}, passes))
    ensures Reached(a + [Post(Reply(3))] + [Post(Reply(4))], Moment(Log34(), map[], {}, passes))
  {
    var s := Moment(Roots12(), map[], {}, passes);
    PostRuns(a, s, Reply(3));
    PostRuns(a + [Post(Reply(3))], Posted(s, Reply(3)), Reply(4));
    assert Posted(Posted(s, Reply(3)), Reply(4)) == Moment(Log34(), map[], {}, passes);
  }

  lemma HalfEnds(a: seq<Step>, passes: map<nat, Pass>) returns (steps: seq<Step>)
    requires passes == map[0 := Listed(Roots12())] && Reached(a, Moment(Log34(), map[], {}, passes))
    ensures steps == a + [ReadReplies(0, CHAN, {Reply(4)})] + [EndFetch(0, CHAN)]
    ensures Reached(steps, Moment(Log34(), map[], {}, map[0 := HalfRead()]))
  {
    var s := Moment(Log34(), map[], {}, passes);
    RepliesRun(a, s, 0, Reply(4));
    s := With(s, 0, Reads(Listed(Roots12()), Reply(4)));
    EndRuns(a + [ReadReplies(0, CHAN, {Reply(4)})], s, 0);
    steps := a + [ReadReplies(0, CHAN, {Reply(4)})] + [EndFetch(0, CHAN)];
    assert s.passes[0 := HalfRead()] == map[0 := HalfRead()];
  }

  /** The pass that classified these messages, none of them a candidate. */
  function HalfSeen(): Pass {
    Sees(Sees(Sees(HalfRead(), Root(1), NONE, false), Root(2), NONE, false), Reply(4), NONE, false)
  }

  function HalfDone(): set<Item> { {} + {Seen(Root(1))} + {Seen(Root(2))} + {Seen(Reply(4))} }

  /** The one pass classifies a message above everything so far, with no cursor stored. */
  lemma SeeOne(a: seq<Step>, s: State, e: Entry) returns (steps: seq<Step>, t: State)
    requires Reached(a, s) && NoDrops(a) && OnePass(a) && 0 in s.passes && e.chan == CHAN && s.cursors == map[]
    requires PassEnabled(s, s.passes[0], Classify(0, Seen(e), false)) && e.id > Cursor(s.passes[0].newTS, KEY)
    ensures t == With(Done(s, s.done + {Seen(e)}), 0, Sees(s.passes[0], e, NONE, false))
    ensures Reached(steps, t) && NoDrops(steps) && OnePass(steps)
  {
    SeeRuns(a, s, 0, e, false);
    steps := a + [Classify(0, Seen(e), false)];
    t := With(Done(s, s.done + {Seen(e)}), 0, Sees(s.passes[0], e, NONE, false));
  }

  lemma HalfSees(a: seq<Step>, s: State) returns (steps: seq<Step>, u: State)
    requires s == Moment(Log34(), map[], {}, map[0 := HalfRead()]) && Reached(a, s) && NoDrops(a) && OnePass(a)
    ensures Reached(steps, u) && NoDrops(steps) && OnePass(steps)
    ensures u == Moment(Log34(), map[], HalfDone(), u.passes) && 0 in u.passes && u.passes[0] == HalfSeen()
  {
    var s1;
    steps, s1 := SeeOne(a, s, Root(1));
    steps, u := HalfSeesMore(steps, s1);
  }

  lemma HalfSeesMore(a: seq<Step>, s: State) returns (steps: seq<Step>, u: State)
    requires Reached(a, s) && NoDrops(a) && OnePass(a) && 0 in s.passes
    requires s == Moment(Log34(), map[], {} + {Seen(Root(1))}, s.passes)
    requires s.passes[0] == Sees(HalfRead(), Root(1), NONE, false)
    ensures Reached(steps, u) && NoDrops(steps) && OnePass(steps)
    ensures u == Moment(Log34(), map[], HalfDone(), u.passes) && 0 in u.passes && u.passes[0] == HalfSeen()
  {
    var s2;
    steps, s2 := SeeOne(a, s, Root(2));
    steps, u := HalfSeesReply(steps, s2);
  }

  lemma HalfSeesReply(a: seq<Step>, s: State) returns (steps: seq<Step>, u: State)
    requires Reached(a, s) && NoDrops(a) && OnePass(a) && 0 in s.passes
    requires s == Moment(Log34(), map[], {} + {Seen(Root(1))} + {Seen(Root(2))}, s.passes)
    requires s.passes[0] == Sees(Sees(HalfRead(), Root(1), NONE, false), Root(2), NONE, false)
    ensures Reached(steps, u) && NoDrops(steps) && OnePass(steps)
    ensures u == Moment(Log34(), map[], HalfDone(), u.passes) && 0 in u.passes && u.passes[0] == HalfSeen()
  {
    steps, u := SeeOne(a, s, Reply(4));
  }

  lemma HalfCommits(a: seq<Step>, s: State) returns (steps: seq<Step>, t: State)
    requires Reached(a, s) && NoDrops(a) && OnePass(a)
    requires s == Moment(Log34(), map[], HalfDone(), s.passes) && 0 in s.passes && s.passes[0] == HalfSeen()
    ensures Reached(steps, t) && NoDrops(steps) && OnePass(steps) && Reply(3) in t.log
    ensures Cursor(t.cursors, KEY) == 4 && !Settled(t, Seen(Reply(3)))
  {
    HalfCloses(s);
    steps, t := CloseAndCommit(a, s, HalfSeen());
  }

  lemma HalfCloses(s: State)
    ensures PassEnabled(s, HalfSeen(), Close(0)) && KEY in HalfSeen().newTS && HalfSeen().newTS[KEY] == 4
    ensures Reply(3) in Log34() && Seen(Reply(3)) !in HalfDone()
  {
  }

  // ---------- Overlapping passes ----------

  function Open(log: set<Entry>): Pass { Ready(Listed(log)) }

  function One(): set<Entry> { {} + {Root(1)} }

  function Two(): set<Entry> { {} + {Root(1)} + {Root(2)} }

  /** Classified the one message it listed. */
  function Early(): Pass { Closed(Sees(Open(One()), Root(1), NONE, false)) }

  /** Classified both messages. */
  function Full(): Pass { Closed(Sees(Sees(Open(Two()), Root(1), NONE, false), Root(2), NONE, false)) }

  /** Met a cursor past both messages. */
  function Idle(): Pass { Closed(Skips(Skips(Open(Two()), Root(1), 2), Root(2), 2)) }

  lemma OpenRuns(a: seq<Step>, log: set<Entry>, done: set<Item>, passes: map<nat, Pass>, p: nat)
    returns (b: seq<Step>)
    requires Reached(a, Moment(log, map[], done, passes)) && p !in passes && OurRoots(log)
    ensures Reached(b, Moment(log, map[], done, passes[p := Open(log)]))
  {
    b := ListRuns(a, log, done, passes, p);
    EndRuns(b, Moment(log, map[], done, passes[p := Listed(log)]), p);
    b := b + [EndFetch(p, CHAN)];
    assert passes[p := Listed(log)][p := Open(log)] == passes[p := Open(log)];
  }

  lemma EarlyRuns() returns (a: seq<Step>)
    ensures Reached(a, Moment(One(), map[], {} + {Seen(Root(1))}, map[][0 := Early()]))
  {
    FirstPost();
    assert Posted(START, Root(1)) == Moment(One(), map[], {}, map[]);
    a := OpenRuns([Post(Root(1))], One(), {}, map[], 0);
    a := EarlyEnds(a);
  }

  lemma EarlyEnds(a: seq<Step>) returns (b: seq<Step>)
    requires Reached(a, Moment(One(), map[], {}, map[][0 := Open(One())]))
    ensures Reached(b, Moment(One(), map[], {} + {Seen(Root(1))}, map[][0 := Early()]))
  {
    SeeRuns(a, Moment(One(), map[], {}, map[][0 := Open(One())]), 0, Root(1), false);
    b := a + [Classify(0, Seen(Root(1)), false)];
    var pass := Sees(Open(One()), Root(1), NONE, false);
    assert map[0 := Open(One())][0 := pass] == map[0 := pass];
    CloseRuns(b, Moment(One(), map[], {} + {Seen(Root(1))}, map[0 := pass]), 0);
    b := b + [Close(0)];
    assert map[0 := pass][0 := Early()] == map[0 := Early()];
  }

  /** The passes once two more have listed both messages. */
  function ThreePasses(): map<nat, Pass> { map[][0 := Early()][1 := Open(Two())][2 := Open(Two())] }

  lemma ThreePassesRun() returns (a: seq<Step>)
    ensures Reached(a, Moment(Two(), map[], {} + {Seen(Root(1))}, ThreePasses()))
  {
    a := EarlyRuns();
    PostRuns(a, Moment(One(), map[], {} + {Seen(Root(1))}, map[][0 := Early()]), Root(2));
    a := a + [Post(Root(2))];
    assert One() + {Root(2)} == Two();
    a := OpenRuns(a, Two(), {} + {Seen(Root(1))}, map[][0 := Early()], 1);
    a := OpenRuns(a, Two(), {} + {Seen(Root(1))}, map[][0 := Early()][1 := Open(Two())], 2);
  }

  /** The last pass stores 2. */
  lemma FullCommits(a: seq<Step>, s: State) returns (b: seq<Step>, t: State)
    requires Reached(a, s) && s == Moment(Two(), map[], {} + {Seen(Root(1))}, ThreePasses())
    ensures Reached(b, t) && t.cursors == map[KEY := 2] && t.log == s.log && t.now == 0
    ensures t.passes.Keys == {0, 1, 2} && t.passes[0] == Early() && t.passes[1] == Open(Two())
    ensures t.passes[2].dropped == {} && t.excused == {}
  {
    SeeRuns(a, s, 2, Root(1), false);
    b := a + [Classify(2, Seen(Root(1)), false)];
    var p1 := Sees(Open(Two()), Root(1), NONE, false);
    b, t := FullSees(b, With(Done(s, s.done + {Seen(Root(1))}), 2, p1));
  }

  lemma FullSees(a: seq<Step>, s: State) returns (b: seq<Step>, t: State)
    requires Reached(a, s) && s.passes.Keys == {0, 1, 2} && s.cursors == map[]
    requires s.passes[2] == Sees(Open(Two()), Root(1), NONE, false)
    ensures Reached(b, t) && t.cursors == map[KEY := 2] && t.log == s.log && t.now == s.now
    ensures t.passes.Keys == {0, 1, 2} && t.passes[0] == s.passes[0] && t.passes[1] == s.passes[1]
    ensures t.passes[2].dropped == {} && t.excused == s.excused
  {
    SeeRuns(a, s, 2, Root(2), false);
    b := a + [Classify(2, Seen(Root(2)), false)];
    var p2 := Sees(s.passes[2], Root(2), NONE, false);
    b, t := FullEnds(b, With(Done(s, s.done + {Seen(Root(2))}), 2, p2));
  }

  lemma FullEnds(a: seq<Step>, s: State) returns (b: seq<Step>, t: State)
    requires Reached(a, s) && s.passes.Keys == {0, 1, 2} && s.cursors == map[]
    requires s.passes[2] == Sees(Sees(Open(Two()), Root(1), NONE, false), Root(2), NONE, false)
    ensures Reached(b, t) && t.cursors == map[KEY := 2] && t.log == s.log && t.now == s.now
    ensures t.passes.Keys == {0, 1, 2} && t.passes[0] == s.passes[0] && t.passes[1] == s.passes[1]
    ensures t.passes[2].dropped == {} && t.excused == s.excused
  {
    CloseRuns(a, s, 2);
    t := With(s, 2, Full());
    CommitRuns(a + [Close(2)], t, 2);
    b := a + [Close(2)] + [Commit(2, KEY)];
    assert Full().newTS[KEY] == 2;
    t := With(Stored(t, 2), 2, Committed(Full()));
    assert t.cursors == map[KEY := 2];
  }

  /** Two passes that overlap: the one that listed later has stored 2; committing the earlier one, which is
      enabled and clean, stores 1. NoLoss covers such runs as well. */
  lemma CursorCanMoveBack() returns (steps: seq<Step>, s: State)
    ensures Runs(START, steps, s) && Enabled(s, Commit(0, KEY)) && Cursor(s.cursors, KEY) == 2
    ensures CleanStep(s, Commit(0, KEY)) && Cursor(Apply(s, Commit(0, KEY)).cursors, KEY) == 1
  {
    steps := ThreePassesRun();
    steps, s := FullCommits(steps, Moment(Two(), map[], {} + {Seen(Root(1))}, ThreePasses()));
    EarlyCommit(s);
  }

  lemma EarlyCommit(s: State)
    requires 0 in s.passes && s.passes[0] == Early() && s.log == Two()
    ensures Enabled(s, Commit(0, KEY)) && CleanStep(s, Commit(0, KEY))
    ensures Cursor(Apply(s, Commit(0, KEY)).cursors, KEY) == 1
  {
    assert Early().newTS == map[KEY := 1] && Early().dropped == {};
    assert forall e :: Late(s, Early(), e) ==> e == Root(2);
  }

  /** The stamp does not mean that the newest message fetched is stored: the middle pass found both messages
      at or below the cursor, the early pass then moves the cursor back, and the middle pass is stamped. */
  lemma StampOverOlderCursor() returns (steps: seq<Step>, t: State)
    ensures Runs(START, steps, t) && 1 in t.passes && USER in t.passes[1].stamped
    ensures Root(2) in t.passes[1].snapshot && Cursor(t.cursors, KEY) == 1
    ensures KEY !in t.passes[1].newTS && t.passes[1].held == {}
  {
    var s: State;
    steps := ThreePassesRun();
    steps, s := FullCommits(steps, Moment(Two(), map[], {} + {Seen(Root(1))}, ThreePasses()));
    steps, s := MiddleSkips(steps, s);
    EarlyCommit(s);
    Then(steps, s, Commit(0, KEY));
    steps, s := steps + [Commit(0, KEY)], Apply(s, Commit(0, KEY));
    steps, t := MiddleIsStamped(steps, s);
  }

  lemma MiddleSkips(a: seq<Step>, s: State) returns (b: seq<Step>, t: State)
    requires Reached(a, s) && s.cursors == map[KEY := 2] && s.log == Two()
    requires s.passes.Keys == {0, 1, 2} && s.passes[0] == Early() && s.passes[1] == Open(Two())
    ensures Reached(b, t) && t.cursors == s.cursors && t.log == s.log
    ensures t.passes.Keys == {0, 1, 2} && t.passes[0] == Early() && t.passes[1] == Idle()
  {
    SkipRuns(a, s, 1, Root(1));
    var p1 := Skips(Open(Two()), Root(1), 2);
    b, t := MiddleCloses(a + [Classify(1, Seen(Root(1)), false)], With(s, 1, p1), p1);
  }

  lemma MiddleCloses(a: seq<Step>, s: State, pass: Pass) returns (b: seq<Step>, t: State)
    requires Reached(a, s) && s.cursors == map[KEY := 2] && pass == Skips(Open(Two()), Root(1), 2)
    requires s.passes.Keys == {0, 1, 2} && s.passes[1] == pass
    ensures Reached(b, t) && t == s.(passes := t.passes)
    ensures t.passes.Keys == {0, 1, 2} && t.passes[0] == s.passes[0] && t.passes[1] == Idle()
  {
    SkipRuns(a, s, 1, Root(2));
    var p2 := Skips(pass, Root(2), 2);
    b, t := a + [Classify(1, Seen(Root(2)), false)], With(s, 1, p2);
    CloseRuns(b, t, 1);
    b, t := b + [Close(1)], With(t, 1, Closed(p2));
  }

  lemma MiddleIsStamped(a: seq<Step>, s: State) returns (b: seq<Step>, t: State)
    requires Reached(a, s) && 1 in s.passes && s.passes[1] == Idle()
    ensures Reached(b, t) && 1 in t.passes && USER in t.passes[1].stamped && t.cursors == s.cursors
    ensures Root(2) in t.passes[1].snapshot && KEY !in t.passes[1].newTS && t.passes[1].held == {}
  {
    var mark := MarkSuccess(1, USER);
    assert Idle().newTS == map[] && Idle().held == {} && Idle().failed == {};
    Then(a, s, mark);
    b, t := a + [mark], Apply(s, mark);
    assert t.passes[1] == Idle().(stamped := Idle().stamped + {USER});
  }
}
