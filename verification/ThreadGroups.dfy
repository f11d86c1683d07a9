/** All subscribers of one thread, swept together: one page is read from the group's smallest cursor, each
    subscriber is handed what is new to it, and all end with the scan's cursor
    (scanner/scanner_slack_threads.go). */
module ThreadGroups {
  import opened SlackTime
  import opened SlackThreads
  import opened ThreadTable

  /** A thread with its subscribers and what each was handed so far. */
  datatype Group = Group(parent: Reply, log: seq<Reply>, members: seq<Meta>, handed: seq<seq<Reply>>,
                         closed: bool, resolvedTS: Ts)

  ghost predicate ValidGroup(g: Group) {
    && g.members != [] && |g.handed| == |g.members|
    && NONE < g.parent.ts && GoodLog(g.parent, g.log) && KnownCursors(g.parent, g.log, g.members)
  }

  ghost predicate GoodLog(parent: Reply, log: seq<Reply>) {
    Ascending(log) && forall i :: 0 <= i < |log| ==> log[i].ts > parent.ts && !log[i].check
  }

  ghost predicate PossibleSweep(g: Group, sw: Sweep) { !g.closed && GoodLog(g.parent, g.log + sw.posted) }

  function PageFor(g: Group, sw: Sweep): seq<Reply>
    requires g.members != []
  {
    Page(g.parent, g.log + sw.posted, MinOf(g.members), sw)
  }

  function ScanFor(g: Group, sw: Sweep): ScanResult
    requires g.members != []
  {
    Scan(PageFor(g, sw), MinOf(g.members), MinOf(g.members), g.members[0].lastActivityTS)
  }

  function HandTo(g: Group, sw: Sweep, i: nat): seq<Reply>
    requires i < |g.members| == |g.handed|
  {
    g.handed[i] + Bodies(Dispatched(PageFor(g, sw), g.members[i].lastTS, ScanFor(g, sw)))
  }

  function MoveTo(members: seq<Meta>, res: ScanResult): seq<Meta> {
    seq(|members|, i requires 0 <= i < |members| =>
      members[i].(lastTS := res.newLastTS, lastActivityTS := res.newLastActivity))
  }

  /** One hot sweep of the whole group. */
  function GroupSweep(g: Group, sw: Sweep): Group
    requires g.members != [] && |g.handed| == |g.members|
  {
    var res := ScanFor(g, sw);
    var served := g.(log := g.log + sw.posted,
                     handed := seq(|g.members|, i requires 0 <= i < |g.members| => HandTo(g, sw, i)));
    if res.isResolved then served.(closed := true, resolvedTS := res.newLastTS)
    else served.(members := MoveTo(g.members, res))
  }

  ghost predicate GroupSweeps(g: Group, sweeps: seq<Sweep>, u: Group)
    decreases |sweeps|
  {
    if sweeps == [] then g == u
    else && ValidGroup(g) && PossibleSweep(g, sweeps[0])
         && GroupSweeps(GroupSweep(g, sweeps[0]), sweeps[1..], u)
  }

  /** How far a swept group has come. */
  function Reached(g: Group): Ts
    requires g.members != []
  {
    if g.closed then g.resolvedTS else g.members[0].lastTS
  }

  // ---------- One sweep ----------

  lemma ScanStopsAtKnown(g: Group, sw: Sweep)
    requires ValidGroup(g) && PossibleSweep(g, sw)
    ensures MinOf(g.members) <= ScanFor(g, sw).newLastTS
    ensures KnownCursor(g.parent, g.log + sw.posted, ScanFor(g, sw).newLastTS)
  {
    var log, min, act := g.log + sw.posted, MinOf(g.members), g.members[0].lastActivityTS;
    MinIsKnown(g);
    ScanNeverMovesBack(PageFor(g, sw), min, min, act);
    KnownInMore(g.parent, g.log, sw.posted, min);
    ScanStops(g.parent, log, min, act, sw);
  }

  lemma MinIsKnown(g: Group)
    requires ValidGroup(g)
    ensures MinOf(g.members) >= g.parent.ts && KnownCursor(g.parent, g.log, MinOf(g.members))
    ensures forall i :: 0 <= i < |g.members| ==> MinOf(g.members) <= g.members[i].lastTS
  {
    MinOfIsLeast(g.members);
    var i :| 0 <= i < |g.members| && g.members[i].lastTS == MinOf(g.members);
  }

  lemma KnownInMore(parent: Reply, log: seq<Reply>, more: seq<Reply>, c: Ts)
    requires KnownCursor(parent, log, c)
    ensures KnownCursor(parent, log + more, c)
  {
    if i :| 0 <= i < |log| && log[i].ts == c { assert (log + more)[i].ts == c; }
  }

  /** A scan stops where it started or at a reply it read. */
  lemma ScanStops(parent: Reply, log: seq<Reply>, min: Ts, act: Ts, sw: Sweep)
    requires NONE < parent.ts <= min && Ascending(log) && KnownCursor(parent, log, min)
    ensures KnownCursor(parent, log, Scan(Page(parent, log, min, sw), min, min, act).newLastTS)
  {
    var below, read, rest := PageShape(parent, log, min, sw);
    var head := parent.(check := parent.ts in sw.checked);
    var marked := Marked(read, sw.checked);
    MarkedIs(read, sw.checked);
    ScanSkips(head, marked, min, min, act);
    ScanAscending(marked, min, min, act);
    var res := Scan(marked, min, min, act);
    if res.newLastTS != min {
      var i :| 0 <= i < |marked| && marked[i].ts == res.newLastTS;
      assert log[|below| + i].ts == res.newLastTS;
    }
  }

  /** One sweep hands each member what lies between its own cursor and where the scan stopped. */
  lemma SweepServesMember(g: Group, sw: Sweep, i: nat)
    requires ValidGroup(g) && PossibleSweep(g, sw) && i < |g.members|
    ensures HandTo(g, sw, i)
         == g.handed[i] + Between(g.log + sw.posted, g.members[i].lastTS, ScanFor(g, sw).newLastTS)
  {
    MinIsKnown(g);
    var res := PageServes(g.parent, g.log + sw.posted, MinOf(g.members), g.members[i].lastTS,
                          g.members[0].lastActivityTS, sw);
  }

  ghost predicate AllAt(members: seq<Meta>, c: Ts) { forall i :: 0 <= i < |members| ==> members[i].lastTS == c }

  /** Wherever a scan stops, the members' cursors are known ones. */
  lemma MembersStayKnown(g: Group, sw: Sweep)
    requires ValidGroup(g) && PossibleSweep(g, sw)
    ensures KnownCursors(g.parent, g.log + sw.posted, GroupSweep(g, sw).members)
  {
    var u := GroupSweep(g, sw);
    MinIsKnown(g);
    ScanStopsAtKnown(g, sw);
    forall i | 0 <= i < |u.members|
      ensures u.members[i].lastTS >= g.parent.ts
      ensures KnownCursor(g.parent, g.log + sw.posted, u.members[i].lastTS)
    {
      if u.closed { KnownInMore(g.parent, g.log, sw.posted, g.members[i].lastTS); }
    }
  }

  lemma SweepKeepsGroup(g: Group, sw: Sweep)
    requires ValidGroup(g) && PossibleSweep(g, sw)
    ensures var u := GroupSweep(g, sw);
      && ValidGroup(u) && u.parent == g.parent && u.log == g.log + sw.posted && |u.members| == |g.members|
      && Reached(u) == ScanFor(g, sw).newLastTS && (!u.closed ==> AllAt(u.members, Reached(u)))
      && KnownCursor(u.parent, u.log, Reached(u))
  {
    MembersStayKnown(g, sw);
    ScanStopsAtKnown(g, sw);
  }

  // ---------- Sweep after sweep ----------

  lemma KnownIsBelowPosted(parent: Reply, log: seq<Reply>, more: seq<Reply>, c: Ts)
    requires GoodLog(parent, log + more) && KnownCursor(parent, log, c)
    ensures forall j :: 0 <= j < |more| ==> more[j].ts > c
  {
    var all := log + more;
    forall j | 0 <= j < |more| ensures more[j].ts > c {
      assert all[|log| + j] == more[j];
      if i :| 0 <= i < |log| && log[i].ts == c { assert all[i] == log[i]; }
    }
  }

  lemma BetweenInMore(log: seq<Reply>, more: seq<Reply>, lo: Ts, hi: Ts)
    requires forall j :: 0 <= j < |more| ==> more[j].ts > hi
    ensures Between(log + more, lo, hi) == Between(log, lo, hi)
  {
    BetweenConcat(log, more, lo, hi);
    BetweenNone(more, lo, hi);
  }

  /** Later sweeps only add replies to the end of the log. */
  lemma {:induction false} LogGrows(g: Group, sweeps: seq<Sweep>, u: Group) returns (more: seq<Reply>)
    requires ValidGroup(g) && GroupSweeps(g, sweeps, u)
    ensures u.log == g.log + more && u.parent == g.parent && ValidGroup(u) && |u.members| == |g.members|
    decreases |sweeps|
  {
    if sweeps == [] {
      more := [];
    } else {
      SweepKeepsGroup(g, sweeps[0]);
      more := LogGrows(GroupSweep(g, sweeps[0]), sweeps[1..], u);
      assert g.log + (sweeps[0].posted + more) == g.log + sweeps[0].posted + more;
      more := sweeps[0].posted + more;
    }
  }

  /** Once the cursors are equal, every member is handed exactly what was written since, each reply once. */
  lemma {:induction false} EqualGroupIsServedOnce(g: Group, sweeps: seq<Sweep>, u: Group, i: nat)
    requires ValidGroup(g) && !g.closed && AllAt(g.members, Reached(g)) && GroupSweeps(g, sweeps, u)
    requires i < |g.members|
    ensures i < |u.handed| && u.members != [] && Reached(g) <= Reached(u)
    ensures u.handed[i] == g.handed[i] + Between(u.log, Reached(g), Reached(u))
    decreases |sweeps|
  {
    var c := Reached(g);
    if sweeps == [] {
      BetweenNone(g.log, c, c);
    } else {
      var u1 := GroupSweep(g, sweeps[0]);
      MinIsKnown(g);
      MinOfIsLeast(g.members);
      SweepKeepsGroup(g, sweeps[0]);
      ScanStopsAtKnown(g, sweeps[0]);
      SweepServesMember(g, sweeps[0], i);
      assert u1.handed[i] == g.handed[i] + Between(u1.log, c, Reached(u1));
      if u1.closed {
        assert sweeps[1..] == [];
      } else {
        EqualGroupIsServedOnce(u1, sweeps[1..], u, i);
        LaterIsAdded(u1, sweeps[1..], u, c, g.handed[i]);
      }
    }
  }

  lemma LaterIsAdded(u1: Group, sweeps: seq<Sweep>, u: Group, lo: Ts, before: seq<Reply>)
    requires ValidGroup(u1) && !u1.closed && GroupSweeps(u1, sweeps, u)
    requires lo <= Reached(u1) && u.members != [] && Reached(u1) <= Reached(u)
    requires KnownCursor(u1.parent, u1.log, Reached(u1))
    ensures before + Between(u1.log, lo, Reached(u1)) + Between(u.log, Reached(u1), Reached(u))
         == before + Between(u.log, lo, Reached(u))
  {
    var more := LogGrows(u1, sweeps, u);
    KnownIsBelowPosted(u1.parent, u1.log, more, Reached(u1));
    BetweenInMore(u1.log, more, lo, Reached(u1));
    BetweenSplits(u.log, lo, Reached(u1), Reached(u));
  }

  /** The group after its first sweep. */
  function First(g: Group, sweeps: seq<Sweep>): Group
    requires sweeps != [] && g.members != [] && |g.handed| == |g.members|
  {
    GroupSweep(g, sweeps[0])
  }

  /** From any cursors at all: a member is handed what lies between its cursor and where the first sweep
      stopped, and from there on, with everybody else, exactly what follows. */
  lemma MemberIsHanded(g: Group, sweeps: seq<Sweep>, u: Group, i: nat)
    requires ValidGroup(g) && !g.closed && sweeps != [] && GroupSweeps(g, sweeps, u) && i < |g.members|
    ensures i < |u.handed| && u.members != [] && Reached(First(g, sweeps)) <= Reached(u)
    ensures u.handed[i] == g.handed[i] + Between(u.log, g.members[i].lastTS, Reached(First(g, sweeps)))
                                       + Between(u.log, Reached(First(g, sweeps)), Reached(u))
  {
    var u1 := First(g, sweeps);
    SweepKeepsGroup(g, sweeps[0]);
    SweepServesMember(g, sweeps[0], i);
    var f := Reached(u1);
    var more := LogGrows(u1, sweeps[1..], u);
    KnownIsBelowPosted(u1.parent, u1.log, more, f);
    BetweenInMore(u1.log, more, g.members[i].lastTS, f);
    if u1.closed {
      assert sweeps[1..] == [];
      BetweenNone(u.log, f, f);
    } else {
      EqualGroupIsServedOnce(u1, sweeps[1..], u, i);
    }
  }

  /** The sweep is unresolved and the member is more replies ahead of the smallest cursor than the page
      returns. */
  predicate MovesBack(g: Group, sw: Sweep, i: nat)
    requires i < |g.members| == |g.handed|
  {
    && !ScanFor(g, sw).isResolved
    && Ahead(g.log + sw.posted, MinOf(g.members), g.members[i].lastTS) > sw.limit
  }

  lemma MovesBackIs(g: Group, sw: Sweep, i: nat)
    requires ValidGroup(g) && PossibleSweep(g, sw) && i < |g.members|
    ensures MovesBack(g, sw, i) <==> !ScanFor(g, sw).isResolved && ScanFor(g, sw).newLastTS < g.members[i].lastTS
  {
    var c := g.members[i].lastTS;
    MinIsKnown(g);
    KnownInMore(g.parent, g.log, sw.posted, c);
    PageMovesBackIff(g.parent, g.log + sw.posted, MinOf(g.members), c, g.members[0].lastActivityTS, sw);
  }

  /** Main result: over any number of hot sweeps from any cursors, a member is handed exactly the non-bot replies
      in (its cursor, current position], in order and each once, unless the first sweep moves it back; then, and
      only then, it is handed everything from where that sweep stopped. */
  lemma GroupIsServedOnce(g: Group, sweeps: seq<Sweep>, u: Group, i: nat)
    requires ValidGroup(g) && !g.closed && sweeps != [] && GroupSweeps(g, sweeps, u) && i < |g.members|
    ensures i < |u.handed| && u.members != []
    ensures var c, f := g.members[i].lastTS, Reached(First(g, sweeps));
      && (MovesBack(g, sweeps[0], i) ==> f < c)
      && u.handed[i] == g.handed[i] + Between(u.log, if MovesBack(g, sweeps[0], i) then f else c, Reached(u))
  {
    if ScanFor(g, sweeps[0]).isResolved {
      ResolvedAtOnce(g, sweeps, u, i);
    } else {
      SweepKeepsGroup(g, sweeps[0]);
      MemberIsHanded(g, sweeps, u, i);
      MovesBackIs(g, sweeps[0], i);
      var more := LogGrows(First(g, sweeps), sweeps[1..], u);
      Stretches(g.handed[i], u.log, g.members[i].lastTS, Reached(First(g, sweeps)), Reached(u));
    }
  }

  lemma ResolvedAtOnce(g: Group, sweeps: seq<Sweep>, u: Group, i: nat)
    requires ValidGroup(g) && !g.closed && sweeps != [] && GroupSweeps(g, sweeps, u) && i < |g.members|
    requires ScanFor(g, sweeps[0]).isResolved
    ensures u == First(g, sweeps) && i < |u.handed| && u.members != []
    ensures u.handed[i] == g.handed[i] + Between(u.log, g.members[i].lastTS, Reached(u))
  {
    assert sweeps[1..] == [];
    SweepServesMember(g, sweeps[0], i);
  }

  lemma Stretches(before: seq<Reply>, log: seq<Reply>, c: Ts, f: Ts, r: Ts)
    requires Ascending(log) && f <= r
    ensures before + Between(log, c, f) + Between(log, f, r) == before + Between(log, if f < c then f else c, r)
  {
    Joined(log, c, f, r);
    assert before + Between(log, c, f) + Between(log, f, r) == before + (Between(log, c, f) + Between(log, f, r));
  }

  /** Two stretches that meet make one; an inverted stretch is empty. */
  lemma Joined(log: seq<Reply>, c: Ts, f: Ts, r: Ts)
    requires Ascending(log) && f <= r
    ensures c <= f ==> Between(log, c, f) + Between(log, f, r) == Between(log, c, r)
    ensures f < c ==> Between(log, c, f) == []
  {
    if c <= f { BetweenSplits(log, c, f, r); } else { BetweenNone(log, c, f); }
  }

  // ---------- The sweeps over the table ----------

  ghost predicate OneThread(keys: seq<Key>, parent: Reply) {
    keys != [] && forall i :: 0 <= i < |keys| ==> keys[i].channel == keys[0].channel && keys[i].threadTS == parent.ts
  }

  /** The members' rows, with these cursors and this status. */
  ghost predicate RowsAre(rows: map<Key, Row>, keys: seq<Key>, members: seq<Meta>, status: Status) {
    && |members| == |keys|
    && forall i :: 0 <= i < |keys| ==>
         && KeyOf(members[i]) == keys[i] && keys[i] in rows
         && rows[keys[i]] == Row(status, members[i].lastTS, members[i].lastActivityTS)
  }

  /** The hot selection of one thread. */
  method Select(table: Table, keys: seq<Key>) returns (group: seq<Meta>)
    requires forall i :: 0 <= i < |keys| ==> keys[i] in table.rows && table.rows[keys[i]].status == Active
    ensures RowsAre(table.rows, keys, group, Active)
  {
    group := [];
    for i := 0 to |keys|
      invariant RowsAre(table.rows, keys[..i], group, Active)
    {
      var k, r := keys[i], table.rows[keys[i]];
      assert keys[..i + 1] == keys[..i] + [k];
      group := group + [Meta(k.email, k.channel, k.threadTS, r.lastTS, r.lastActivityTS)];
    }
    assert keys[..|keys|] == keys;
  }

  lemma SameMembers(rows: map<Key, Row>, keys: seq<Key>, a: seq<Meta>, b: seq<Meta>)
    requires RowsAre(rows, keys, a, Active) && RowsAre(rows, keys, b, Active)
    ensures a == b
  {
    forall i | 0 <= i < |keys| ensures a[i] == b[i] {
      assert KeyOf(a[i]) == KeyOf(b[i]);
    }
  }

  /** The record of what each member was handed, with one sweep's replies added. */
  method Record(handed: seq<seq<Reply>>, mine: seq<seq<Reply>>) returns (r: seq<seq<Reply>>)
    requires |handed| == |mine|
    ensures |r| == |mine| && forall i :: 0 <= i < |mine| ==> r[i] == handed[i] + Bodies(mine[i])
  {
    r := [];
    for i := 0 to |mine|
      invariant |r| == i && forall j :: 0 <= j < i ==> r[j] == handed[j] + Bodies(mine[j])
    {
      r := r + [handed[i] + Bodies(mine[i])];
    }
  }

  /** What the sweep's own analysis registers. */
  function SweepRegs(g: Group, sw: Sweep, answers: seq<Answer>): seq<Reg>
    requires g.members != []
  {
    Regs(g.members, PageFor(g, sw), ScanFor(g, sw), answers)
  }

  function AtLastReg(members: seq<Meta>, regs: seq<Reg>): seq<Meta> {
    seq(|members|, i requires 0 <= i < |members| =>
      var k := KeyOf(members[i]);
      if Named(regs, k) then members[i].(lastTS := LastReg(regs, k), lastActivityTS := LastReg(regs, k))
      else members[i])
  }

  /** A sweep with what its analysis registers meanwhile. An unresolved sweep writes over the registrations; a
      resolving one closes the rows where the registrations left them. */
  function Swept(g: Group, sw: Sweep, answers: seq<Answer>): Group
    requires g.members != [] && |g.handed| == |g.members|
  {
    var u := GroupSweep(g, sw);
    if u.closed then u.(members := AtLastReg(g.members, SweepRegs(g, sw, answers))) else u
  }

  /** processSlackThreadGroup: select, read one page from the smallest cursor, scan, hand out, store. */
  method SweepGroup(table: Table, keys: seq<Key>, parent: Reply, log: seq<Reply>, sw: Sweep,
                    answers: seq<Answer>, handed: seq<seq<Reply>>, ghost g: Group)
    returns (r: seq<seq<Reply>>, resolved: bool)
    requires parent == g.parent && OneThread(keys, parent) && ValidGroup(g) && PossibleSweep(g, sw)
    requires RowsAre(table.rows, keys, g.members, Active) && handed == g.handed && log == g.log + sw.posted
    modifies table
    ensures r == GroupSweep(g, sw).handed && resolved == GroupSweep(g, sw).closed
    ensures RowsAre(table.rows, keys, Swept(g, sw, answers).members, if resolved then Resolved else Active)
  {
    var mine;
    resolved, mine := SweepRows(table, keys, parent, log, sw, answers, g);
    r := Record(handed, mine);
  }

  /** What a sweep does to the table, and what it hands to each member. */
  method SweepRows(table: Table, keys: seq<Key>, parent: Reply, log: seq<Reply>, sw: Sweep, answers: seq<Answer>,
                   ghost g: Group)
    returns (resolved: bool, mine: seq<seq<Reply>>)
    requires parent == g.parent && OneThread(keys, parent) && ValidGroup(g) && PossibleSweep(g, sw)
    requires RowsAre(table.rows, keys, g.members, Active) && log == g.log + sw.posted
    modifies table
    ensures resolved == ScanFor(g, sw).isResolved && |mine| == |g.members|
    ensures forall i :: 0 <= i < |mine| ==> mine[i] == Dispatched(PageFor(g, sw), g.members[i].lastTS, ScanFor(g, sw))
    ensures RowsAre(table.rows, keys, Swept(g, sw, answers).members, if resolved then Resolved else Active)
  {
    var group := Select(table, keys);
    SameMembers(table.rows, keys, group, g.members);
    SelectedAre(table.rows, keys, group);
    PageIsReal(g, sw);
    ghost var before := table.rows;
    var res;
    res, mine := HotPass(table, group, Page(parent, log, MinOf(group), sw), answers);
    resolved := res.isResolved;
    SweptRows(before, table.rows, keys, g, sw, answers);
  }

  lemma SelectedAre(rows: map<Key, Row>, keys: seq<Key>, group: seq<Meta>)
    requires RowsAre(rows, keys, group, Active)
    ensures AsSelected(rows, group)
  {
    assert forall i :: 0 <= i < |group| ==> KeyOf(group[i]) == keys[i];
  }

  lemma PageIsReal(g: Group, sw: Sweep)
    requires ValidGroup(g) && PossibleSweep(g, sw)
    ensures forall i :: 0 <= i < |PageFor(g, sw)| ==> PageFor(g, sw)[i].ts != NONE
  {
    var log, min := g.log + sw.posted, MinOf(g.members);
    var below, read, rest := PageShape(g.parent, log, min, sw);
    MarkedIs(read, sw.checked);
  }

  lemma SweptRows(before: map<Key, Row>, after: map<Key, Row>, keys: seq<Key>, g: Group, sw: Sweep,
                  answers: seq<Answer>)
    requires ValidGroup(g) && !g.closed && RowsAre(before, keys, g.members, Active)
    requires var res := ScanFor(g, sw);
      && (res.isResolved ==>
            ClosedRows(AfterRegs(before, SweepRegs(g, sw, answers)), after, g.members, |g.members|))
      && (!res.isResolved ==> Converged(after, g.members, res.newLastTS, res.newLastActivity))
    ensures RowsAre(after, keys, Swept(g, sw, answers).members,
                    if ScanFor(g, sw).isResolved then Resolved else Active)
  {
    if ScanFor(g, sw).isResolved {
      ClosedSweep(before, after, keys, g, sw, answers);
    } else {
      StoredSweep(after, keys, g, sw, answers);
    }
  }

  lemma ClosedSweep(before: map<Key, Row>, after: map<Key, Row>, keys: seq<Key>, g: Group, sw: Sweep,
                    answers: seq<Answer>)
    requires ValidGroup(g) && RowsAre(before, keys, g.members, Active) && ScanFor(g, sw).isResolved
    requires ClosedRows(AfterRegs(before, SweepRegs(g, sw, answers)), after, g.members, |g.members|)
    ensures RowsAre(after, keys, Swept(g, sw, answers).members, Resolved)
  {
    var regs := SweepRegs(g, sw, answers);
    AfterRegsIs(before, regs);
    var members := AtLastReg(g.members, regs);
    forall i | 0 <= i < |keys|
      ensures KeyOf(members[i]) == keys[i] && keys[i] in after
      ensures after[keys[i]] == Row(Resolved, members[i].lastTS, members[i].lastActivityTS)
    {
      assert KeyOf(g.members[i]) == keys[i];
      assert Touched(g.members, |g.members|, keys[i]);
    }
  }

  lemma StoredSweep(after: map<Key, Row>, keys: seq<Key>, g: Group, sw: Sweep, answers: seq<Answer>)
    requires ValidGroup(g) && !g.closed && |keys| == |g.members| && !ScanFor(g, sw).isResolved
    requires forall i :: 0 <= i < |keys| ==> KeyOf(g.members[i]) == keys[i]
    requires Converged(after, g.members, ScanFor(g, sw).newLastTS, ScanFor(g, sw).newLastActivity)
    ensures RowsAre(after, keys, Swept(g, sw, answers).members, Active)
  {
    var res := ScanFor(g, sw);
    var members := MoveTo(g.members, res);
    assert Swept(g, sw, answers).members == members;
    forall i | 0 <= i < |keys|
      ensures KeyOf(members[i]) == keys[i] && keys[i] in after
      ensures after[keys[i]] == Row(Active, members[i].lastTS, members[i].lastActivityTS)
    {
      assert KeyOf(g.members[i]) == keys[i];
    }
  }

  // ---------- Registrations between sweeps ----------

  /** What happens to a group: a hot sweep with what its analysis extracts, or a registration for one member after
      `posted` was written, which sets the member's cursor to the registered message, wherever it was. */
  datatype Event = SweepNow(sw: Sweep, answers: seq<Answer>) | Registered(i: nat, c: Ts, posted: seq<Reply>)

  function Register(g: Group, i: nat, c: Ts, posted: seq<Reply>): Group
    requires i < |g.members|
  {
    g.(log := g.log + posted, members := g.members[i := g.members[i].(lastTS := c, lastActivityTS := c)])
  }

  ghost predicate PossibleEvent(g: Group, e: Event) {
    match e
    case SweepNow(sw, _) => PossibleSweep(g, sw)
    case Registered(i, c, posted) =>
      && !g.closed && i < |g.members| && GoodLog(g.parent, g.log + posted)
      && c >= g.parent.ts && KnownCursor(g.parent, g.log + posted, c)
  }

  ghost function AfterEvent(g: Group, e: Event): Group
    requires ValidGroup(g) && PossibleEvent(g, e)
  {
    match e
    case SweepNow(sw, answers) => Swept(g, sw, answers)
    case Registered(i, c, posted) => Register(g, i, c, posted)
  }

  ghost predicate GroupRun(g: Group, events: seq<Event>, u: Group)
    decreases |events|
  {
    if events == [] then g == u
    else && ValidGroup(g) && PossibleEvent(g, events[0])
         && GroupRun(AfterEvent(g, events[0]), events[1..], u)
  }

  function SweepsIn(events: seq<Event>): seq<Sweep>
    requires forall i :: 0 <= i < |events| ==> events[i].SweepNow?
  {
    if events == [] then [] else [events[0].sw] + SweepsIn(events[1..])
  }

  /** A run of sweeps alone, whatever their analysis extracts, is what the theorems above speak of, but for the
      cursors in the rows of a thread that is closed. */
  lemma {:induction false} SweepsAreRun(g: Group, events: seq<Event>, u: Group) returns (v: Group)
    requires GroupRun(g, events, u) && forall i :: 0 <= i < |events| ==> events[i].SweepNow?
    ensures GroupSweeps(g, SweepsIn(events), v) && u == v.(members := u.members) && (!u.closed ==> u == v)
    decreases |events|
  {
    if events == [] {
      v := g;
    } else {
      var sweeps, g1 := SweepsIn(events), GroupSweep(g, events[0].sw);
      assert sweeps[1..] == SweepsIn(events[1..]);
      if g1.closed {
        assert events[1..] == [];
        v := g1;
      } else {
        v := SweepsAreRun(g1, events[1..], u);
      }
    }
  }

  lemma RegisterKeepsGroup(g: Group, i: nat, c: Ts, posted: seq<Reply>)
    requires ValidGroup(g) && PossibleEvent(g, Registered(i, c, posted))
    ensures ValidGroup(Register(g, i, c, posted))
  {
    var u := Register(g, i, c, posted);
    forall j | 0 <= j < |u.members|
      ensures u.members[j].lastTS >= u.parent.ts && KnownCursor(u.parent, u.log, u.members[j].lastTS)
    {
      if j != i { KnownInMore(g.parent, g.log, posted, g.members[j].lastTS); }
    }
  }

  /** Whatever a resolving sweep registers is a message of the thread. */
  lemma SweptKeepsGroup(g: Group, sw: Sweep, answers: seq<Answer>)
    requires ValidGroup(g) && PossibleSweep(g, sw)
    ensures var u := Swept(g, sw, answers);
      ValidGroup(u) && u.parent == g.parent && u.log == g.log + sw.posted && |u.members| == |g.members|
  {
    SweepKeepsGroup(g, sw);
    var u, regs := Swept(g, sw, answers), SweepRegs(g, sw, answers);
    if u.closed {
      forall i | 0 <= i < |u.members|
        ensures u.members[i].lastTS >= u.parent.ts && KnownCursor(u.parent, u.log, u.members[i].lastTS)
      {
        var k := KeyOf(g.members[i]);
        KnownInMore(g.parent, g.log, sw.posted, g.members[i].lastTS);
        if Named(regs, k) {
          LastRegIsIn(regs, k);
          RegisteredIsKnown(g, sw, answers, Reg(k, LastReg(regs, k)));
        }
      }
    }
  }

  lemma RegisteredIsKnown(g: Group, sw: Sweep, answers: seq<Answer>, r: Reg)
    requires ValidGroup(g) && PossibleSweep(g, sw) && r in SweepRegs(g, sw, answers)
    ensures r.ts >= g.parent.ts && KnownCursor(g.parent, g.log + sw.posted, r.ts)
  {
    var page, res := PageFor(g, sw), ScanFor(g, sw);
    RegsAre(g.members, page, res, answers, r);
    var i :| 0 <= i < |g.members| && Extracts(g.members, i, page, res, answers, r.ts, r.k);
    DispatchedAre(page, g.members[i].lastTS, res, r.ts);
    PageIsKnown(g, sw, r.ts);
  }

  /** What a sweep leaves in the row of a member whose own analysis registers meanwhile: unresolved, where the scan
      stopped, whatever was registered; resolved, the message of the last item that was saved for it, which is at or
      before the point where the scan stopped, and its selected cursor only if none was. */
  lemma SweepLeavesCursor(g: Group, sw: Sweep, answers: seq<Answer>, i: nat)
    requires ValidGroup(g) && PossibleSweep(g, sw) && i < |g.members|
    ensures var u, res, k := Swept(g, sw, answers), ScanFor(g, sw), KeyOf(g.members[i]);
      && |u.members| == |g.members|
      && (!res.isResolved ==> u.members[i].lastTS == res.newLastTS)
      && (res.isResolved && !Named(SweepRegs(g, sw, answers), k) ==> u.members[i].lastTS == g.members[i].lastTS)
      && (res.isResolved && Named(SweepRegs(g, sw, answers), k) ==>
            && u.members[i].lastTS <= res.newLastTS
            && exists j :: 0 <= j < |g.members|
                           && Extracts(g.members, j, PageFor(g, sw), res, answers, u.members[i].lastTS, k))
  {
    var regs, res, k := SweepRegs(g, sw, answers), ScanFor(g, sw), KeyOf(g.members[i]);
    if res.isResolved && Named(regs, k) {
      LastRegIsIn(regs, k);
      var r := Reg(k, LastReg(regs, k));
      RegsAre(g.members, PageFor(g, sw), res, answers, r);
      var j :| 0 <= j < |g.members| && Extracts(g.members, j, PageFor(g, sw), res, answers, r.ts, k);
      DispatchedAre(PageFor(g, sw), g.members[j].lastTS, res, r.ts);
    }
  }

  lemma PageIsKnown(g: Group, sw: Sweep, ts: Ts)
    requires ValidGroup(g) && PossibleSweep(g, sw) && InBatch(PageFor(g, sw), ts)
    ensures ts >= g.parent.ts && KnownCursor(g.parent, g.log + sw.posted, ts)
  {
    var log := g.log + sw.posted;
    var below, read, rest := PageShape(g.parent, log, MinOf(g.members), sw);
    MarkedIs(read, sw.checked);
    var i :| 0 <= i < |PageFor(g, sw)| && PageFor(g, sw)[i].ts == ts;
    if i > 0 { assert log[|below| + (i - 1)].ts == ts; }
  }

  lemma EventKeepsGroup(g: Group, e: Event)
    requires ValidGroup(g) && PossibleEvent(g, e)
    ensures ValidGroup(AfterEvent(g, e)) && AfterEvent(g, e).parent == g.parent
    ensures |AfterEvent(g, e).members| == |g.members| && AfterEvent(g, e).log == g.log + PostedBy(e)
  {
    match e
    case SweepNow(sw, answers) => SweptKeepsGroup(g, sw, answers);
    case Registered(i, c, posted) => RegisterKeepsGroup(g, i, c, posted);
  }

  function PostedBy(e: Event): seq<Reply> {
    match e
    case SweepNow(sw, _) => sw.posted
    case Registered(_, _, posted) => posted
  }

  /** Main result: after a registration the member is handed everything from the registered message on. What lies
      between there and its old cursor is handed over again, and if the registered message is ahead of the old
      cursor, what lies between is never handed over. */
  lemma RegistrationHandsAgain(g: Group, i: nat, c: Ts, posted: seq<Reply>, sweeps: seq<Sweep>, u: Group)
    requires ValidGroup(g) && PossibleEvent(g, Registered(i, c, posted)) && sweeps != []
    requires GroupSweeps(Register(g, i, c, posted), sweeps, u)
    requires !MovesBack(Register(g, i, c, posted), sweeps[0], i)
    ensures var old' := g.members[i].lastTS;
      && i < |u.handed| && u.members != []
      && u.handed[i] == g.handed[i] + Between(u.log, c, Reached(u))
      && (c <= old' <= Reached(u) ==>
            u.handed[i] == g.handed[i] + Between(u.log, c, old') + Between(u.log, old', Reached(u)))
      && (old' <= c <= Reached(u) ==>
            Between(u.log, old', Reached(u)) == Between(u.log, old', c) + Between(u.log, c, Reached(u)))
  {
    var h, before := Register(g, i, c, posted), g.members[i].lastTS;
    RegisterKeepsGroup(g, i, c, posted);
    GroupIsServedOnce(h, sweeps, u, i);
    var more := LogGrows(h, sweeps, u);
    RejoinAt(g.handed[i], u.log, c, before, Reached(u));
  }

  lemma RejoinAt(handed: seq<Reply>, log: seq<Reply>, c: Ts, x: Ts, r: Ts)
    requires Ascending(log)
    ensures c <= x <= r ==> handed + Between(log, c, r) == handed + Between(log, c, x) + Between(log, x, r)
    ensures x <= c <= r ==> Between(log, x, r) == Between(log, x, c) + Between(log, c, r)
  {
    if c <= x <= r { RejoinAppended(handed, log, c, x, r); }
    if x <= c <= r { BetweenSplits(log, x, c, r); }
  }

  lemma RejoinAppended(handed: seq<Reply>, log: seq<Reply>, c: Ts, x: Ts, r: Ts)
    requires Ascending(log) && c <= x <= r
    ensures handed + Between(log, c, r) == handed + Between(log, c, x) + Between(log, x, r)
  {
    BetweenSplits(log, c, x, r);
    AppendAssociates(handed, Between(log, c, x), Between(log, x, r));
  }

  lemma AppendAssociates(a: seq<Reply>, b: seq<Reply>, c: seq<Reply>)
    ensures a + (b + c) == a + b + c
  {
  }

  /** A sweep tries a reply once: whatever a member is handed after a sweep was written after the point that the
      sweep reached, so a reply whose analysis failed does not come again. */
  lemma HandedOnlyOnce(g: Group, sw: Sweep, sweeps: seq<Sweep>, u: Group, i: nat) returns (later: seq<Reply>)
    requires ValidGroup(g) && PossibleSweep(g, sw) && GroupSweeps(GroupSweep(g, sw), sweeps, u) && i < |g.members|
    ensures i < |u.handed| && u.handed[i] == HandTo(g, sw, i) + later
    ensures forall r :: r in later ==> r.ts > ScanFor(g, sw).newLastTS
    ensures forall r :: r in Dispatched(PageFor(g, sw), g.members[i].lastTS, ScanFor(g, sw)) ==>
              r.ts <= ScanFor(g, sw).newLastTS
  {
    var u1 := GroupSweep(g, sw);
    SweepKeepsGroup(g, sw);
    DispatchedIsBelow(g, sw, i);
    if u1.closed {
      later := [];
    } else {
      EqualGroupIsServedOnce(u1, sweeps, u, i);
      later := Between(u.log, Reached(u1), Reached(u));
      BetweenBounds(u.log, Reached(u1), Reached(u));
    }
  }

  lemma DispatchedIsBelow(g: Group, sw: Sweep, i: nat)
    requires ValidGroup(g) && PossibleSweep(g, sw) && i < |g.members|
    ensures forall r :: r in Dispatched(PageFor(g, sw), g.members[i].lastTS, ScanFor(g, sw)) ==>
              r.ts <= ScanFor(g, sw).newLastTS
  {
    var page, c, res := PageFor(g, sw), g.members[i].lastTS, ScanFor(g, sw);
    SweepServesMember(g, sw, i);
    SweepBodies(g, sw, i);
    BetweenBounds(g.log + sw.posted, c, res.newLastTS);
    forall r | r in Dispatched(page, c, res) ensures r.ts <= res.newLastTS { BodyOf(Dispatched(page, c, res), r); }
  }

  lemma SweepBodies(g: Group, sw: Sweep, i: nat)
    requires ValidGroup(g) && PossibleSweep(g, sw) && i < |g.members|
    ensures Bodies(Dispatched(PageFor(g, sw), g.members[i].lastTS, ScanFor(g, sw)))
         == Between(g.log + sw.posted, g.members[i].lastTS, ScanFor(g, sw).newLastTS)
  {
    var unserved := g.(handed := seq(|g.members|, _ => []));
    assert unserved.handed[i] == [];
    assert PageFor(unserved, sw) == PageFor(g, sw) && ScanFor(unserved, sw) == ScanFor(g, sw);
    SweepServesMember(unserved, sw, i);
    var bodies := Bodies(Dispatched(PageFor(g, sw), g.members[i].lastTS, ScanFor(g, sw)));
    assert [] + bodies == bodies;
  }

  lemma {:induction false} BodyOf(rs: seq<Reply>, r: Reply)
    requires r in rs
    ensures exists b :: b in Bodies(rs) && b.ts == r.ts
  {
    if r == rs[0] {
      assert Bodies(rs)[0].ts == r.ts;
    } else {
      BodyOf(rs[1..], r);
      var b :| b in Bodies(rs[1..]) && b.ts == r.ts;
      assert b in Bodies(rs);
    }
  }

  lemma {:induction false} BetweenBounds(rs: seq<Reply>, lo: Ts, hi: Ts)
    ensures forall r :: r in Between(rs, lo, hi) ==> lo < r.ts <= hi
  {
    if rs != [] { BetweenBounds(rs[1..], lo, hi); }
  }

  // ---------- The loop over the table ----------

  /** What other people post keeps the thread's timestamps in order, and registrations name a message of the thread
      and a row that is the only one of its key. */
  ghost predicate GoodEvents(parent: Reply, log: seq<Reply>, keys: seq<Key>, events: seq<Event>)
    decreases |events|
  {
    events == [] ||
      (var after := log + PostedBy(events[0]);
       && GoodLog(parent, after)
       && (events[0].Registered? ==> RegistersOne(parent, after, keys, events[0]))
       && GoodEvents(parent, after, keys, events[1..]))
  }

  ghost predicate RegistersOne(parent: Reply, log: seq<Reply>, keys: seq<Key>, e: Event)
    requires e.Registered?
  {
    && e.i < |keys| && e.c >= parent.ts && KnownCursor(parent, log, e.c)
    && forall j :: 0 <= j < |keys| && j != e.i ==> keys[j] != keys[e.i]
  }

  lemma EventIsPossible(g: Group, keys: seq<Key>, e: Event, events: seq<Event>)
    requires ValidGroup(g) && !g.closed && |keys| == |g.members|
    requires events != [] && events[0] == e && GoodEvents(g.parent, g.log, keys, events)
    ensures PossibleEvent(g, e) && (e.Registered? ==> RegistersOne(g.parent, g.log + PostedBy(e), keys, e))
    ensures GoodEvents(g.parent, g.log + PostedBy(e), keys, events[1..])
  {
  }

  lemma {:induction false} RunGoesOn(g: Group, a: seq<Event>, t: Group, e: Event)
    requires GroupRun(g, a, t) && ValidGroup(t) && PossibleEvent(t, e)
    ensures GroupRun(g, a + [e], AfterEvent(t, e))
    decreases |a|
  {
    if a == [] {
      assert a + [e] == [e] && [e][1..] == [];
      assert GroupRun(AfterEvent(t, e), [], AfterEvent(t, e));
    } else {
      RunGoesOn(AfterEvent(g, a[0]), a[1..], t, e);
      assert (a + [e])[1..] == a[1..] + [e];
    }
  }

  /** One registration on the table: an upsert of the member's row. */
  method RegisterRow(table: Table, keys: seq<Key>, e: Event, ghost g: Group)
    requires e.Registered? && ValidGroup(g) && PossibleEvent(g, e) && RowsAre(table.rows, keys, g.members, Active)
    requires RegistersOne(g.parent, g.log + e.posted, keys, e)
    modifies table
    ensures RowsAre(table.rows, keys, Register(g, e.i, e.c, e.posted).members, Active)
  {
    table.Upsert(keys[e.i], e.c, e.c);
  }

  /** The table and the records are those of the group. */
  ghost predicate Stands(rows: map<Key, Row>, keys: seq<Key>, u: Group, handed: seq<seq<Reply>>, resolved: bool) {
    && handed == u.handed && resolved == u.closed
    && RowsAre(rows, keys, u.members, if resolved then Resolved else Active)
  }

  method HandleEvent(table: Table, keys: seq<Key>, e: Event, parent: Reply, log: seq<Reply>, handed: seq<seq<Reply>>,
                     ghost g: Group)
    returns (r: seq<seq<Reply>>, resolved: bool)
    requires OneThread(keys, parent) && ValidGroup(g) && !g.closed && PossibleEvent(g, e) && parent == g.parent
    requires e.Registered? ==> RegistersOne(parent, log, keys, e)
    requires RowsAre(table.rows, keys, g.members, Active) && handed == g.handed && log == g.log + PostedBy(e)
    modifies table
    ensures Stands(table.rows, keys, AfterEvent(g, e), r, resolved)
  {
    if e.SweepNow? {
      r, resolved := SweepGroup(table, keys, parent, log, e.sw, e.answers, handed, g);
    } else {
      RegisterRow(table, keys, e, g);
      r, resolved := handed, false;
    }
  }

  /** Main result: the loop of selections, page reads, hand-outs and row writes on the table, with registrations by
      each sweep's own analysis and any others between the sweeps, runs the group protocol above, until the sweep
      that resolves the thread and leaves its rows closed where its analysis registered them. */
  method HotSweeps(table: Table, keys: seq<Key>, events: seq<Event>, g: Group)
    returns (handed: seq<seq<Reply>>, n: nat, ghost u: Group)
    requires OneThread(keys, g.parent) && ValidGroup(g) && !g.closed && GoodEvents(g.parent, g.log, keys, events)
    requires RowsAre(table.rows, keys, g.members, Active) && g.handed == seq(|keys|, _ => [])
    modifies table
    ensures n <= |events| && (n < |events| ==> u.closed)
    ensures GroupRun(g, events[..n], u) && handed == u.handed
    ensures RowsAre(table.rows, keys, u.members, if u.closed then Resolved else Active)
  {
    handed := seq(|keys|, _ => []);
    n, u := 0, g;
    var log := g.log;
    var resolved := false;
    RunOpens(keys, events, g);
    while n < |events| && !resolved
      invariant RanSoFar(keys, events, g, n, u, log)
      invariant Stands(table.rows, keys, u, handed, resolved)
    {
      handed, resolved, log, u := HandleNext(table, keys, events, n, g, log, handed, u);
      n := n + 1;
    }
  }

  method HandleNext(table: Table, keys: seq<Key>, events: seq<Event>, n: nat, g: Group, log: seq<Reply>,
                    handed: seq<seq<Reply>>, ghost u: Group)
    returns (r: seq<seq<Reply>>, resolved: bool, after: seq<Reply>, ghost v: Group)
    requires OneThread(keys, g.parent) && RanSoFar(keys, events, g, n, u, log) && n < |events| && !u.closed
    requires Stands(table.rows, keys, u, handed, false)
    modifies table
    ensures RanSoFar(keys, events, g, n + 1, v, after) && Stands(table.rows, keys, v, r, resolved)
  {
    NextEvent(keys, events, g, n, u, log);
    after := log + PostedBy(events[n]);
    r, resolved := HandleEvent(table, keys, events[n], g.parent, after, handed, u);
    v := AfterEvent(u, events[n]);
  }

  lemma RunOpens(keys: seq<Key>, events: seq<Event>, g: Group)
    requires ValidGroup(g) && |g.members| == |keys| && GoodEvents(g.parent, g.log, keys, events)
    ensures RanSoFar(keys, events, g, 0, g, g.log)
  {
    assert events[..0] == [] && events[0..] == events;
  }

  /** Where the loop stands before event n. */
  ghost predicate RanSoFar(keys: seq<Key>, events: seq<Event>, g: Group, n: nat, u: Group, log: seq<Reply>) {
    && n <= |events| && GroupRun(g, events[..n], u) && log == u.log && u.parent == g.parent
    && ValidGroup(u) && |u.members| == |keys| && (!u.closed ==> GoodEvents(u.parent, u.log, keys, events[n..]))
  }

  lemma NextEvent(keys: seq<Key>, events: seq<Event>, g: Group, n: nat, u: Group, log: seq<Reply>)
    requires RanSoFar(keys, events, g, n, u, log) && n < |events| && !u.closed
    ensures PossibleEvent(u, events[n])
    ensures events[n].Registered? ==> RegistersOne(g.parent, log + PostedBy(events[n]), keys, events[n])
    ensures RanSoFar(keys, events, g, n + 1, AfterEvent(u, events[n]), log + PostedBy(events[n]))
  {
    var e := events[n];
    assert events[n..][0] == e && events[n..][1..] == events[n + 1..] && events[..n + 1] == events[..n] + [e];
    EventIsPossible(u, keys, e, events[n..]);
    RunGoesOn(g, events[..n], u, e);
    EventKeepsGroup(u, e);
  }

  // ---------- The shortcut, for a group ----------

  /** Reading the whole thread would resolve nothing, move no cursor and hand the member nothing. */
  ghost predicate Idle(parent: Reply, log: seq<Reply>, m: Meta, checked: set<Ts>) {
    var page := WholePage(parent, log, checked);
    var res := Scan(page, m.lastTS, m.lastTS, m.lastActivityTS);
    res == ScanResult(false, m.lastTS, m.lastActivityTS) && Dispatched(page, m.lastTS, res) == []
  }

  /** Main result: the decision is made for the first subscriber alone. When it skips the fetch, reading the whole
      thread would have been idle for every subscriber if and only if the newest reply is not beyond the group's
      smallest cursor. */
  lemma {:induction false} GroupSkipIsIdleIff(parent: Reply, log: seq<Reply>, group: seq<Meta>,
                                              a: ChannelActivity, now: Micros, checked: set<Ts>)
    requires group != [] && NONE < parent.ts && Ascending(log) && Faithful(a, parent, log)
    requires forall i :: 0 <= i < |group| ==> group[i].lastTS >= parent.ts
    requires ShouldSkipThreadFetch(parent.ts, group[0].lastTS, group[0].lastActivityTS, a, now)
    ensures Idle(parent, log, group[0], checked)
    ensures (forall i :: 0 <= i < |group| ==> Idle(parent, log, group[i], checked)) <==> Latest(log) <= MinOf(group)
  {
    MinOfIsLeast(group);
    forall i | 0 <= i < |group| ensures Idle(parent, log, group[i], checked) <==> Latest(log) <= group[i].lastTS {
      WholePageIsIdleIff(parent, log, group[i].lastTS, group[i].lastActivityTS, checked);
    }
    ShortcutRefinesFullScan(parent, log, group[0].lastTS, group[0].lastActivityTS, a, now, checked);
  }

  /** A group of two rows in which the first subscriber's decision skips a reply that the second never got. */
  lemma ShortcutCanStarveAMember() returns (parent: Reply, log: seq<Reply>, threads: seq<Meta>, a: ChannelActivity)
    ensures Ascending(log) && Faithful(a, parent, log) && GroupsAre(threads, [threads]) && |threads| == 2
    ensures ShouldSkipThreadFetch(parent.ts, threads[0].lastTS, threads[0].lastActivityTS, a, threads[0].lastTS)
    ensures Latest(log) > MinOf(threads) && Between(log, threads[1].lastTS, Latest(log)) != []
  {
    parent, log := Reply(SECOND, false, false, false, false), [Reply(2 * SECOND, false, false, false, false)];
    var m, n := Meta("a", "C", SECOND, 2 * SECOND, 2 * SECOND), Meta("b", "C", SECOND, SECOND, SECOND);
    threads := [m, n];
    a := Fetched(map[SECOND := 2 * SECOND], map[SECOND := 1]);
    assert log[1..] == [] && Between(log, SECOND, Latest(log)) == [log[0]];
    TwoRows(m, n);
  }

  lemma TwoRows(m: Meta, n: Meta)
    requires SameThread(m, n) && NONE < n.lastTS < m.lastTS
    ensures GroupsAre([m, n], [[m, n]]) && MinOf([m, n]) == n.lastTS
  {
    assert [m, n][..1] == [m] && [m][..0] == [];
    assert MinOf([m]) == m.lastTS;
    MembersAppend([], m, m);
    MembersAppend([m], n, m);
    assert [] + [m] == [m] && [m] + [n] == [m, n];
    OnlyGroup([m, n]);
  }

  lemma OnlyGroup(group: seq<Meta>)
    requires group != [] && Members(group, group[0]) == group
    requires forall i :: 0 <= i < |group| ==> SameThread(group[0], group[i])
    ensures GroupsAre(group, [group])
  {
    assert [group][0] == group;
    forall t | t in group ensures InSomeGroup([group], t) {
      assert SameThread([group][0][0], t);
    }
  }
}
