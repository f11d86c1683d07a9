/** The slack_threads rows and what the sweeps write to them (scanner/scanner_slack_threads.go,
    db/slack_threads.sql.go). */
module ThreadTable {
  import opened SlackTime
  import opened SlackThreads

  datatype Status = Active | Resolved

  /** A selected row: one subscriber of one thread. */
  datatype Meta = Meta(email: string, channel: string, threadTS: Ts, lastTS: Ts, lastActivityTS: Ts)

  datatype Key = Key(channel: string, threadTS: Ts, email: string)

  datatype Row = Row(status: Status, lastTS: Ts, lastActivityTS: Ts)

  function KeyOf(m: Meta): Key { Key(m.channel, m.threadTS, m.email) }

  function ThreadOf(m: Meta): (string, Ts) { (m.channel, m.threadTS) }

  predicate SameThread(a: Meta, b: Meta) { a.channel == b.channel && a.threadTS == b.threadTS }

  // ---------- groupThreadsByKey ----------

  /** The members of the thread of `m`, in order. */
  function Members(threads: seq<Meta>, m: Meta): seq<Meta> {
    if threads == [] then []
    else
      var last := threads[|threads| - 1];
      Members(threads[..|threads| - 1], m) + (if SameThread(last, m) then [last] else [])
  }

  ghost predicate EachIsAGroup(threads: seq<Meta>, groups: seq<seq<Meta>>) {
    forall g :: 0 <= g < |groups| ==> groups[g] != [] && groups[g] == Members(threads, groups[g][0])
  }

  ghost predicate NoThreadTwice(groups: seq<seq<Meta>>)
    requires forall g :: 0 <= g < |groups| ==> groups[g] != []
  {
    forall g, h :: 0 <= g < h < |groups| ==> !SameThread(groups[g][0], groups[h][0])
  }

  ghost predicate InSomeGroup(groups: seq<seq<Meta>>, t: Meta) {
    exists g :: 0 <= g < |groups| && groups[g] != [] && SameThread(groups[g][0], t)
  }

  ghost predicate GroupsAre(threads: seq<Meta>, groups: seq<seq<Meta>>) {
    && EachIsAGroup(threads, groups) && NoThreadTwice(groups)
    && forall t :: t in threads ==> InSomeGroup(groups, t)
  }

  lemma MembersAppend(threads: seq<Meta>, t: Meta, m: Meta)
    ensures Members(threads + [t], m) == Members(threads, m) + if SameThread(t, m) then [t] else []
  {
    assert (threads + [t])[..|threads|] == threads;
  }

  lemma {:induction false} MembersSame(threads: seq<Meta>, a: Meta, b: Meta)
    requires SameThread(a, b)
    ensures Members(threads, a) == Members(threads, b)
    ensures forall x :: x in Members(threads, a) ==> SameThread(x, a)
  {
    if threads != [] { MembersSame(threads[..|threads| - 1], a, b); }
  }

  lemma JoinGroup(threads: seq<Meta>, groups: seq<seq<Meta>>, t: Meta, i: nat)
    requires GroupsAre(threads, groups) && i < |groups| && SameThread(groups[i][0], t)
    ensures GroupsAre(threads + [t], groups[i := groups[i] + [t]])
  {
    var out := groups[i := groups[i] + [t]];
    forall g | 0 <= g < |out| ensures out[g] != [] && out[g] == Members(threads + [t], out[g][0]) {
      MembersAppend(threads, t, groups[g][0]);
      if g != i { assert g < i ==> !SameThread(groups[g][0], groups[i][0]); }
    }
    forall x | x in threads + [t] ensures InSomeGroup(out, x) {
      if x in threads {
        var g :| 0 <= g < |groups| && groups[g] != [] && SameThread(groups[g][0], x);
        assert SameThread(out[g][0], x);
      } else {
        assert SameThread(out[i][0], x);
      }
    }
  }

  lemma OpenedGroups(threads: seq<Meta>, groups: seq<seq<Meta>>, t: Meta)
    requires EachIsAGroup(threads, groups) && Members(threads, t) == []
    requires forall g :: 0 <= g < |groups| ==> !SameThread(groups[g][0], t)
    ensures EachIsAGroup(threads + [t], groups + [[t]])
  {
    var out := groups + [[t]];
    forall g | 0 <= g < |out| ensures out[g] != [] && out[g] == Members(threads + [t], out[g][0]) {
      MembersAppend(threads, t, out[g][0]);
      if g < |groups| { assert out[g] == groups[g]; }
    }
  }

  lemma OpenedIsFound(groups: seq<seq<Meta>>, t: Meta, x: Meta)
    requires x == t || InSomeGroup(groups, x)
    ensures InSomeGroup(groups + [[t]], x)
  {
    var out := groups + [[t]];
    if x == t {
      assert out[|groups|][0] == t;
    } else {
      var g :| 0 <= g < |groups| && groups[g] != [] && SameThread(groups[g][0], x);
      assert out[g] == groups[g];
    }
  }

  lemma OpenGroup(threads: seq<Meta>, groups: seq<seq<Meta>>, t: Meta)
    requires GroupsAre(threads, groups) && forall g :: 0 <= g < |groups| ==> !SameThread(groups[g][0], t)
    ensures GroupsAre(threads + [t], groups + [[t]])
  {
    MembersEmpty(threads, groups, t);
    OpenedGroups(threads, groups, t);
    forall x | x in threads + [t] ensures InSomeGroup(groups + [[t]], x) { OpenedIsFound(groups, t, x); }
  }

  lemma {:induction false} NoMembers(threads: seq<Meta>, t: Meta)
    requires forall x :: x in threads ==> !SameThread(x, t)
    ensures Members(threads, t) == []
  {
    if threads != [] {
      assert threads == threads[..|threads| - 1] + [threads[|threads| - 1]];
      NoMembers(threads[..|threads| - 1], t);
    }
  }

  lemma MembersEmpty(threads: seq<Meta>, groups: seq<seq<Meta>>, t: Meta)
    requires GroupsAre(threads, groups) && forall g :: 0 <= g < |groups| ==> !SameThread(groups[g][0], t)
    ensures Members(threads, t) == []
  {
    forall x | x in threads ensures !SameThread(x, t) {
      var g :| 0 <= g < |groups| && groups[g] != [] && SameThread(groups[g][0], x);
      assert !SameThread(groups[g][0], t);
    }
    NoMembers(threads, t);
  }

  /** The map names the group of every thread there is one for. */
  ghost predicate Indexes(indexMap: map<(string, Ts), nat>, groups: seq<seq<Meta>>) {
    && (forall g :: 0 <= g < |groups| ==> groups[g] != [] && ThreadOf(groups[g][0]) in indexMap)
    && (forall k :: k in indexMap ==> indexMap[k] < |groups| && ThreadOf(groups[indexMap[k]][0]) == k)
  }

  lemma IndexJoined(indexMap: map<(string, Ts), nat>, groups: seq<seq<Meta>>, t: Meta, i: nat)
    requires Indexes(indexMap, groups) && i < |groups|
    ensures Indexes(indexMap, groups[i := groups[i] + [t]])
  {
    var out := groups[i := groups[i] + [t]];
    assert forall g :: 0 <= g < |out| ==> out[g] != [] && out[g][0] == groups[g][0];
  }

  lemma IndexOpened(indexMap: map<(string, Ts), nat>, groups: seq<seq<Meta>>, t: Meta)
    requires Indexes(indexMap, groups) && ThreadOf(t) !in indexMap
    ensures Indexes(indexMap[ThreadOf(t) := |groups|], groups + [[t]])
  {
  }

  lemma NotIndexed(indexMap: map<(string, Ts), nat>, groups: seq<seq<Meta>>, t: Meta)
    requires Indexes(indexMap, groups) && ThreadOf(t) !in indexMap
    ensures forall g :: 0 <= g < |groups| ==> !SameThread(groups[g][0], t)
  {
    forall g | 0 <= g < |groups| ensures !SameThread(groups[g][0], t) { assert ThreadOf(groups[g][0]) in indexMap; }
  }

  /** One group per thread, each with all its subscribers in order. */
  method GroupThreadsByKey(threads: seq<Meta>) returns (groups: seq<seq<Meta>>)
    ensures GroupsAre(threads, groups)
  {
    var indexMap: map<(string, Ts), nat> := map[];
    groups := [];
    for n := 0 to |threads|
      invariant GroupsAre(threads[..n], groups) && Indexes(indexMap, groups)
    {
      var t := threads[n];
      assert threads[..n + 1] == threads[..n] + [t];
      var k := ThreadOf(t);
      if k in indexMap {
        var i := indexMap[k];
        JoinGroup(threads[..n], groups, t, i);
        IndexJoined(indexMap, groups, t, i);
        groups := groups[i := groups[i] + [t]];
      } else {
        NotIndexed(indexMap, groups, t);
        OpenGroup(threads[..n], groups, t);
        IndexOpened(indexMap, groups, t);
        indexMap := indexMap[k := |groups|];
        groups := groups + [[t]];
      }
    }
    assert threads[..|threads|] == threads;
  }

  // ---------- The cursor a group is fetched from ----------

  /** The representative's cursor, lowered to any smaller non-empty one. */
  function MinOf(group: seq<Meta>): Ts
    requires group != []
  {
    var s := group[|group| - 1];
    if |group| == 1 then s.lastTS
    else
      var min := MinOf(group[..|group| - 1]);
      if s.lastTS != NONE && (min == NONE || s.lastTS < min) then s.lastTS else min
  }

  lemma {:induction false} MinOfIsLeast(group: seq<Meta>)
    requires group != []
    ensures MinOf(group) == NONE <==> forall i :: 0 <= i < |group| ==> group[i].lastTS == NONE
    ensures exists i :: 0 <= i < |group| && group[i].lastTS == MinOf(group)
    ensures forall i :: 0 <= i < |group| && group[i].lastTS != NONE ==> MinOf(group) <= group[i].lastTS
  {
    var n := |group| - 1;
    if n > 0 {
      var front := group[..n];
      MinOfIsLeast(front);
      assert forall i :: 0 <= i < n ==> front[i] == group[i];
      var i :| 0 <= i < n && front[i].lastTS == MinOf(front);
      assert group[i].lastTS == MinOf(front);
    }
  }

  /** The smallest non-empty cursor of the group; empty only if all are. */
  method MinLastTS(group: seq<Meta>) returns (min: Ts)
    requires group != []
    ensures min == MinOf(group)
    ensures min == NONE <==> forall i :: 0 <= i < |group| ==> group[i].lastTS == NONE
    ensures exists i :: 0 <= i < |group| && group[i].lastTS == min
    ensures forall i :: 0 <= i < |group| && group[i].lastTS != NONE ==> min <= group[i].lastTS
  {
    min := group[0].lastTS;
    for n := 1 to |group|
      invariant min == MinOf(group[..n])
    {
      assert group[..n + 1][..n] == group[..n];
      var s := group[n];
      if s.lastTS != NONE && (min == NONE || s.lastTS < min) {
        min := s.lastTS;
      }
    }
    assert group[..|group|] == group;
    MinOfIsLeast(group);
  }

  // ---------- Writes ----------

  predicate Touched(group: seq<Meta>, n: nat, k: Key)
    requires n <= |group|
  {
    exists i :: 0 <= i < n && KeyOf(group[i]) == k
  }

  /** One of the first n members has this key and cursors that differ from the scan's. */
  predicate Moved(group: seq<Meta>, n: nat, res: ScanResult, k: Key)
    requires n <= |group|
  {
    exists i :: 0 <= i < n && KeyOf(group[i]) == k && Differs(group[i], res)
  }

  predicate Differs(m: Meta, res: ScanResult) { res.newLastTS != m.lastTS || res.newLastActivity != m.lastActivityTS }

  /** Closing n members marks exactly their rows. */
  ghost predicate ClosedRows(before: map<Key, Row>, after: map<Key, Row>, group: seq<Meta>, n: nat)
    requires n <= |group|
  {
    && after.Keys == before.Keys
    && forall k :: k in after ==> after[k] == if Touched(group, n, k) then before[k].(status := Resolved) else before[k]
  }

  /** Storing the scan's cursors for n members writes exactly the rows of those that differ, and leaves
      these active whatever they were. */
  ghost predicate StoredRows(before: map<Key, Row>, after: map<Key, Row>, group: seq<Meta>, n: nat, res: ScanResult)
    requires n <= |group|
  {
    && (forall k :: k in after <==> k in before || Moved(group, n, res, k))
    && (forall k :: k in after ==>
          after[k] == if Moved(group, n, res, k) then Row(Active, res.newLastTS, res.newLastActivity) else before[k])
  }

  /** Storing the cursors only writes the rows there are and leaves every status alone. */
  ghost predicate TouchedRows(before: map<Key, Row>, after: map<Key, Row>, group: seq<Meta>, n: nat, res: ScanResult)
    requires n <= |group|
  {
    && after.Keys == before.Keys
    && forall k :: k in after ==>
         after[k] == if Moved(group, n, res, k) then Row(before[k].status, res.newLastTS, res.newLastActivity)
                     else before[k]
  }

  lemma TouchedOneMore(group: seq<Meta>, n: nat, k: Key)
    requires n < |group|
    ensures Touched(group, n + 1, k) <==> Touched(group, n, k) || KeyOf(group[n]) == k
  {
  }

  lemma MovedOneMore(group: seq<Meta>, n: nat, res: ScanResult, k: Key)
    requires n < |group|
    ensures Moved(group, n + 1, res, k) <==> Moved(group, n, res, k) || (KeyOf(group[n]) == k && Differs(group[n], res))
  {
  }

  lemma ExtendClosed(all: map<Key, Row>, before: map<Key, Row>, after: map<Key, Row>, group: seq<Meta>, n: nat)
    requires n < |group| && ClosedRows(all, before, group, n)
    requires var k := KeyOf(group[n]);
      after == if k in before then before[k := before[k].(status := Resolved)] else before
    ensures ClosedRows(all, after, group, n + 1)
  {
    forall k | k in after
      ensures after[k] == if Touched(group, n + 1, k) then all[k].(status := Resolved) else all[k]
    {
      TouchedOneMore(group, n, k);
    }
  }

  lemma ExtendStored(all: map<Key, Row>, before: map<Key, Row>, after: map<Key, Row>, group: seq<Meta>, n: nat,
                     res: ScanResult)
    requires n < |group| && StoredRows(all, before, group, n, res)
    requires after == if Differs(group[n], res)
                      then before[KeyOf(group[n]) := Row(Active, res.newLastTS, res.newLastActivity)] else before
    ensures StoredRows(all, after, group, n + 1, res)
  {
    forall k
      ensures k in after <==> k in all || Moved(group, n + 1, res, k)
      ensures k in after ==> after[k] == if Moved(group, n + 1, res, k)
                                         then Row(Active, res.newLastTS, res.newLastActivity) else all[k]
    {
      MovedOneMore(group, n, res, k);
    }
  }

  lemma ExtendTouched(all: map<Key, Row>, before: map<Key, Row>, after: map<Key, Row>, group: seq<Meta>, n: nat,
                      res: ScanResult)
    requires n < |group| && TouchedRows(all, before, group, n, res)
    requires var k := KeyOf(group[n]);
      after == if Differs(group[n], res) && k in before
               then before[k := Row(before[k].status, res.newLastTS, res.newLastActivity)] else before
    ensures TouchedRows(all, after, group, n + 1, res)
  {
    forall k | k in after
      ensures after[k] == if Moved(group, n + 1, res, k) then Row(all[k].status, res.newLastTS, res.newLastActivity)
                          else all[k]
    {
      MovedOneMore(group, n, res, k);
    }
  }

  // ---------- Registrations ----------

  /** What classification and analysis make of the replies handed to one member: which of them are kept, and the
      messages that the extracted items name, in the order in which the items are saved. */
  datatype Answer = Answer(kept: set<Ts>, items: seq<Ts>)

  function AnswerAt(answers: seq<Answer>, i: nat): Answer { if i < |answers| then answers[i] else Answer({}, []) }

  /** An upsert of the row of a message's thread, with both cursors at the message. */
  datatype Reg = Reg(k: Key, ts: Ts)

  function RegOf(m: Meta, ts: Ts): Reg {
    Reg(Key(m.channel, if m.threadTS != NONE then m.threadTS else ts, m.email), ts)
  }

  predicate Accepted(m: Meta, ts: Ts) { m.channel != "" && RegOf(m, ts).k.threadTS != NONE }

  predicate InBatch(mine: seq<Reply>, ts: Ts) { exists i :: 0 <= i < |mine| && mine[i].ts == ts }

  function Saved(mine: seq<Reply>, kept: set<Ts>, items: seq<Ts>): seq<Ts> {
    if items == [] then []
    else
      var ts := items[|items| - 1];
      Saved(mine, kept, items[..|items| - 1]) + (if ts in kept && InBatch(mine, ts) then [ts] else [])
  }

  function RegsOf(m: Meta, ids: seq<Ts>): seq<Reg> {
    if ids == [] then []
    else
      var ts := ids[|ids| - 1];
      RegsOf(m, ids[..|ids| - 1]) + (if Accepted(m, ts) then [RegOf(m, ts)] else [])
  }

  /** What the dispatch to member i registers, in order. */
  function MemberRegs(group: seq<Meta>, i: nat, replies: seq<Reply>, res: ScanResult, answers: seq<Answer>): seq<Reg>
    requires i < |group|
  {
    var m, a := group[i], AnswerAt(answers, i);
    RegsOf(m, Saved(Dispatched(replies, m.lastTS, res), a.kept, a.items))
  }

  function AllRegs(perMember: seq<seq<Reg>>): seq<Reg> {
    if perMember == [] then [] else AllRegs(perMember[..|perMember| - 1]) + perMember[|perMember| - 1]
  }

  /** What the dispatch to all members registers, member by member. */
  function Regs(group: seq<Meta>, replies: seq<Reply>, res: ScanResult, answers: seq<Answer>): seq<Reg> {
    AllRegs(PerMember(group, replies, res, answers))
  }

  function PerMember(group: seq<Meta>, replies: seq<Reply>, res: ScanResult, answers: seq<Answer>): seq<seq<Reg>> {
    seq(|group|, i requires 0 <= i < |group| => MemberRegs(group, i, replies, res, answers))
  }

  function AfterRegs(rows: map<Key, Row>, regs: seq<Reg>): map<Key, Row> {
    if regs == [] then rows
    else
      var r := regs[|regs| - 1];
      AfterRegs(rows, regs[..|regs| - 1])[r.k := Row(Active, r.ts, r.ts)]
  }

  predicate Named(regs: seq<Reg>, k: Key) { exists i :: 0 <= i < |regs| && regs[i].k == k }

  /** The message that the last registration of the key names. */
  function LastReg(regs: seq<Reg>, k: Key): Ts {
    if regs == [] then NONE
    else if regs[|regs| - 1].k == k then regs[|regs| - 1].ts
    else LastReg(regs[..|regs| - 1], k)
  }

  lemma NamedAppend(regs: seq<Reg>, r: Reg, k: Key)
    ensures Named(regs + [r], k) <==> Named(regs, k) || r.k == k
  {
    if Named(regs, k) {
      var i :| 0 <= i < |regs| && regs[i].k == k;
      assert (regs + [r])[i].k == k;
    }
    if r.k == k { assert (regs + [r])[|regs|] == r; }
  }

  /** Registering leaves every named row active at the last message named, and no other row changed. */
  lemma {:induction false} AfterRegsIs(rows: map<Key, Row>, regs: seq<Reg>)
    ensures var after := AfterRegs(rows, regs);
      && (forall k :: k in after <==> k in rows || Named(regs, k))
      && (forall k :: k in after ==>
            after[k] == if Named(regs, k) then Row(Active, LastReg(regs, k), LastReg(regs, k)) else rows[k])
  {
    if regs != [] {
      var front, r := regs[..|regs| - 1], regs[|regs| - 1];
      AfterRegsIs(rows, front);
      assert regs == front + [r];
      forall k ensures Named(regs, k) <==> Named(front, k) || r.k == k { NamedAppend(front, r, k); }
    }
  }

  lemma {:induction false} AfterRegsAppend(rows: map<Key, Row>, a: seq<Reg>, b: seq<Reg>)
    ensures AfterRegs(rows, a + b) == AfterRegs(AfterRegs(rows, a), b)
  {
    if b == [] {
      assert a + b == a;
    } else {
      AfterRegsAppend(rows, a, b[..|b| - 1]);
      assert (a + b)[..|a + b| - 1] == a + b[..|b| - 1];
    }
  }

  lemma {:induction false} RegsOfAppend(m: Meta, ids: seq<Ts>, ts: Ts)
    ensures RegsOf(m, ids + [ts]) == RegsOf(m, ids) + RegsOf(m, [ts])
  {
    assert (ids + [ts])[..|ids|] == ids && [ts][..0] == [];
    assert RegsOf(m, [ts]) == RegsOf(m, []) + (if Accepted(m, ts) then [RegOf(m, ts)] else []);
  }

  lemma SavedOneMore(rows: map<Key, Row>, m: Meta, mine: seq<Reply>, kept: set<Ts>, items: seq<Ts>, ts: Ts)
    ensures AfterRegs(rows, RegsOf(m, Saved(mine, kept, items + [ts])))
         == if ts in kept && InBatch(mine, ts)
            then AfterRegs(AfterRegs(rows, RegsOf(m, Saved(mine, kept, items))), RegsOf(m, [ts]))
            else AfterRegs(rows, RegsOf(m, Saved(mine, kept, items)))
  {
    assert (items + [ts])[..|items|] == items;
    var saved := Saved(mine, kept, items);
    if ts in kept && InBatch(mine, ts) {
      RegsOfAppend(m, saved, ts);
      AfterRegsAppend(rows, RegsOf(m, saved), RegsOf(m, [ts]));
    } else {
      assert saved + [] == saved;
    }
  }

  class Table {
    var rows: map<Key, Row>

    constructor ()
      ensures rows == map[]
    {
      rows := map[];
    }

    /** INSERT ... ON CONFLICT DO UPDATE: always leaves the row active. */
    method Upsert(k: Key, lastTS: Ts, lastActivityTS: Ts)
      modifies this
      ensures rows == old(rows)[k := Row(Active, lastTS, lastActivityTS)]
    {
      rows := rows[k := Row(Active, lastTS, lastActivityTS)];
    }

    method Close(k: Key)
      modifies this
      ensures rows == if k in old(rows) then old(rows)[k := old(rows)[k].(status := Resolved)] else old(rows)
    {
      if k in rows { rows := rows[k := rows[k].(status := Resolved)]; }
    }

    method Touch(k: Key, lastTS: Ts, lastActivityTS: Ts)
      modifies this
      ensures rows == if k in old(rows) then old(rows)[k := Row(old(rows)[k].status, lastTS, lastActivityTS)]
                      else old(rows)
    {
      if k in rows { rows := rows[k := Row(rows[k].status, lastTS, lastActivityTS)]; }
    }

    method CloseGroup(group: seq<Meta>)
      modifies this
      ensures ClosedRows(old(rows), rows, group, |group|)
    {
      for n := 0 to |group|
        invariant ClosedRows(old(rows), rows, group, n)
      {
        ghost var before := rows;
        Close(KeyOf(group[n]));
        ExtendClosed(old(rows), before, rows, group, n);
      }
    }

    /** updateThreadStatusGroup: resolved closes every member, otherwise each member whose selected cursors
        differ from the scan's is stored with the scan's; the rows may have changed since the selection. */
    method UpdateThreadStatusGroup(group: seq<Meta>, res: ScanResult)
      modifies this
      ensures res.isResolved ==> ClosedRows(old(rows), rows, group, |group|)
      ensures !res.isResolved ==> StoredRows(old(rows), rows, group, |group|, res)
    {
      if res.isResolved {
        CloseGroup(group);
        return;
      }
      for n := 0 to |group|
        invariant StoredRows(old(rows), rows, group, n, res)
      {
        var t := group[n];
        ghost var before := rows;
        if res.newLastTS != t.lastTS || res.newLastActivity != t.lastActivityTS {
          Upsert(KeyOf(t), res.newLastTS, res.newLastActivity);
        }
        ExtendStored(old(rows), before, rows, group, n, res);
      }
    }

    /** The bookkeeping of the cold tier after its dispatch: resolved closes, otherwise the cursors only. */
    method ColdWrites(group: seq<Meta>, res: ScanResult)
      modifies this
      ensures res.isResolved ==> ClosedRows(old(rows), rows, group, |group|)
      ensures !res.isResolved ==> TouchedRows(old(rows), rows, group, |group|, res)
    {
      if res.isResolved {
        CloseGroup(group);
        return;
      }
      for n := 0 to |group|
        invariant TouchedRows(old(rows), rows, group, n, res)
      {
        var s := group[n];
        ghost var before := rows;
        if res.newLastTS != s.lastTS || res.newLastActivity != s.lastActivityTS {
          Touch(KeyOf(s), res.newLastTS, res.newLastActivity);
        }
        ExtendTouched(old(rows), before, rows, group, n, res);
      }
    }

    /** RegisterTargetedSlackThread for one saved item; without a channel or a thread it is refused. */
    method Register(m: Meta, ts: Ts)
      modifies this
      ensures rows == AfterRegs(old(rows), RegsOf(m, [ts]))
    {
      assert [ts][..0] == [] && [RegOf(m, ts)][..0] == [];
      assert RegsOf(m, [ts]) == RegsOf(m, []) + (if Accepted(m, ts) then [RegOf(m, ts)] else []);
      if Accepted(m, ts) {
        Upsert(RegOf(m, ts).k, ts, ts);
        assert AfterRegs(old(rows), [RegOf(m, ts)]) == AfterRegs(old(rows), [])[RegOf(m, ts).k := Row(Active, ts, ts)];
      }
    }

    /** Saves what the analysis extracted for one member: items that name no message of the batch are dropped,
        every other one registers its message. */
    method SaveItems(m: Meta, mine: seq<Reply>, a: Answer)
      modifies this
      ensures rows == AfterRegs(old(rows), RegsOf(m, Saved(mine, a.kept, a.items)))
    {
      for n := 0 to |a.items|
        invariant rows == AfterRegs(old(rows), RegsOf(m, Saved(mine, a.kept, a.items[..n])))
      {
        var ts := a.items[n];
        assert a.items[..n + 1] == a.items[..n] + [ts];
        SavedOneMore(old(rows), m, mine, a.kept, a.items[..n], ts);
        if ts in a.kept && InBatch(mine, ts) {
          Register(m, ts);
        }
      }
      assert a.items[..|a.items|] == a.items;
    }
  }

  // ---------- Fetch and dispatch, shared by both tiers ----------

  function GroupScan(group: seq<Meta>, replies: seq<Reply>): ScanResult
    requires group != []
  {
    Scan(replies, MinOf(group), MinOf(group), group[0].lastActivityTS)
  }

  /** What the dispatch of a group registers. */
  function GroupRegs(group: seq<Meta>, replies: seq<Reply>, answers: seq<Answer>): seq<Reg>
    requires group != []
  {
    Regs(group, replies, GroupScan(group, replies), answers)
  }

  /** fetchAndDispatchThreadGroup after the fetch: one scan from the smallest cursor, and for each member the
      analysis of what is new to it, whose items register their messages at once. */
  method FetchAndDispatch(table: Table, group: seq<Meta>, replies: seq<Reply>, answers: seq<Answer>)
    returns (res: ScanResult, mine: seq<seq<Reply>>)
    requires group != []
    modifies table
    ensures res == GroupScan(group, replies)
    ensures ScanMeans(replies, MinOf(group), MinOf(group), group[0].lastActivityTS, res)
    ensures |mine| == |group| && forall i :: 0 <= i < |group| ==> mine[i] == Dispatched(replies, group[i].lastTS, res)
    ensures table.rows == AfterRegs(old(table.rows), GroupRegs(group, replies, answers))
  {
    var min := MinLastTS(group);
    res := ScanThreadReplies(replies, min, group[0].lastActivityTS);
    mine := DispatchAll(table, group, replies, res, answers);
  }

  method DispatchAll(table: Table, group: seq<Meta>, replies: seq<Reply>, res: ScanResult, answers: seq<Answer>)
    returns (mine: seq<seq<Reply>>)
    modifies table
    ensures |mine| == |group| && forall i :: 0 <= i < |group| ==> mine[i] == Dispatched(replies, group[i].lastTS, res)
    ensures table.rows == AfterRegs(old(table.rows), Regs(group, replies, res, answers))
  {
    mine := DispatchEach(table, group, replies, res, answers, PerMember(group, replies, res, answers));
  }

  method DispatchEach(table: Table, group: seq<Meta>, replies: seq<Reply>, res: ScanResult, answers: seq<Answer>,
                      ghost per: seq<seq<Reg>>)
    returns (mine: seq<seq<Reply>>)
    requires |per| == |group| && forall i :: 0 <= i < |group| ==> per[i] == MemberRegs(group, i, replies, res, answers)
    modifies table
    ensures |mine| == |group| && forall i :: 0 <= i < |group| ==> mine[i] == Dispatched(replies, group[i].lastTS, res)
    ensures table.rows == AfterRegs(old(table.rows), AllRegs(per))
  {
    mine := [];
    for n := 0 to |group|
      invariant |mine| == n && forall i :: 0 <= i < n ==> mine[i] == Dispatched(replies, group[i].lastTS, res)
      invariant table.rows == AfterRegs(old(table.rows), AllRegs(per[..n]))
    {
      var candidates := DispatchTo(table, group, n, replies, res, answers, per[n]);
      mine := mine + [candidates];
      AllRegsOneMore(old(table.rows), per, n);
    }
    assert per[..|group|] == per;
  }

  lemma AllRegsOneMore(rows: map<Key, Row>, per: seq<seq<Reg>>, n: nat)
    requires n < |per|
    ensures AfterRegs(rows, AllRegs(per[..n + 1])) == AfterRegs(AfterRegs(rows, AllRegs(per[..n])), per[n])
  {
    assert per[..n + 1][..n] == per[..n];
    AfterRegsAppend(rows, AllRegs(per[..n]), per[n]);
  }

  method DispatchTo(table: Table, group: seq<Meta>, i: nat, replies: seq<Reply>, res: ScanResult,
                    answers: seq<Answer>, ghost regs: seq<Reg>)
    returns (candidates: seq<Reply>)
    requires i < |group| && regs == MemberRegs(group, i, replies, res, answers)
    modifies table
    ensures candidates == Dispatched(replies, group[i].lastTS, res)
    ensures table.rows == AfterRegs(old(table.rows), regs)
  {
    candidates := CollectThreadCandidates(replies, group[i].lastTS, res);
    table.SaveItems(group[i], candidates, AnswerAt(answers, i));
  }

  /** An extracted item of member i registers the key. */
  ghost predicate Extracts(group: seq<Meta>, i: nat, replies: seq<Reply>, res: ScanResult, answers: seq<Answer>,
                           ts: Ts, k: Key)
    requires i < |group|
  {
    var m, a := group[i], AnswerAt(answers, i);
    && ts in a.items && ts in a.kept && InBatch(Dispatched(replies, m.lastTS, res), ts)
    && Accepted(m, ts) && RegOf(m, ts).k == k
  }

  lemma {:induction false} SavedIs(mine: seq<Reply>, kept: set<Ts>, items: seq<Ts>)
    ensures forall ts :: ts in Saved(mine, kept, items) <==> ts in items && ts in kept && InBatch(mine, ts)
  {
    if items != [] {
      assert items == items[..|items| - 1] + [items[|items| - 1]];
      SavedIs(mine, kept, items[..|items| - 1]);
    }
  }

  /** Whatever a dispatch registers has a channel and a thread. */
  lemma RegsAreAddressed(m: Meta, ids: seq<Ts>, r: Reg)
    requires r in RegsOf(m, ids)
    ensures r.k.channel == m.channel != "" && r.k.email == m.email
    ensures r.k.threadTS != NONE && (r.k.threadTS == m.threadTS || (m.threadTS == NONE && r.k.threadTS == r.ts))
  {
    RegsOfIs(m, ids, r);
  }

  lemma {:induction false} RegsOfIs(m: Meta, ids: seq<Ts>, r: Reg)
    ensures r in RegsOf(m, ids) <==> r.ts in ids && Accepted(m, r.ts) && r == RegOf(m, r.ts)
  {
    if ids != [] {
      assert ids == ids[..|ids| - 1] + [ids[|ids| - 1]];
      RegsOfIs(m, ids[..|ids| - 1], r);
    }
  }

  lemma MemberRegsAre(group: seq<Meta>, i: nat, replies: seq<Reply>, res: ScanResult, answers: seq<Answer>, r: Reg)
    requires i < |group|
    ensures r in MemberRegs(group, i, replies, res, answers) <==>
              Extracts(group, i, replies, res, answers, r.ts, r.k)
  {
    var m, a := group[i], AnswerAt(answers, i);
    var mine := Dispatched(replies, m.lastTS, res);
    SavedIs(mine, a.kept, a.items);
    RegsOfIs(m, Saved(mine, a.kept, a.items), r);
  }

  lemma {:induction false} AllRegsAre(per: seq<seq<Reg>>, r: Reg)
    ensures r in AllRegs(per) <==> exists i :: 0 <= i < |per| && r in per[i]
  {
    if per != [] {
      var front, last := per[..|per| - 1], per[|per| - 1];
      AllRegsAre(front, r);
      assert forall i :: 0 <= i < |front| ==> front[i] == per[i];
      assert r in AllRegs(front) + last <==> r in AllRegs(front) || r in last;
    }
  }

  lemma RegsAre(group: seq<Meta>, replies: seq<Reply>, res: ScanResult, answers: seq<Answer>, r: Reg)
    ensures r in Regs(group, replies, res, answers) <==>
              exists i :: 0 <= i < |group| && Extracts(group, i, replies, res, answers, r.ts, r.k)
  {
    var per := PerMember(group, replies, res, answers);
    AllRegsAre(per, r);
    forall i | 0 <= i < |group| ensures r in per[i] <==> Extracts(group, i, replies, res, answers, r.ts, r.k) {
      MemberRegsAre(group, i, replies, res, answers, r);
    }
  }

  /** A key is registered if and only if an item was extracted from a reply handed to a member of that key. */
  lemma NamedIff(group: seq<Meta>, replies: seq<Reply>, answers: seq<Answer>, k: Key)
    requires group != []
    ensures Named(GroupRegs(group, replies, answers), k) <==>
              exists i, ts :: 0 <= i < |group| && Extracts(group, i, replies, GroupScan(group, replies), answers, ts, k)
  {
    var regs, res := GroupRegs(group, replies, answers), GroupScan(group, replies);
    if Named(regs, k) {
      var j :| 0 <= j < |regs| && regs[j].k == k;
      RegsAre(group, replies, res, answers, regs[j]);
      assert regs[j] in regs;
    }
    if i, ts :| 0 <= i < |group| && Extracts(group, i, replies, res, answers, ts, k) {
      RegsAre(group, replies, res, answers, Reg(k, ts));
      assert Reg(k, ts) in regs;
    }
  }

  lemma {:induction false} LastRegIsIn(regs: seq<Reg>, k: Key)
    requires Named(regs, k)
    ensures Reg(k, LastReg(regs, k)) in regs
  {
    var front, r := regs[..|regs| - 1], regs[|regs| - 1];
    assert regs == front + [r];
    if r.k != k {
      NamedAppend(front, r, k);
      LastRegIsIn(front, k);
    } else {
      assert r == Reg(k, r.ts);
    }
  }

  // ---------- Convergence ----------

  /** The rows are still what the sweep selected. */
  ghost predicate AsSelected(rows: map<Key, Row>, group: seq<Meta>) {
    forall i :: 0 <= i < |group| ==>
      KeyOf(group[i]) in rows && rows[KeyOf(group[i])] == Row(Active, group[i].lastTS, group[i].lastActivityTS)
  }

  /** All members hold these cursors. */
  ghost predicate Converged(rows: map<Key, Row>, group: seq<Meta>, lastTS: Ts, lastActivityTS: Ts) {
    forall i :: 0 <= i < |group| ==>
      KeyOf(group[i]) in rows && rows[KeyOf(group[i])] == Row(Active, lastTS, lastActivityTS)
  }

  /** Selected rows of a thread, and replies with ids, as the query and the API return them. */
  ghost predicate RealThread(group: seq<Meta>, replies: seq<Reply>) {
    && (forall i :: 0 <= i < |group| ==> group[i].threadTS != NONE)
    && (forall i :: 0 <= i < |replies| ==> replies[i].ts != NONE)
  }

  lemma {:induction false} ScanCovers(page: seq<Reply>, lastTS: Ts, newLastTS: Ts, act: Ts, ts: Ts)
    requires InBatch(page, ts) && !Seen(ts, lastTS)
    ensures var res := Scan(page, lastTS, newLastTS, act); res.isResolved || res.newLastTS >= ts
  {
    var i :| 0 <= i < |page| && page[i].ts == ts;
    if ts > lastTS { ScanReaches(page, lastTS, newLastTS, act, i); }
  }

  lemma {:induction false} DispatchedAre(replies: seq<Reply>, lastTS: Ts, res: ScanResult, ts: Ts)
    requires InBatch(Dispatched(replies, lastTS, res), ts)
    ensures InBatch(replies, ts) && !Seen(ts, lastTS) && (res.isResolved ==> ts <= res.newLastTS)
  {
    var m := replies[0];
    var i :| 0 <= i < |Dispatched(replies, lastTS, res)| && Dispatched(replies, lastTS, res)[i].ts == ts;
    if Handed(m, lastTS, res) && i == 0 {
      assert replies[0].ts == ts;
    } else {
      var j := if Handed(m, lastTS, res) then i - 1 else i;
      assert Dispatched(replies[1..], lastTS, res)[j].ts == ts;
      DispatchedAre(replies[1..], lastTS, res, ts);
      var n :| 0 <= n < |replies[1..]| && replies[1..][n].ts == ts;
      assert replies[n + 1].ts == ts;
    }
  }

  /** A member with something new to it does not hold the scan's cursor yet. */
  lemma ExtractingMemberMoves(group: seq<Meta>, i: nat, replies: seq<Reply>, ts: Ts)
    requires i < |group| && !GroupScan(group, replies).isResolved && ts != NONE
    requires InBatch(Dispatched(replies, group[i].lastTS, GroupScan(group, replies)), ts)
    ensures GroupScan(group, replies).newLastTS > group[i].lastTS
  {
    var min, res := MinOf(group), GroupScan(group, replies);
    MinOfIsLeast(group);
    DispatchedAre(replies, group[i].lastTS, res, ts);
    ScanNeverMovesBack(replies, min, min, group[0].lastActivityTS);
    if !Seen(ts, min) { ScanCovers(replies, min, min, group[0].lastActivityTS, ts); }
  }

  /** So an unresolved pass overwrites every registration it made itself. */
  lemma NamedMoves(group: seq<Meta>, replies: seq<Reply>, answers: seq<Answer>, k: Key)
    requires group != [] && RealThread(group, replies) && !GroupScan(group, replies).isResolved
    requires Named(GroupRegs(group, replies, answers), k)
    ensures Moved(group, |group|, GroupScan(group, replies), k)
  {
    var res := GroupScan(group, replies);
    NamedIff(group, replies, answers, k);
    var i, ts :| 0 <= i < |group| && Extracts(group, i, replies, res, answers, ts, k);
    DispatchedAre(replies, group[i].lastTS, res, ts);
    ExtractingMemberMoves(group, i, replies, ts);
    assert KeyOf(group[i]) == k && Differs(group[i], res);
  }

  lemma StoredConverges(before: map<Key, Row>, after: map<Key, Row>, group: seq<Meta>, replies: seq<Reply>,
                        answers: seq<Answer>)
    requires group != [] && RealThread(group, replies) && AsSelected(before, group)
    requires var res := GroupScan(group, replies);
      && !res.isResolved
      && StoredRows(AfterRegs(before, GroupRegs(group, replies, answers)), after, group, |group|, res)
    ensures var res := GroupScan(group, replies); Converged(after, group, res.newLastTS, res.newLastActivity)
  {
    var regs, res := GroupRegs(group, replies, answers), GroupScan(group, replies);
    AfterRegsIs(before, regs);
    forall i | 0 <= i < |group|
      ensures KeyOf(group[i]) in after && after[KeyOf(group[i])] == Row(Active, res.newLastTS, res.newLastActivity)
    {
      var k := KeyOf(group[i]);
      if !Moved(group, |group|, res, k) {
        if Named(regs, k) { NamedMoves(group, replies, answers, k); }
        assert !Differs(group[i], res);
      }
    }
  }

  /** Main result: a hot pass scans from the group's smallest cursor and registers what its own analysis extracts.
      Unresolved, it then stores the scan's cursors for every member whose selected ones differ, so that rows which
      were as selected all end with the scan's, whatever was registered in between; resolved, it closes exactly the
      group's rows, where the registrations left them. */
  method HotPass(table: Table, group: seq<Meta>, replies: seq<Reply>, answers: seq<Answer>)
    returns (res: ScanResult, mine: seq<seq<Reply>>)
    requires group != []
    modifies table
    ensures res == GroupScan(group, replies)
    ensures MinOf(group) <= res.newLastTS && group[0].lastActivityTS <= res.newLastActivity
    ensures |mine| == |group| && forall i :: 0 <= i < |group| ==> mine[i] == Dispatched(replies, group[i].lastTS, res)
    ensures var saved := AfterRegs(old(table.rows), GroupRegs(group, replies, answers));
      && (res.isResolved ==> ClosedRows(saved, table.rows, group, |group|))
      && (!res.isResolved ==> StoredRows(saved, table.rows, group, |group|, res))
    ensures !res.isResolved && AsSelected(old(table.rows), group) && RealThread(group, replies) ==>
              Converged(table.rows, group, res.newLastTS, res.newLastActivity)
    ensures !res.isResolved && AsSelected(old(table.rows), group) && RealThread(group, replies) ==>
              forall i :: 0 <= i < |group| ==>
                && KeyOf(group[i]) in table.rows
                && ActivityMeans(replies, MinOf(group), group[0].lastActivityTS,
                                 table.rows[KeyOf(group[i])].lastActivityTS)
  {
    res, mine := FetchAndDispatch(table, group, replies, answers);
    ScanNeverMovesBack(replies, MinOf(group), MinOf(group), group[0].lastActivityTS);
    table.UpdateThreadStatusGroup(group, res);
    if !res.isResolved && AsSelected(old(table.rows), group) && RealThread(group, replies) {
      StoredConverges(old(table.rows), table.rows, group, replies, answers);
    }
  }

  /** The cursors of a group of one thread: the root's timestamp or a reply's. */
  ghost predicate KnownCursors(parent: Reply, log: seq<Reply>, group: seq<Meta>) {
    forall i :: 0 <= i < |group| ==> group[i].lastTS >= parent.ts && KnownCursor(parent, log, group[i].lastTS)
  }

  /** Main result: an unresolved hot pass moves no member back if and only if no member is more replies ahead of
      the group's smallest cursor than the page returns. */
  lemma {:induction false} HotPassMovesBackIff(parent: Reply, log: seq<Reply>, group: seq<Meta>, sw: Sweep)
    requires group != [] && NONE < parent.ts && Ascending(log) && KnownCursors(parent, log, group)
    ensures var min := MinOf(group);
      var res := Scan(Page(parent, log, min, sw), min, min, group[0].lastActivityTS);
      !res.isResolved ==>
        ((forall i :: 0 <= i < |group| ==> group[i].lastTS <= res.newLastTS) <==>
         (forall i :: 0 <= i < |group| ==> Ahead(log, min, group[i].lastTS) <= sw.limit))
  {
    var min := MinOf(group);
    MinOfIsLeast(group);
    var res := Scan(Page(parent, log, min, sw), min, min, group[0].lastActivityTS);
    forall i | 0 <= i < |group|
      ensures !res.isResolved ==> (group[i].lastTS <= res.newLastTS <==> Ahead(log, min, group[i].lastTS) <= sw.limit)
    {
      PageMovesBackIff(parent, log, min, group[i].lastTS, group[0].lastActivityTS, sw);
    }
  }

  /** With unequal cursors a truncated page moves the member that was ahead back below a reply it
      was already handed. */
  lemma TruncatedPageMovesMemberBack() returns (parent: Reply, log: seq<Reply>, behind: Ts, ahead: Ts, sw: Sweep)
    ensures NONE < parent.ts <= behind < ahead && Ascending(log) && ahead == Latest(log)
    ensures var res := Scan(Page(parent, log, behind, sw), behind, behind, ahead);
            !res.isResolved && res.newLastTS < ahead && Between(log, res.newLastTS, ahead) != []
  {
    var a, b := Reply(2, false, false, false, false), Reply(3, false, false, false, false);
    parent, log := Reply(1, false, false, false, false), [a, b];
    behind, ahead, sw := 1, 3, Sweep([], 1, {});
    assert log[1..] == [b] && [b][1..] == [] && [a][1..] == [];
    assert Newer([b], behind) == [b] + Newer([], behind) == [b];
    assert Newer(log, behind) == [a] + Newer([b], behind) == [a, b];
    assert Prefix(Newer(log, behind), 1) == [a];
    assert [parent] + [a] == [parent, a] && [parent, a][1..] == [a];
    assert Marked([a], {}) == [a] + [];
    var page := Page(parent, log, behind, sw);
    assert page == [parent] + [a];
    ScanSkips(parent, [a], behind, behind, ahead);
    assert Scan([a], behind, behind, ahead) == Scan([], behind, 2, 3);
    assert Between([b], 2, 3) == [b] + Between([], 2, 3) == [b];
    assert Between(log, 2, 3) == [] + Between([b], 2, 3);
  }

  // ---------- Selections ----------

  predicate HotSelects(rows: map<Key, Row>, k: Key) {
    k in rows && rows[k].status == Active && k.threadTS != NONE
  }

  /** The cold query, for a row whose thread has an open task (`open`). */
  predicate ColdSelects(rows: map<Key, Row>, k: Key, open: bool) {
    k in rows && open && k.threadTS != NONE && rows[k].status != Active && k.channel != ""
  }

  /** No row is in both tiers, and a row is in one exactly if it names its thread and is active, or closed in a
      channel while a task of its thread is open. */
  lemma HotAndColdAreDisjoint(rows: map<Key, Row>, k: Key, open: bool)
    ensures !(HotSelects(rows, k) && ColdSelects(rows, k, open))
    ensures HotSelects(rows, k) || ColdSelects(rows, k, open) <==>
      k in rows && k.threadTS != NONE && (rows[k].status == Active || (open && k.channel != ""))
  {
  }
}
