/** The cold tier of the thread sweep (scanner/scanner_slack_threads.go): threads that are no longer tracked but
    have an open task are read again. Its own bookkeeping never makes a row active, but the analysis it dispatches
    to registers the message of every extracted item, and a registration does. */
module ColdTier {
  import opened SlackTime
  import opened SlackThreads
  import opened ThreadTable

  /** One group of a cold pass as it was selected: whether the fetch succeeds, the replies it returns, and what the
      analysis makes of what each member is handed. */
  datatype ColdPass = ColdPass(group: seq<Meta>, fetchOK: bool, replies: seq<Reply>, answers: seq<Answer>)

  /** What the pass registers. */
  function ColdRegs(p: ColdPass): seq<Reg> {
    if p.group == [] || !p.fetchOK then [] else GroupRegs(p.group, p.replies, p.answers)
  }

  /** The pass resolves the thread of this row. */
  predicate Closes(p: ColdPass, k: Key) {
    p.group != [] && p.fetchOK && GroupScan(p.group, p.replies).isResolved && Touched(p.group, |p.group|, k)
  }

  predicate IsActive(rows: map<Key, Row>, k: Key) { k in rows && rows[k].status == Active }

  /** Everything a pass writes: registrations first, then statuses or cursors. */
  ghost predicate ColdRows(before: map<Key, Row>, after: map<Key, Row>, p: ColdPass) {
    var saved := AfterRegs(before, ColdRegs(p));
    if p.group == [] || !p.fetchOK then after == before
    else
      var res := GroupScan(p.group, p.replies);
      if res.isResolved then ClosedRows(saved, after, p.group, |p.group|)
      else TouchedRows(saved, after, p.group, |p.group|, res)
  }

  /** Main result, one pass: a row is active afterwards if and only if the pass does not close it and it was active
      before or an item was extracted from a reply handed to its member. */
  lemma ActiveAfterIff(before: map<Key, Row>, after: map<Key, Row>, p: ColdPass, k: Key)
    requires ColdRows(before, after, p)
    ensures k in after <==> k in before || Named(ColdRegs(p), k)
    ensures IsActive(after, k) <==> !Closes(p, k) && (IsActive(before, k) || Named(ColdRegs(p), k))
  {
    AfterRegsIs(before, ColdRegs(p));
  }

  /** In other words: the pass makes a row active that was not if and only if its scan is unresolved and an item was
      extracted from a reply that it handed to the row's member. */
  lemma ReactivatedIff(before: map<Key, Row>, after: map<Key, Row>, p: ColdPass, k: Key)
    requires ColdRows(before, after, p) && !IsActive(before, k)
    requires p.group != [] && p.fetchOK && RealThread(p.group, p.replies)
    ensures var res := GroupScan(p.group, p.replies);
      IsActive(after, k) <==>
        !res.isResolved
        && exists i, ts :: 0 <= i < |p.group| && Extracts(p.group, i, p.replies, res, p.answers, ts, k)
  {
    var res := GroupScan(p.group, p.replies);
    ActiveAfterIff(before, after, p, k);
    NamedIff(p.group, p.replies, p.answers, k);
    if i, ts :| 0 <= i < |p.group| && Extracts(p.group, i, p.replies, res, p.answers, ts, k) {
      assert KeyOf(p.group[i]) == k;
    }
  }

  /** processColdReconciliationGroup. */
  method ProcessColdGroup(table: Table, p: ColdPass)
    modifies table
    ensures ColdRows(old(table.rows), table.rows, p)
    ensures forall k :: IsActive(table.rows, k) <==>
              !Closes(p, k) && (IsActive(old(table.rows), k) || Named(ColdRegs(p), k))
  {
    if |p.group| > 0 && p.fetchOK {
      var res, mine := FetchAndDispatch(table, p.group, p.replies, p.answers);
      table.ColdWrites(p.group, res);
    }
    forall k ensures IsActive(table.rows, k) <==>
        !Closes(p, k) && (IsActive(old(table.rows), k) || Named(ColdRegs(p), k))
    {
      ActiveAfterIff(old(table.rows), table.rows, p, k);
    }
  }

  // ---------- Pass after pass ----------

  ghost predicate Mentioned(passes: seq<ColdPass>, k: Key) {
    exists i :: 0 <= i < |passes| && Named(ColdRegs(passes[i]), k)
  }

  ghost predicate NeverClosed(passes: seq<ColdPass>, k: Key) {
    forall i :: 0 <= i < |passes| ==> !Closes(passes[i], k)
  }

  /** Some pass registers the key, and neither it nor a later one closes it. */
  ghost predicate Reopened(passes: seq<ColdPass>, k: Key) {
    exists i :: 0 <= i < |passes| && Named(ColdRegs(passes[i]), k) && NeverClosed(passes[i..], k)
  }

  lemma OnePassMore(passes: seq<ColdPass>, p: ColdPass, k: Key)
    ensures Mentioned(passes + [p], k) <==> Mentioned(passes, k) || Named(ColdRegs(p), k)
  {
    var all := passes + [p];
    assert all[|passes|] == p && forall i :: 0 <= i < |passes| ==> all[i] == passes[i];
  }

  lemma StaysReopened(passes: seq<ColdPass>, p: ColdPass, k: Key)
    requires !Closes(p, k) && (Reopened(passes, k) || Named(ColdRegs(p), k))
    ensures Reopened(passes + [p], k)
  {
    var all := passes + [p];
    if i :| 0 <= i < |passes| && Named(ColdRegs(passes[i]), k) && NeverClosed(passes[i..], k) {
      LastIsClosed(passes[i..], p, k);
      assert all[i] == passes[i] && all[i..] == passes[i..] + [p];
    } else {
      assert all[|passes|] == p && all[|passes|..] == [p];
      assert NeverClosed([p], k);
    }
  }

  lemma WasReopened(passes: seq<ColdPass>, p: ColdPass, k: Key)
    requires Reopened(passes + [p], k)
    ensures !Closes(p, k) && (Reopened(passes, k) || Named(ColdRegs(p), k))
  {
    var all := passes + [p];
    var i :| 0 <= i < |all| && Named(ColdRegs(all[i]), k) && NeverClosed(all[i..], k);
    assert all[i..][|passes| - i] == p;
    if i < |passes| {
      LastIsClosed(passes[i..], p, k);
      assert all[i] == passes[i] && all[i..] == passes[i..] + [p];
    }
  }

  lemma LastIsClosed(passes: seq<ColdPass>, p: ColdPass, k: Key)
    ensures NeverClosed(passes + [p], k) <==> NeverClosed(passes, k) && !Closes(p, k)
  {
    var all := passes + [p];
    assert all[|passes|] == p && forall i :: 0 <= i < |passes| ==> all[i] == passes[i];
  }

  /** Main result: over any number of cold passes on any selections, however stale, a row that was not active is
      active at the end if and only if some pass extracted an item from a reply handed to its member and neither
      that pass nor a later one resolved the thread. */
  method RunColdPasses(table: Table, passes: seq<ColdPass>)
    modifies table
    ensures forall k :: k in table.rows <==> k in old(table.rows) || Mentioned(passes, k)
    ensures forall k :: IsActive(table.rows, k) <==>
              (IsActive(old(table.rows), k) && NeverClosed(passes, k)) || Reopened(passes, k)
    ensures forall k :: !IsActive(old(table.rows), k) && !Mentioned(passes, k) ==> !HotSelects(table.rows, k)
  {
    for n := 0 to |passes|
      invariant RanTo(old(table.rows), table.rows, passes[..n])
    {
      ghost var before := table.rows;
      ProcessColdGroup(table, passes[n]);
      RunsOneMore(old(table.rows), before, table.rows, passes[..n], passes[n]);
      assert passes[..n + 1] == passes[..n] + [passes[n]];
    }
    assert passes[..|passes|] == passes;
    forall k | !IsActive(old(table.rows), k) && !Mentioned(passes, k) ensures !HotSelects(table.rows, k) {
      assert !Reopened(passes, k);
    }
  }

  ghost predicate RanTo(start: map<Key, Row>, rows: map<Key, Row>, passes: seq<ColdPass>) {
    && (forall k :: k in rows <==> k in start || Mentioned(passes, k))
    && (forall k :: IsActive(rows, k) <==> (IsActive(start, k) && NeverClosed(passes, k)) || Reopened(passes, k))
  }

  lemma RunsOneMore(start: map<Key, Row>, before: map<Key, Row>, after: map<Key, Row>, passes: seq<ColdPass>,
                    p: ColdPass)
    requires RanTo(start, before, passes) && ColdRows(before, after, p)
    ensures RanTo(start, after, passes + [p])
  {
    forall k
      ensures k in after <==> k in start || Mentioned(passes + [p], k)
      ensures IsActive(after, k) <==>
                (IsActive(start, k) && NeverClosed(passes + [p], k)) || Reopened(passes + [p], k)
    {
      ActiveAfterIff(before, after, p, k);
      OnePassMore(passes, p, k);
      LastIsClosed(passes, p, k);
      if Reopened(passes + [p], k) { WasReopened(passes, p, k); }
      if !Closes(p, k) && (Reopened(passes, k) || Named(ColdRegs(p), k)) { StaysReopened(passes, p, k); }
    }
  }

  // ---------- The promise that fails ----------

  /** A row that was closed, with an open task and one late reply: the cold pass extracts an item from the reply, and
      the row is in the hot selection again. */
  method ColdPassReactivates() returns (table: Table, ghost before: map<Key, Row>, p: ColdPass, k: Key)
    ensures ColdSelects(before, k, true) && !HotSelects(before, k)
    ensures p.group != [] && ColdRows(before, table.rows, p) && !GroupScan(p.group, p.replies).isResolved
    ensures HotSelects(table.rows, k)
  {
    table := new Table();
    k := Key("C", 1, "u");
    var m, late := Meta("u", "C", 1, 2, 2), Reply(3, false, false, false, false);
    table.Upsert(k, 2, 2);
    table.Close(k);
    before := table.rows;
    p := ColdPass([m], true, [late], [Answer({3}, [3])]);
    ProcessColdGroup(table, p);
    LateItemIsSaved(m, late);
  }

  lemma LateItemIsSaved(m: Meta, late: Reply)
    requires m.channel != "" && NONE < m.lastTS < late.ts && m.threadTS != NONE && !late.check && !IsBotMessage(late)
    ensures var answers := [Answer({late.ts}, [late.ts])];
      !GroupScan([m], [late]).isResolved && Named(GroupRegs([m], [late], answers), KeyOf(m))
  {
    var group, replies, answers := [m], [late], [Answer({late.ts}, [late.ts])];
    var res := GroupScan(group, replies);
    assert replies[1..] == [] && MinOf(group) == m.lastTS;
    var act := if !IsBotAuthor(late) && late.ts > m.lastActivityTS then late.ts else m.lastActivityTS;
    assert res == Scan(replies[1..], m.lastTS, late.ts, act) == ScanResult(false, late.ts, act);
    assert Dispatched(replies, m.lastTS, res) == [late] + Dispatched(replies[1..], m.lastTS, res) == [late];
    assert [late][0].ts == late.ts;
    assert Extracts(group, 0, replies, res, answers, late.ts, KeyOf(m));
    NamedIff(group, replies, answers, KeyOf(m));
  }
}
