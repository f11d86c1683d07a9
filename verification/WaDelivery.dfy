/** Delivery of logged WhatsApp messages (scanner/wa_replay.go, channels/msgbuffer.go): what a replay cycle puts
    back into the buffer, and how many cycles a message can wait for its turn. */
module WaDelivery {
  import opened ChatBuffers
  import opened WaReplay
  import opened WaProtocol

  // ---------- Which rows a cycle keeps ----------

  lemma {:induction false} ParsablePrefix(rows: seq<Row>, n: nat, chat: string)
    requires n <= |rows|
    ensures Parsable(rows[..n], chat) <= Parsable(rows, chat)
  {
    if n < |rows| {
      var front := rows[..|rows| - 1];
      assert front[..n] == rows[..n];
      ParsablePrefix(front, n, chat);
    } else {
      assert rows[..n] == rows;
    }
  }

  /** Where a parsable row stands among those of its chat. */
  lemma ParsableAt(rows: seq<Row>, i: nat)
    requires i < |rows| && rows[i].payload.Parsed?
    ensures var chat := rows[i].chat; var p := |Parsable(rows[..i], chat)|;
      p < |Parsable(rows, chat)| && Parsable(rows, chat)[p] == rows[i].payload.msg.(isReplay := true)
  {
    var chat := rows[i].chat;
    assert rows[..i + 1] == rows[..i] + [rows[i]];
    ParsableStep(rows[..i], rows[i], chat);
    ParsablePrefix(rows, i + 1, chat);
    var p := |Parsable(rows[..i], chat)|;
    assert Parsable(rows[..i + 1], chat)[p] == rows[i].payload.msg.(isReplay := true);
  }

  /** Every entry of a chat's list comes from some row of that chat, at its own place. */
  lemma {:induction false} ParsableFrom(rows: seq<Row>, chat: string, p: nat) returns (i: nat)
    requires p < |Parsable(rows, chat)|
    ensures i < |rows| && rows[i].payload.Parsed? && rows[i].chat == chat && |Parsable(rows[..i], chat)| == p
    ensures Parsable(rows, chat)[p] == rows[i].payload.msg.(isReplay := true)
  {
    var n := |rows| - 1;
    var front := rows[..n];
    if p < |Parsable(front, chat)| {
      i := ParsableFrom(front, chat, p);
      assert front[..i] == rows[..i];
    } else {
      i := n;
    }
  }

  /** Payloads carry their row's id, each once. */
  ghost predicate OwnIds(rows: seq<Row>) {
    && DistinctRows(rows)
    && forall i :: 0 <= i < |rows| && rows[i].payload.Parsed? ==> rows[i].payload.msg.id == rows[i].messageId
  }

  /** The selection holds the row and fewer than 149 parsable rows of its chat precede it. */
  ghost predicate KeptRow(rows: seq<Row>, chat: string, id: string) {
    exists i :: 0 <= i < |rows| && rows[i].messageId == id && rows[i].payload.Parsed? && rows[i].chat == chat
                && |Parsable(rows[..i], chat)| < PER_CHAT_MAX
  }

  lemma KeptIdsAre(rows: seq<Row>, chat: string, id: string)
    requires OwnIds(rows)
    ensures id in Ids(Oldest(Parsable(rows, chat))) <==> KeptRow(rows, chat, id)
  {
    var all, kept := Parsable(rows, chat), Oldest(Parsable(rows, chat));
    if id in Ids(kept) {
      var m :| m in kept && m.id == id;
      var p :| 0 <= p < |kept| && kept[p] == m;
      var i := ParsableFrom(rows, chat, p);
      assert all[p] == kept[p];
    }
    if KeptRow(rows, chat, id) {
      var i :| 0 <= i < |rows| && rows[i].messageId == id && rows[i].payload.Parsed? && rows[i].chat == chat
               && |Parsable(rows[..i], chat)| < PER_CHAT_MAX;
      ParsableAt(rows, i);
      assert kept[|Parsable(rows[..i], chat)|] in kept;
    }
  }

  // ---------- What a reinsertion leaves in the buffer ----------

  /** Wherever the message stands, at least 200 messages are sorted after it. */
  ghost predicate Displaced(merged: seq<Msg>, id: string) {
    forall p :: 0 <= p < |merged| && merged[p].id == id ==> |merged| - 1 - p >= CAP
  }

  /** The arrangement behind a reinsertion: untouched if nothing was new, else sorted by time. */
  ghost predicate Arranged(before: seq<Msg>, kept: seq<Msg>, merged: seq<Msg>) {
    if Unseen(Ids(before), kept) == [] then merged == before else Merges(before, kept, merged)
  }

  lemma {:induction false} UnseenIsShort(seen: set<string>, raws: seq<Msg>)
    ensures |Unseen(seen, raws)| <= |raws|
    decreases raws
  {
    if raws != [] {
      UnseenIsShort(if raws[0].id in seen then seen else seen + {raws[0].id}, raws[1..]);
    }
  }

  lemma ArrangedIds(before: seq<Msg>, kept: seq<Msg>, merged: seq<Msg>)
    requires Arranged(before, kept, merged)
    ensures Ids(merged) == Ids(before) + Ids(kept) && |merged| <= |before| + |kept|
  {
    var u := Unseen(Ids(before), kept);
    UnseenIsNew(Ids(before), kept);
    UnseenIsShort(Ids(before), kept);
    assert Ids(u) <= Ids(kept) by { assert forall m :: m in u ==> m in kept; }
    if u == [] {
      assert Ids(u) == {};
    } else {
      SameIds(before, u, merged);
      assert |merged| == |multiset(merged)| == |multiset(before + u)| == |before| + |u|;
    }
    forall id | id in Ids(kept) ensures id in Ids(before) + Ids(u) {
      var m :| m in kept && m.id == id;
    }
  }

  lemma KeptUnlessDisplaced(merged: seq<Msg>, id: string)
    ensures id in Ids(Newest(merged)) <==> !Displaced(merged, id)
  {
    var n, newest := |merged| - |Newest(merged)|, Newest(merged);
    assert forall p :: 0 <= p < |newest| ==> newest[p] == merged[n + p];
    if id in Ids(newest) {
      var m :| m in newest && m.id == id;
      var p :| 0 <= p < |newest| && newest[p] == m;
      assert merged[n + p].id == id;
    }
    if !Displaced(merged, id) {
      var p :| 0 <= p < |merged| && merged[p].id == id && |merged| - 1 - p < CAP;
      assert newest[p - n] == merged[p] && newest[p - n] in newest;
    }
  }

  /** Main result, for one chat: after a reinsertion an id is in the buffer if and only if it was there or was
      kept, and fewer than 200 messages are sorted after it. */
  lemma ReinsertedIff(before: seq<Msg>, kept: seq<Msg>, after: seq<Msg>, id: string) returns (merged: seq<Msg>)
    requires ReplayResult(before, kept, after) && |before| <= CAP
    ensures Arranged(before, kept, merged) && |merged| <= |before| + |kept|
    ensures id in Ids(after) <==> id in Ids(before) + Ids(kept) && !Displaced(merged, id)
  {
    if Unseen(Ids(before), kept) == [] {
      merged := before;
    } else {
      merged :| Merges(before, kept, merged) && after == Newest(merged);
    }
    ArrangedIds(before, kept, merged);
    KeptUnlessDisplaced(merged, id);
    assert id in Ids(merged) || (Displaced(merged, id) && id !in Ids(after));
  }

  // ---------- Counting what displaces a message ----------

  function LaterThan(msgs: seq<Msg>, time: int): seq<Msg> {
    if msgs == [] then []
    else (if msgs[0].time > time then [msgs[0]] else []) + LaterThan(msgs[1..], time)
  }

  lemma {:induction false} LaterCount(msgs: seq<Msg>, time: int, m: Msg)
    ensures multiset(LaterThan(msgs, time))[m] == if m.time > time then multiset(msgs)[m] else 0
  {
    if msgs != [] {
      LaterCount(msgs[1..], time, m);
      assert msgs == [msgs[0]] + msgs[1..];
    }
  }

  lemma LaterPermutes(a: seq<Msg>, b: seq<Msg>, time: int)
    requires multiset(a) == multiset(b)
    ensures |LaterThan(a, time)| == |LaterThan(b, time)|
  {
    var x, y := LaterThan(a, time), LaterThan(b, time);
    forall m ensures multiset(x)[m] == multiset(y)[m] {
      LaterCount(a, time, m);
      LaterCount(b, time, m);
    }
    assert multiset(x) == multiset(y);
    assert |multiset(x)| == |x| && |multiset(y)| == |y|;
  }

  /** In a list sorted by time, what is later than a message stands after it, and what stands after it is not
      earlier. */
  lemma {:induction false} SortedPlace(msgs: seq<Msg>, p: nat, time: int)
    requires SortedByTime(msgs) && p < |msgs|
    ensures msgs[p].time <= time ==> |LaterThan(msgs, time)| <= |msgs| - 1 - p
    ensures msgs[p].time > time ==> |LaterThan(msgs, time)| >= |msgs| - p
  {
    var rest := msgs[1..];
    assert forall i :: 0 <= i < |rest| ==> rest[i] == msgs[i + 1];
    if p > 0 {
      SortedPlace(rest, p - 1, time);
    } else {
      LaterIsPart(rest, time);
    }
  }

  lemma {:induction false} LaterIsPart(msgs: seq<Msg>, time: int)
    ensures |LaterThan(msgs, time)| <= |msgs|
    ensures (forall m :: m in msgs ==> m.time > time) <==> |LaterThan(msgs, time)| == |msgs|
  {
    if msgs != [] {
      assert msgs == [msgs[0]] + msgs[1..];
      LaterIsPart(msgs[1..], time);
    }
  }

  ghost predicate TimeIs(msgs: seq<Msg>, id: string, time: int) {
    forall m :: m in msgs && m.id == id ==> m.time == time
  }

  /** Two countable bounds: with 200 later messages in the buffer and the reinserted part together a message is out;
      with at most 200 that are not earlier, itself included, it is not cut. */
  lemma DisplacedBounds(before: seq<Msg>, kept: seq<Msg>, merged: seq<Msg>, id: string, time: int)
    requires Arranged(before, kept, merged) && |before| <= CAP
    requires TimeIs(before, id, time) && TimeIs(kept, id, time)
    ensures var all := before + Unseen(Ids(before), kept);
      && (|LaterThan(all, time)| >= CAP ==> Displaced(merged, id))
      && (|LaterThan(all, time - 1)| <= CAP && id in Ids(merged) ==> !Displaced(merged, id))
  {
    var u := Unseen(Ids(before), kept);
    if u == [] {
      assert before + u == before;
      LaterIsPart(before, time);
      ShortIsNotDisplaced(merged, id);
    } else {
      MergedTimes(before, kept, merged, id, time);
      LaterPermutes(merged, before + u, time);
      LaterPermutes(merged, before + u, time - 1);
      SortedDisplaced(merged, id, time);
    }
  }

  lemma MergedTimes(before: seq<Msg>, kept: seq<Msg>, merged: seq<Msg>, id: string, time: int)
    requires Merges(before, kept, merged) && TimeIs(before, id, time) && TimeIs(kept, id, time)
    ensures TimeIs(merged, id, time)
  {
    var u := Unseen(Ids(before), kept);
    UnseenIsNew(Ids(before), kept);
    forall m | m in merged && m.id == id ensures m.time == time {
      assert m in multiset(before + u);
      assert m in before || m in u;
    }
  }

  lemma ShortIsNotDisplaced(merged: seq<Msg>, id: string)
    requires |merged| <= CAP
    ensures Displaced(merged, id) <==> id !in Ids(merged)
  {
    if id in Ids(merged) {
      var m :| m in merged && m.id == id;
      var p :| 0 <= p < |merged| && merged[p] == m;
    }
  }

  lemma SortedDisplaced(merged: seq<Msg>, id: string, time: int)
    requires SortedByTime(merged) && TimeIs(merged, id, time)
    ensures |LaterThan(merged, time)| >= CAP ==> Displaced(merged, id)
    ensures |LaterThan(merged, time - 1)| <= CAP && id in Ids(merged) ==> !Displaced(merged, id)
  {
    forall p | 0 <= p < |merged| && merged[p].id == id
      ensures |LaterThan(merged, time)| <= |merged| - 1 - p && |LaterThan(merged, time - 1)| >= |merged| - p
    {
      SortedPlace(merged, p, time);
      SortedPlace(merged, p, time - 1);
    }
    if id in Ids(merged) {
      var m :| m in merged && m.id == id;
      var p :| 0 <= p < |merged| && merged[p] == m;
    }
  }

  // ---------- One uninterrupted cycle ----------

  lemma {:induction false} SplitRun(s: State, a: seq<Step>, b: seq<Step>, t: State) returns (mid: State)
    requires Runs(s, a + b, t)
    ensures Runs(s, a, mid) && Runs(mid, b, t)
    decreases |a|
  {
    if a == [] {
      assert a + b == b;
      mid := s;
    } else {
      assert (a + b)[1..] == a[1..] + b;
      mid := SplitRun(Apply(s, a[0]), a[1..], b, t);
    }
  }

  /** Reinsertions only, each chat at most once. */
  ghost predicate OneEach(rs: seq<Step>) {
    && (forall i :: 0 <= i < |rs| ==> rs[i].Requeue?)
    && forall i, j :: 0 <= i < j < |rs| ==> rs[i].k != rs[j].k
  }

  /** The reinsertions of one cycle: each chat with a kept message once, in any order. */
  ghost predicate Requeues(email: string, sel: seq<Row>, rs: seq<Step>) {
    && OneEach(rs) && (forall j :: 0 <= j < |rs| ==> rs[j].k.email == email)
    && (forall i :: 0 <= i < |sel| && sel[i].payload.Parsed? ==>
          exists j :: 0 <= j < |rs| && rs[j].k == Key(email, sel[i].chat))
  }

  /** replayWhatsAppUser: query, count the malformed rows as failed, reinsert chat by chat. */
  function CycleSteps(email: string, sel: seq<Row>, rs: seq<Step>): seq<Step> {
    [Select(email, sel)] + [Fail(email)] + rs
  }

  /** Reinsertions leave rows, batches and other chats alone. */
  lemma {:induction false} OthersUntouched(s: State, rs: seq<Step>, t: State, k: Key)
    requires Runs(s, rs, t)
    requires forall j :: 0 <= j < |rs| ==> rs[j].Requeue? && rs[j].k != k
    ensures Buffered(t, k) == Buffered(s, k)
    decreases |rs|
  {
    if rs != [] {
      assert forall j :: 0 <= j < |rs[1..]| ==> rs[1..][j] == rs[j + 1];
      OthersUntouched(Apply(s, rs[0]), rs[1..], t, k);
    }
  }

  lemma {:induction false} RequeuesKeepRows(s: State, rs: seq<Step>, t: State)
    requires Runs(s, rs, t) && forall j :: 0 <= j < |rs| ==> rs[j].Requeue?
    ensures t.rows == s.rows && t.batch == s.batch && t.now == s.now
    decreases |rs|
  {
    if rs != [] {
      assert forall j :: 0 <= j < |rs[1..]| ==> rs[1..][j] == rs[j + 1];
      RequeueKeepsRows(s, rs[0]);
      RequeuesKeepRows(Apply(s, rs[0]), rs[1..], t);
    }
  }

  lemma RequeueKeepsRows(s: State, step: Step)
    requires step.Requeue?
    ensures Apply(s, step).rows == s.rows && Apply(s, step).batch == s.batch && Apply(s, step).now == s.now
  {
    assert forall id :: id in s.rows ==> RowAfter(s, step, id) == s.rows[id];
  }

  /** The cycle after its query and the count of malformed rows: the batch is the selection, the buffers are
      untouched. */
  lemma CycleOpens(s: State, email: string, sel: seq<Row>, rs: seq<Step>, t: State) returns (u: State)
    requires Inv(s) && Runs(s, CycleSteps(email, sel, rs), t)
    ensures Enabled(s, Select(email, sel)) && u == Apply(Apply(s, Select(email, sel)), Fail(email))
    ensures Runs(u, rs, t) && Inv(u) && Batch(u, email) == sel && u.buffer == s.buffer && u.now == s.now
    ensures OwnIds(sel)
  {
    var steps := CycleSteps(email, sel, rs);
    assert steps[0] == Select(email, sel) && steps[1..] == [Fail(email)] + rs;
    assert ([Fail(email)] + rs)[0] == Fail(email) && ([Fail(email)] + rs)[1..] == rs;
    var s1 := Apply(s, Select(email, sel));
    u := Apply(s1, Fail(email));
    StepKeepsInv(s, Select(email, sel));
    StepKeepsInv(s1, Fail(email));
    SelectionOwnsIds(s, email, sel);
  }

  lemma SelectionOwnsIds(s: State, email: string, sel: seq<Row>)
    requires Inv(s) && Selection(s, email, sel)
    ensures OwnIds(sel)
  {
    forall i | 0 <= i < |sel| && sel[i].payload.Parsed? ensures sel[i].payload.msg.id == sel[i].messageId {
      assert RowOf(s, sel[i]);
    }
  }

  /** The messages of a chat before a cycle and what the cycle keeps of it. */
  lemma CycleDelivers(s: State, email: string, sel: seq<Row>, rs: seq<Step>, t: State, chat: string, id: string)
    returns (merged: seq<Msg>)
    requires Inv(s) && Runs(s, CycleSteps(email, sel, rs), t) && Requeues(email, sel, rs)
    ensures |merged| <= |Buffered(s, Key(email, chat))| + PER_CHAT_MAX
    ensures Arranged(Buffered(s, Key(email, chat)), Oldest(Parsable(sel, chat)), merged)
    ensures id in Ids(Buffered(t, Key(email, chat))) <==>
              && (id in Ids(Buffered(s, Key(email, chat))) || KeptRow(sel, chat, id))
              && !Displaced(merged, id)
  {
    var k := Key(email, chat);
    var u := CycleOpens(s, email, sel, rs, t);
    KeptIdsAre(sel, chat, id);
    assert Buffered(u, k) == Buffered(s, k);
    if j :| 0 <= j < |rs| && rs[j].k == k {
      merged := RequeuedIff(u, email, sel, rs, t, k, j, id);
    } else {
      OthersUntouched(u, rs, t, k);
      NothingKept(sel, chat);
      merged := Buffered(s, k);
      BufferFits(s, k);
      KeptUnlessDisplaced(merged, id);
    }
  }

  lemma BufferFits(s: State, k: Key)
    requires Inv(s)
    ensures |Buffered(s, k)| <= CAP
  {
  }

  lemma {:induction false} NothingKept(rows: seq<Row>, chat: string)
    requires forall i :: 0 <= i < |rows| && rows[i].payload.Parsed? ==> rows[i].chat != chat
    ensures Parsable(rows, chat) == []
  {
    if rows != [] {
      var front := rows[..|rows| - 1];
      assert forall i :: 0 <= i < |front| ==> front[i] == rows[i];
      NothingKept(front, chat);
    }
  }

  lemma SplitAround(s: State, steps: seq<Step>, t: State, j: nat) returns (u: State)
    requires Runs(s, steps, t) && j < |steps|
    ensures Runs(s, steps[..j], u) && Enabled(u, steps[j]) && Runs(Apply(u, steps[j]), steps[j + 1..], t)
  {
    var last := steps[j..];
    assert steps == steps[..j] + last;
    u := SplitRun(s, steps[..j], last, t);
    assert last[0] == steps[j] && last[1..] == steps[j + 1..];
  }

  lemma BeforeOwn(u: State, rs: seq<Step>, j: nat, u1: State)
    requires OneEach(rs) && j < |rs| && Runs(u, rs[..j], u1)
    ensures u1.batch == u.batch && Buffered(u1, rs[j].k) == Buffered(u, rs[j].k)
  {
    var front := rs[..j];
    assert forall i :: 0 <= i < |front| ==> front[i].Requeue? && front[i].k != rs[j].k;
    OthersUntouched(u, front, u1, rs[j].k);
    RequeuesKeepRows(u, front, u1);
  }

  lemma AfterOwn(u1: State, rs: seq<Step>, j: nat, t: State)
    requires OneEach(rs) && j < |rs| && Runs(Apply(u1, rs[j]), rs[j + 1..], t)
    ensures Buffered(t, rs[j].k) == rs[j].after
  {
    var tail := rs[j + 1..];
    forall i | 0 <= i < |tail| ensures tail[i].Requeue? && tail[i].k != rs[j].k {
      assert tail[i] == rs[j + 1 + i];
    }
    OthersUntouched(Apply(u1, rs[j]), tail, t, rs[j].k);
  }

  /** Among one cycle's reinsertions, only the chat's own touches its buffer. */
  lemma OwnRequeue(u: State, rs: seq<Step>, t: State, j: nat) returns (u1: State)
    requires Runs(u, rs, t) && OneEach(rs) && j < |rs|
    ensures Enabled(u1, rs[j]) && u1.batch == u.batch && Buffered(u1, rs[j].k) == Buffered(u, rs[j].k)
    ensures Buffered(t, rs[j].k) == rs[j].after
  {
    u1 := SplitAround(u, rs, t, j);
    BeforeOwn(u, rs, j, u1);
    AfterOwn(u1, rs, j, t);
  }

  lemma RequeuedIff(u: State, email: string, sel: seq<Row>, rs: seq<Step>, t: State, k: Key, j: nat, id: string)
    returns (merged: seq<Msg>)
    requires Inv(u) && Runs(u, rs, t) && Requeues(email, sel, rs) && Batch(u, email) == sel
    requires j < |rs| && rs[j].k == k && k.email == email
    ensures Arranged(Buffered(u, k), Oldest(Parsable(sel, k.chat)), merged)
    ensures |merged| <= |Buffered(u, k)| + PER_CHAT_MAX
    ensures id in Ids(Buffered(t, k)) <==>
              id in Ids(Buffered(u, k)) + Ids(Oldest(Parsable(sel, k.chat))) && !Displaced(merged, id)
  {
    var u1 := OwnRequeue(u, rs, t, j);
    BufferFits(u, k);
    merged := ReinsertedIff(Buffered(u, k), Oldest(Parsable(sel, k.chat)), rs[j].after, id);
  }

  lemma {:induction false} MalformedIsReported(rows: seq<Row>, i: nat)
    requires i < |rows| && rows[i].payload.Malformed?
    ensures rows[i].messageId in MalformedIds(rows)
  {
    if i < |rows| - 1 {
      MalformedIsReported(rows[..|rows| - 1], i);
    }
  }

  lemma FailCharges(s: State, email: string, sel: seq<Row>, i: nat)
    requires Batch(s, email) == sel && DistinctRows(sel) && i < |sel|
    requires var id := sel[i].messageId; id in s.rows && s.rows[id].email == email && !s.rows[id].processed
    ensures var id, t := sel[i].messageId, Apply(s, Fail(email));
      && id in t.rows
      && t.rows[id] == s.rows[id].(attempts := s.rows[id].attempts + if sel[i].payload.Malformed? then 1 else 0)
  {
    var id := sel[i].messageId;
    RowKeepsIdentity(s, Fail(email), id);
    if sel[i].payload.Malformed? {
      MalformedIsReported(sel, i);
    } else if id in MalformedIds(sel) {
      MalformedRowsAre(sel, id);
    }
  }

  lemma SelectedRowIs(s: State, email: string, sel: seq<Row>, i: nat)
    requires Selection(s, email, sel) && i < |sel|
    ensures var id, t := sel[i].messageId, Apply(s, Select(email, sel));
      && id in s.rows && Replayable(s.rows[id], email, s.now) && s.rows[id].payload == sel[i].payload
      && id in t.rows && t.rows[id] == s.rows[id] && Batch(t, email) == sel
  {
    assert RowOf(s, sel[i]);
    RowKeepsIdentity(s, Select(email, sel), sel[i].messageId);
  }

  /** An uninterrupted cycle reinserts unprocessed rows only: it changes nothing of a selected row but the
      attempt it charges to a malformed one. */
  lemma CycleKeepsRow(s: State, email: string, sel: seq<Row>, rs: seq<Step>, t: State, i: nat)
    requires Inv(s) && Runs(s, CycleSteps(email, sel, rs), t) && i < |sel|
    requires forall j :: 0 <= j < |rs| ==> rs[j].Requeue?
    ensures var id := sel[i].messageId;
      && id in s.rows && Replayable(s.rows[id], email, s.now) && s.rows[id].payload == sel[i].payload
      && id in t.rows && !t.rows[id].processed
      && t.rows[id] == s.rows[id].(attempts := s.rows[id].attempts + if sel[i].payload.Malformed? then 1 else 0)
  {
    var id := sel[i].messageId;
    var u := CycleOpens(s, email, sel, rs, t);
    RequeuesKeepRows(u, rs, t);
    SelectedRowIs(s, email, sel, i);
    FailCharges(Apply(s, Select(email, sel)), email, sel, i);
  }

  // ---------- A due row ----------

  /** 997 selected rows stand before it, none younger. */
  ghost predicate CrowdedOut(s: State, sel: seq<Row>, id: string)
    requires id in s.rows
  {
    && |sel| == REPLAY_LIMIT
    && forall i :: 0 <= i < |sel| ==>
         sel[i].messageId != id && sel[i].messageId in s.rows && s.rows[sel[i].messageId].ts <= s.rows[id].ts
  }

  /** It is selected, but 149 parsable rows of its chat stand before it. */
  ghost predicate Deferred(sel: seq<Row>, chat: string, id: string) {
    exists i :: 0 <= i < |sel| && sel[i].messageId == id && |Parsable(sel[..i], chat)| >= PER_CHAT_MAX
  }

  ghost predicate Due(s: State, email: string, id: string) {
    id in s.rows && Good(s.rows[id]) && Replayable(s.rows[id], email, s.now)
  }

  lemma SelectedOrCrowdedOut(s: State, email: string, sel: seq<Row>, id: string)
    requires Inv(s) && Due(s, email, id) && Selection(s, email, sel)
    ensures KeptRow(sel, s.rows[id].chat, id) <==>
              !CrowdedOut(s, sel, id) && !Deferred(sel, s.rows[id].chat, id)
    ensures sel != [] && sel[0].messageId in s.rows && s.rows[sel[0].messageId].ts <= s.rows[id].ts
  {
    if i :| 0 <= i < |sel| && sel[i].messageId == id {
      assert RowOf(s, sel[i]) && !CrowdedOut(s, sel, id);
      assert forall j :: 0 <= j < |sel| && sel[j].messageId == id ==> j == i;
      assert RowOf(s, sel[0]);
    } else {
      var last := sel[|sel| - 1];
      assert |sel| == REPLAY_LIMIT && s.rows[last.messageId].ts <= s.rows[id].ts;
      forall i | 0 <= i < |sel|
        ensures sel[i].messageId != id && sel[i].messageId in s.rows && s.rows[sel[i].messageId].ts <= s.rows[id].ts
      {
        assert RowOf(s, sel[i]);
      }
    }
  }

  /** Main result: after an uninterrupted cycle, a due row is missing from the buffer if and only if 200 messages
      are sorted after it there, or it was not there before and 997 rows no younger were selected instead of it,
      or 149 parsable rows of its chat were selected before it. */
  lemma DueRowIsDeliveredIff(s: State, email: string, sel: seq<Row>, rs: seq<Step>, t: State, id: string)
    returns (merged: seq<Msg>)
    requires Inv(s) && Due(s, email, id)
    requires Runs(s, CycleSteps(email, sel, rs), t) && Requeues(email, sel, rs)
    ensures var k := Key(email, s.rows[id].chat);
      && Arranged(Buffered(s, k), Oldest(Parsable(sel, k.chat)), merged)
      && (id !in Ids(Buffered(t, k)) <==>
            || Displaced(merged, id)
            || (id !in Ids(Buffered(s, k)) && (CrowdedOut(s, sel, id) || Deferred(sel, k.chat, id))))
  {
    merged := CycleDelivers(s, email, sel, rs, t, s.rows[id].chat, id);
    var u := CycleOpens(s, email, sel, rs, t);
    SelectedOrCrowdedOut(s, email, sel, id);
  }

  /** The same in numbers: with 200 later messages in its chat, counting the buffer and what the cycle keeps, a due
      row is out; if it was buffered or kept, at most 200 that are not earlier leave it in. */
  lemma DueRowByCount(s: State, email: string, sel: seq<Row>, rs: seq<Step>, t: State, id: string, time: int)
    requires Inv(s) && Due(s, email, id)
    requires Runs(s, CycleSteps(email, sel, rs), t) && Requeues(email, sel, rs)
    requires TimeIs(Buffered(s, Key(email, s.rows[id].chat)), id, time)
    requires TimeIs(Parsable(sel, s.rows[id].chat), id, time)
    ensures var k := Key(email, s.rows[id].chat);
      var kept := Oldest(Parsable(sel, k.chat));
      var all := Buffered(s, k) + Unseen(Ids(Buffered(s, k)), kept);
      && (|LaterThan(all, time)| >= CAP ==> id !in Ids(Buffered(t, k)))
      && (|LaterThan(all, time - 1)| <= CAP
          && (id in Ids(Buffered(s, k)) || (!CrowdedOut(s, sel, id) && !Deferred(sel, k.chat, id))) ==>
            id in Ids(Buffered(t, k)))
  {
    var k := Key(email, s.rows[id].chat);
    var kept := Oldest(Parsable(sel, k.chat));
    var merged := DueRowIsDeliveredIff(s, email, sel, rs, t, id);
    BufferFits(s, k);
    assert forall m :: m in kept ==> m in Parsable(sel, k.chat);
    DisplacedBounds(Buffered(s, k), kept, merged, id, time);
    ArrangedIds(Buffered(s, k), kept, merged);
    var u := CycleOpens(s, email, sel, rs, t);
    SelectedOrCrowdedOut(s, email, sel, id);
    KeptIdsAre(sel, k.chat, id);
  }

  /** When the write-settle grace and the current hold of a row have both run out. */
  function DueTime(r: LogRow): int {
    if r.popped.At? && r.popped.time + STALE > r.created + GRACE then r.popped.time + STALE else r.created + GRACE
  }

  /** Main result: after any run at all, an uninterrupted cycle of the account puts a captured message back into
      the buffer, unless it is processed, was handed to at least three scans, is not due yet or past the lookback,
      or stands behind 997 rows, 149 rows of its chat or 200 messages. */
  lemma NothingIsSilentlyLost(start: int, steps: seq<Step>, s: State, id: string,
                              sel: seq<Row>, rs: seq<Step>, t: State)
    returns (merged: seq<Msg>)
    requires Runs(Init(start), steps, s) && id in s.rows && Good(s.rows[id])
    requires Runs(s, CycleSteps(s.rows[id].email, sel, rs), t) && Requeues(s.rows[id].email, sel, rs)
    ensures id in s.held
    ensures var r, k := s.rows[id], Key(s.rows[id].email, s.rows[id].chat);
      && Arranged(Buffered(s, k), Oldest(Parsable(sel, k.chat)), merged)
      && (!r.processed && s.held[id] < MAX_ATTEMPTS && DueTime(r) <= s.now <= r.ts + LOOKBACK ==>
            (id in Ids(Buffered(t, k)) <==>
               && !Displaced(merged, id)
               && (id in Ids(Buffered(s, k)) || (!CrowdedOut(s, sel, id) && !Deferred(sel, k.chat, id)))))
  {
    RunKeepsInv(Init(start), steps, s);
    var r := s.rows[id];
    if !r.processed && s.held[id] < MAX_ATTEMPTS && DueTime(r) <= s.now <= r.ts + LOOKBACK {
      merged := DueRowIsDeliveredIff(s, r.email, sel, rs, t, id);
    } else {
      merged := CycleDelivers(s, r.email, sel, rs, t, r.chat, id);
    }
  }
}
