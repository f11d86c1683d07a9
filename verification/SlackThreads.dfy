/** Sweeping the replies of a tracked Slack thread (scanner/scanner_slack_threads.go,
    scanner/scanner_slack_activity.go). Timestamps are instants, NONE is the empty string. */
module SlackThreads {
  import opened SlackTime

  /** A fetched reply: who wrote it and whether it carries the check-mark reaction right now. */
  datatype Reply = Reply(ts: Ts, byOurBot: bool, hasBotId: bool, botSubtype: bool, check: bool)

  datatype ScanResult = ScanResult(isResolved: bool, newLastTS: Ts, newLastActivity: Ts)

  predicate IsBotAuthor(m: Reply) { m.byOurBot || m.hasBotId }

  /** Skipped by collectThreadCandidates. */
  predicate IsBotMessage(m: Reply) { m.hasBotId || m.botSubtype }

  predicate Seen(ts: Ts, lastTS: Ts) { lastTS != NONE && ts <= lastTS }

  // ---------- scanThreadReplies ----------

  /** The rest of the loop, entered with the two running maxima and nothing resolved yet. */
  function Scan(replies: seq<Reply>, lastTS: Ts, newLastTS: Ts, newActivity: Ts): ScanResult {
    if replies == [] then ScanResult(false, newLastTS, newActivity)
    else
      var m := replies[0];
      if Seen(m.ts, lastTS) then Scan(replies[1..], lastTS, newLastTS, newActivity)
      else
        var last := if m.ts > newLastTS then m.ts else newLastTS;
        if m.check then ScanResult(true, last, newActivity)
        else
          var act := if !IsBotAuthor(m) && m.ts > newActivity then m.ts else newActivity;
          Scan(replies[1..], lastTS, last, act)
  }

  /** Reply i is new to the cursor, and no new reply before it carries a check mark. */
  ghost predicate IsRead(replies: seq<Reply>, lastTS: Ts, i: nat) {
    && i < |replies| && (lastTS == NONE || replies[i].ts > lastTS)
    && forall j :: 0 <= j < i && (lastTS == NONE || replies[j].ts > lastTS) ==> !replies[j].check
  }

  /** A reply by somebody who is not a bot, read before any check mark. */
  ghost predicate IsActivity(replies: seq<Reply>, lastTS: Ts, i: nat) {
    IsRead(replies, lastTS, i) && !replies[i].check && ByPerson(replies[i])
  }

  /** The activity stamp is the newest activity read, or what it was if that is newer. */
  ghost predicate ActivityMeans(replies: seq<Reply>, lastTS: Ts, before: Ts, after: Ts) {
    && before <= after && (forall i: nat :: IsActivity(replies, lastTS, i) ==> replies[i].ts <= after)
    && (after == before || exists i: nat :: IsActivity(replies, lastTS, i) && replies[i].ts == after)
  }

  /** What a scan answers: resolved if and only if a check mark was read, the newest reply read, and the newest
      activity read, each no older than what it started from. */
  ghost predicate ScanMeans(replies: seq<Reply>, lastTS: Ts, start: Ts, act: Ts, res: ScanResult) {
    && (res.isResolved <==> exists i: nat :: IsRead(replies, lastTS, i) && replies[i].check)
    && start <= res.newLastTS && (forall i: nat :: IsRead(replies, lastTS, i) ==> replies[i].ts <= res.newLastTS)
    && (res.newLastTS == start || exists i: nat :: IsRead(replies, lastTS, i) && replies[i].ts == res.newLastTS)
    && ActivityMeans(replies, lastTS, act, res.newLastActivity)
  }

  lemma ReadInTail(replies: seq<Reply>, lastTS: Ts, i: nat)
    requires replies != []
    ensures IsRead(replies, lastTS, i + 1) <==>
              IsRead(replies[1..], lastTS, i) && (Seen(replies[0].ts, lastTS) || !replies[0].check)
  {
    var rest := replies[1..];
    assert forall j :: 0 <= j < |rest| ==> rest[j] == replies[j + 1];
    if IsRead(rest, lastTS, i) && (Seen(replies[0].ts, lastTS) || !replies[0].check) {
      forall j | 0 <= j < i + 1 && (lastTS == NONE || replies[j].ts > lastTS) ensures !replies[j].check {
        if j > 0 { assert replies[j] == rest[j - 1]; }
      }
    }
  }

  /** The scan gets to every reply that is to be read. */
  lemma {:induction false} ScanReads(replies: seq<Reply>, lastTS: Ts, start: Ts, act: Ts, i: nat)
    requires IsRead(replies, lastTS, i)
    ensures var res := Scan(replies, lastTS, start, act);
      && replies[i].ts <= res.newLastTS && (replies[i].check ==> res.isResolved)
      && (IsActivity(replies, lastTS, i) ==> replies[i].ts <= res.newLastActivity)
  {
    var m, rest := replies[0], replies[1..];
    var last := if m.ts > start then m.ts else start;
    var act' := if !IsBotAuthor(m) && m.ts > act then m.ts else act;
    if i > 0 { ReadInTail(replies, lastTS, i - 1); }
    if Seen(m.ts, lastTS) {
      ScanReads(rest, lastTS, start, act, i - 1);
    } else if i == 0 {
      ScanNeverMovesBack(rest, lastTS, last, act');
    } else {
      ScanReads(rest, lastTS, last, act', i - 1);
    }
  }

  /** What the scan answers comes from a reply that was to be read. */
  lemma {:induction false} ScanAnswers(replies: seq<Reply>, lastTS: Ts, start: Ts, act: Ts)
    ensures var res := Scan(replies, lastTS, start, act);
      && (res.isResolved ==> exists i: nat :: IsRead(replies, lastTS, i) && replies[i].check)
      && (res.newLastTS == start || exists i: nat :: IsRead(replies, lastTS, i) && replies[i].ts == res.newLastTS)
      && (res.newLastActivity == act
          || exists i: nat :: IsActivity(replies, lastTS, i) && replies[i].ts == res.newLastActivity)
  {
    if replies != [] {
      var m, rest := replies[0], replies[1..];
      var last := if m.ts > start then m.ts else start;
      var act' := if !IsBotAuthor(m) && m.ts > act then m.ts else act;
      if Seen(m.ts, lastTS) {
        ScanAnswers(rest, lastTS, start, act);
        AnswersInTail(replies, lastTS, start, act, Scan(rest, lastTS, start, act));
      } else {
        assert IsRead(replies, lastTS, 0);
        if !m.check {
          assert act' != act ==> IsActivity(replies, lastTS, 0);
          ScanAnswers(rest, lastTS, last, act');
          AnswersInTail(replies, lastTS, last, act', Scan(rest, lastTS, last, act'));
        }
      }
    }
  }

  lemma AnswersInTail(replies: seq<Reply>, lastTS: Ts, start: Ts, act: Ts, res: ScanResult)
    requires replies != [] && (Seen(replies[0].ts, lastTS) || !replies[0].check)
    ensures (exists i: nat :: IsRead(replies[1..], lastTS, i) && replies[1..][i].check) ==>
              exists i: nat :: IsRead(replies, lastTS, i) && replies[i].check
    ensures (exists i: nat :: IsRead(replies[1..], lastTS, i) && replies[1..][i].ts == res.newLastTS) ==>
              exists i: nat :: IsRead(replies, lastTS, i) && replies[i].ts == res.newLastTS
    ensures (exists i: nat :: IsActivity(replies[1..], lastTS, i) && replies[1..][i].ts == res.newLastActivity) ==>
              exists i: nat :: IsActivity(replies, lastTS, i) && replies[i].ts == res.newLastActivity
  {
    var rest := replies[1..];
    forall i: nat | IsRead(rest, lastTS, i)
      ensures IsRead(replies, lastTS, i + 1) && replies[i + 1] == rest[i]
      ensures IsActivity(rest, lastTS, i) ==> IsActivity(replies, lastTS, i + 1)
    {
      ReadInTail(replies, lastTS, i);
    }
    if i: nat :| IsRead(rest, lastTS, i) && rest[i].check { assert IsRead(replies, lastTS, i + 1); }
    if i: nat :| IsRead(rest, lastTS, i) && rest[i].ts == res.newLastTS { assert IsRead(replies, lastTS, i + 1); }
    if i: nat :| IsActivity(rest, lastTS, i) && rest[i].ts == res.newLastActivity {
      assert IsActivity(replies, lastTS, i + 1);
    }
  }

  /** Main result, for replies in any order: the scan means what it says. */
  lemma {:induction false} ScanIsMeant(replies: seq<Reply>, lastTS: Ts, start: Ts, act: Ts)
    ensures ScanMeans(replies, lastTS, start, act, Scan(replies, lastTS, start, act))
  {
    ScanAnswers(replies, lastTS, start, act);
    ScanNeverMovesBack(replies, lastTS, start, act);
    forall i: nat | IsRead(replies, lastTS, i)
      ensures var res := Scan(replies, lastTS, start, act);
        && replies[i].ts <= res.newLastTS && (replies[i].check ==> res.isResolved)
        && (IsActivity(replies, lastTS, i) ==> replies[i].ts <= res.newLastActivity)
    {
      ScanReads(replies, lastTS, start, act, i);
    }
  }

  method ScanThreadReplies(replies: seq<Reply>, lastTS: Ts, lastActivityTS: Ts) returns (res: ScanResult)
    ensures res == Scan(replies, lastTS, lastTS, lastActivityTS)
    ensures ScanMeans(replies, lastTS, lastTS, lastActivityTS, res)
  {
    var newLastTS, newLastActivity, isResolved := lastTS, lastActivityTS, false;
    var i := 0;
    while i < |replies|
      invariant 0 <= i <= |replies| && !isResolved
      invariant Scan(replies, lastTS, lastTS, lastActivityTS) == Scan(replies[i..], lastTS, newLastTS, newLastActivity)
    {
      var m := replies[i];
      assert replies[i..][0] == m && replies[i..][1..] == replies[i + 1..];
      i := i + 1;
      if lastTS != NONE && m.ts <= lastTS {
        continue;
      }
      if m.check {
        isResolved := true;
      }
      if !IsBotAuthor(m) && !isResolved && m.ts > newLastActivity {
        newLastActivity := m.ts;
      }
      if m.ts > newLastTS {
        newLastTS := m.ts;
      }
      if isResolved {
        break;
      }
    }
    res := ScanResult(isResolved, newLastTS, newLastActivity);
    assert res == Scan(replies, lastTS, lastTS, lastActivityTS);
    ScanIsMeant(replies, lastTS, lastTS, lastActivityTS);
  }

  // ---------- collectThreadCandidates ----------

  predicate Handed(m: Reply, lastTS: Ts, res: ScanResult) {
    !Seen(m.ts, lastTS) && !(res.isResolved && m.ts > res.newLastTS) && !IsBotMessage(m)
  }

  /** The replies handed to completion dispatch and classification, in order. */
  function Dispatched(replies: seq<Reply>, lastTS: Ts, res: ScanResult): seq<Reply> {
    if replies == [] then []
    else (if Handed(replies[0], lastTS, res) then [replies[0]] else []) + Dispatched(replies[1..], lastTS, res)
  }

  /** Handed over is exactly what is new to the member, not beyond the check mark that resolved the thread, and not
      written by a bot. */
  lemma {:induction false} DispatchedIff(replies: seq<Reply>, lastTS: Ts, res: ScanResult, m: Reply)
    ensures m in Dispatched(replies, lastTS, res) <==>
      && m in replies && (lastTS == NONE || m.ts > lastTS) && (res.isResolved ==> m.ts <= res.newLastTS)
      && !m.hasBotId && !m.botSubtype
  {
    if replies != [] {
      assert replies == [replies[0]] + replies[1..];
      DispatchedIff(replies[1..], lastTS, res, m);
    }
  }

  method CollectThreadCandidates(replies: seq<Reply>, lastTS: Ts, res: ScanResult) returns (handed: seq<Reply>)
    ensures handed == Dispatched(replies, lastTS, res)
  {
    handed := [];
    for i := 0 to |replies|
      invariant handed + Dispatched(replies[i..], lastTS, res) == Dispatched(replies, lastTS, res)
    {
      var m := replies[i];
      assert replies[i..][0] == m && replies[i..][1..] == replies[i + 1..];
      if lastTS != NONE && m.ts <= lastTS { continue; }
      if res.isResolved && m.ts > res.newLastTS { continue; }
      if m.hasBotId || m.botSubtype { continue; }
      ghost var rest := Dispatched(replies[i + 1..], lastTS, res);
      assert handed + [m] + rest == handed + ([m] + rest);
      handed := handed + [m];
    }
  }

  // ---------- Properties of one scan ----------

  /** Written by somebody who is not a bot. */
  predicate ByPerson(m: Reply) { !m.byOurBot && !m.hasBotId }

  ghost predicate Ascending(rs: seq<Reply>) { forall i, j :: 0 <= i < j < |rs| ==> rs[i].ts < rs[j].ts }

  /** The replies in (lo, hi], as written: the reaction is not part of the message. */
  function Between(rs: seq<Reply>, lo: Ts, hi: Ts): seq<Reply> {
    if rs == [] then []
    else
      (if lo < rs[0].ts <= hi && !IsBotMessage(rs[0]) then [rs[0].(check := false)] else [])
      + Between(rs[1..], lo, hi)
  }

  function Bodies(rs: seq<Reply>): seq<Reply> {
    if rs == [] then [] else [rs[0].(check := false)] + Bodies(rs[1..])
  }

  /** The scan's cursors never fall below its inputs. */
  lemma {:induction false} ScanNeverMovesBack(replies: seq<Reply>, lastTS: Ts, newLastTS: Ts, newActivity: Ts)
    ensures Scan(replies, lastTS, newLastTS, newActivity).newLastTS >= newLastTS
    ensures Scan(replies, lastTS, newLastTS, newActivity).newLastActivity >= newActivity
  {
    if replies != [] {
      var m := replies[0];
      if Seen(m.ts, lastTS) {
        ScanNeverMovesBack(replies[1..], lastTS, newLastTS, newActivity);
      } else if !m.check {
        var last := if m.ts > newLastTS then m.ts else newLastTS;
        var act := if !IsBotAuthor(m) && m.ts > newActivity then m.ts else newActivity;
        ScanNeverMovesBack(replies[1..], lastTS, last, act);
      }
    }
  }

  /** On an ascending page above the cursor the scan reads up to the first check mark. */
  lemma {:induction false} ScanAscending(replies: seq<Reply>, lastTS: Ts, newLastTS: Ts, newActivity: Ts)
    requires lastTS != NONE && lastTS <= newLastTS && Ascending(replies)
    requires forall i :: 0 <= i < |replies| ==> replies[i].ts > newLastTS
    ensures var res := Scan(replies, lastTS, newLastTS, newActivity);
            && (res.isResolved ==> exists i :: 0 <= i < |replies| && replies[i].check && replies[i].ts == res.newLastTS)
            && (!res.isResolved ==>
                  && (forall i :: 0 <= i < |replies| ==> !replies[i].check && replies[i].ts <= res.newLastTS)
                  && (replies == [] ==> res.newLastTS == newLastTS)
                  && (replies != [] ==> res.newLastTS == replies[|replies| - 1].ts))
  {
    if replies != [] && !replies[0].check {
      var m, rest := replies[0], replies[1..];
      assert forall i :: 0 <= i < |rest| ==> rest[i] == replies[i + 1];
      var act := if !IsBotAuthor(m) && m.ts > newActivity then m.ts else newActivity;
      ScanAscending(rest, lastTS, m.ts, act);
      var res := Scan(rest, lastTS, m.ts, act);
      if res.isResolved {
        var i :| 0 <= i < |rest| && rest[i].check && rest[i].ts == res.newLastTS;
        assert replies[i + 1].check;
      } else {
        forall i | 0 <= i < |replies| ensures !replies[i].check && replies[i].ts <= res.newLastTS {
          if i > 0 { assert replies[i] == rest[i - 1]; }
        }
      }
    }
  }

  /** What a scan hands over is what was written between the cursor and where it stopped. */
  lemma {:induction false} DispatchedIsBetween(replies: seq<Reply>, lastTS: Ts, res: ScanResult)
    requires lastTS != NONE
    requires !res.isResolved ==> forall i :: 0 <= i < |replies| ==> replies[i].ts <= res.newLastTS
    ensures Bodies(Dispatched(replies, lastTS, res)) == Between(replies, lastTS, res.newLastTS)
  {
    if replies != [] {
      var m, rest := replies[0], replies[1..];
      assert forall i :: 0 <= i < |rest| ==> rest[i] == replies[i + 1];
      DispatchedIsBetween(rest, lastTS, res);
      BodiesCons(m, Dispatched(rest, lastTS, res), Handed(m, lastTS, res));
    }
  }

  lemma BodiesCons(m: Reply, rest: seq<Reply>, handed: bool)
    ensures Bodies((if handed then [m] else []) + rest) ==
            (if handed then [m.(check := false)] else []) + Bodies(rest)
  {
    if handed { assert ([m] + rest)[1..] == rest; } else { assert [] + rest == rest; }
  }

  // ---------- Sweeps until resolution ----------

  /** A subscriber's view of a thread: its root, everything written so far, its cursors, and what
      was handed to it. The log holds messages as written, without reactions. */
  datatype Thread = Thread(parent: Reply, log: seq<Reply>, lastTS: Ts, lastActivityTS: Ts, handed: seq<Reply>,
                           closed: bool, resolvedTS: Ts)

  /** One sweep: replies posted since the last one, how many newer replies the page returns, and
      which messages carry a check mark at this moment. */
  datatype Sweep = Sweep(posted: seq<Reply>, limit: nat, checked: set<Ts>)

  function Newer(log: seq<Reply>, lo: Ts): seq<Reply> {
    if log == [] then []
    else (if log[0].ts > lo then [log[0]] else []) + Newer(log[1..], lo)
  }

  function Prefix(rs: seq<Reply>, n: nat): seq<Reply> { if n < |rs| then rs[..n] else rs }

  function Marked(rs: seq<Reply>, checked: set<Ts>): seq<Reply> {
    if rs == [] then [] else [rs[0].(check := rs[0].ts in checked)] + Marked(rs[1..], checked)
  }

  /** conversations.replies: the root, then an ascending prefix of what is newer than `oldest`. */
  function Page(parent: Reply, log: seq<Reply>, oldest: Ts, sw: Sweep): seq<Reply> {
    Marked([parent] + Prefix(Newer(log, oldest), sw.limit), sw.checked)
  }

  ghost predicate Valid(t: Thread) {
    && NONE < t.parent.ts <= t.lastTS
    && Ascending(t.log)
    && (forall i :: 0 <= i < |t.log| ==> t.log[i].ts > t.parent.ts && !t.log[i].check)
  }

  ghost predicate Possible(t: Thread, sw: Sweep) {
    && !t.closed
    && Ascending(t.log + sw.posted)
    && (forall i :: 0 <= i < |sw.posted| ==>
          sw.posted[i].ts > t.parent.ts && sw.posted[i].ts > t.lastTS && !sw.posted[i].check)
  }

  /** A hot sweep: fetch, scan, hand over, then store the cursors or close the thread. */
  function HotSweep(t: Thread, sw: Sweep): Thread {
    var log := t.log + sw.posted;
    var page := Page(t.parent, log, t.lastTS, sw);
    var res := Scan(page, t.lastTS, t.lastTS, t.lastActivityTS);
    var handed := t.handed + Bodies(Dispatched(page, t.lastTS, res));
    if res.isResolved then t.(log := log, handed := handed, closed := true, resolvedTS := res.newLastTS)
    else t.(log := log, handed := handed, lastTS := res.newLastTS, lastActivityTS := res.newLastActivity)
  }

  ghost predicate Sweeps(t: Thread, sweeps: seq<Sweep>, u: Thread)
    decreases |sweeps|
  {
    if sweeps == [] then t == u
    else Possible(t, sweeps[0]) && Sweeps(HotSweep(t, sweeps[0]), sweeps[1..], u)
  }

  /** How far the subscriber has been served. */
  function Served(t: Thread): Ts { if t.closed then t.resolvedTS else t.lastTS }

  lemma {:induction false} BetweenConcat(a: seq<Reply>, b: seq<Reply>, lo: Ts, hi: Ts)
    ensures Between(a + b, lo, hi) == Between(a, lo, hi) + Between(b, lo, hi)
  {
    if a == [] {
      assert a + b == b;
    } else {
      assert (a + b)[1..] == a[1..] + b;
      BetweenConcat(a[1..], b, lo, hi);
    }
  }

  lemma {:induction false} BetweenNone(a: seq<Reply>, lo: Ts, hi: Ts)
    requires forall i :: 0 <= i < |a| ==> a[i].ts <= lo || a[i].ts > hi
    ensures Between(a, lo, hi) == []
  {
    if a != [] {
      assert forall i :: 0 <= i < |a[1..]| ==> a[1..][i] == a[i + 1];
      BetweenNone(a[1..], lo, hi);
    }
  }

  lemma AscendingTail(a: seq<Reply>)
    requires Ascending(a) && a != []
    ensures Ascending(a[1..]) && forall i :: 0 <= i < |a[1..]| ==> a[1..][i].ts > a[0].ts
  {
  }

  lemma {:induction false} BetweenSplits(a: seq<Reply>, lo: Ts, mid: Ts, hi: Ts)
    requires Ascending(a) && lo <= mid <= hi
    ensures Between(a, lo, hi) == Between(a, lo, mid) + Between(a, mid, hi)
  {
    if a != [] {
      AscendingTail(a);
      BetweenSplits(a[1..], lo, mid, hi);
      if a[0].ts > mid { BetweenNone(a[1..], lo, mid); }
    }
  }

  lemma {:induction false} AllNewer(log: seq<Reply>, lo: Ts)
    requires forall i :: 0 <= i < |log| ==> log[i].ts > lo
    ensures Newer(log, lo) == log
  {
    if log != [] {
      assert forall i :: 0 <= i < |log[1..]| ==> log[1..][i] == log[i + 1];
      AllNewer(log[1..], lo);
    }
  }

  lemma {:induction false} NewerFrom(log: seq<Reply>, lo: Ts, k: nat)
    requires k <= |log| && (forall i :: 0 <= i < k ==> log[i].ts <= lo)
    requires forall i :: k <= i < |log| ==> log[i].ts > lo
    ensures Newer(log, lo) == log[k..]
  {
    if k == 0 {
      AllNewer(log, lo);
      assert log[0..] == log;
    } else {
      var rest := log[1..];
      assert forall i :: 0 <= i < |rest| ==> rest[i] == log[i + 1];
      NewerFrom(rest, lo, k - 1);
      assert rest[k - 1..] == log[k..];
    }
  }

  lemma {:induction false} SplitPoint(log: seq<Reply>, lo: Ts) returns (k: nat)
    requires Ascending(log)
    ensures k <= |log| && (forall i :: 0 <= i < k ==> log[i].ts <= lo)
    ensures forall i :: k <= i < |log| ==> log[i].ts > lo
  {
    var n := |log|;
    if n == 0 || log[n - 1].ts <= lo {
      k := n;
    } else {
      var front := log[..n - 1];
      assert forall i :: 0 <= i < n - 1 ==> front[i] == log[i];
      k := SplitPoint(front, lo);
    }
  }

  lemma NewerIsSuffix(log: seq<Reply>, lo: Ts) returns (k: nat)
    requires Ascending(log)
    ensures k <= |log| && Newer(log, lo) == log[k..]
    ensures forall i :: 0 <= i < k ==> log[i].ts <= lo
    ensures forall i :: k <= i < |log| ==> log[i].ts > lo
  {
    k := SplitPoint(log, lo);
    NewerFrom(log, lo, k);
  }

  lemma {:induction false} MarkedIs(rs: seq<Reply>, checked: set<Ts>)
    ensures |Marked(rs, checked)| == |rs|
    ensures forall i :: 0 <= i < |rs| ==> Marked(rs, checked)[i] == rs[i].(check := rs[i].ts in checked)
  {
    if rs != [] { MarkedIs(rs[1..], checked); }
  }

  lemma {:induction false} BetweenMarked(rs: seq<Reply>, checked: set<Ts>, lo: Ts, hi: Ts)
    ensures Between(Marked(rs, checked), lo, hi) == Between(rs, lo, hi)
  {
    if rs != [] { BetweenMarked(rs[1..], checked, lo, hi); }
  }

  lemma {:induction false} ScanSkips(m: Reply, replies: seq<Reply>, lastTS: Ts, newLastTS: Ts, act: Ts)
    requires Seen(m.ts, lastTS)
    ensures Scan([m] + replies, lastTS, newLastTS, act) == Scan(replies, lastTS, newLastTS, act)
  {
    assert ([m] + replies)[1..] == replies;
  }

  lemma OnlyMiddleCounts(a: seq<Reply>, b: seq<Reply>, c: seq<Reply>, lo: Ts, hi: Ts)
    requires forall i :: 0 <= i < |a| ==> a[i].ts <= lo
    requires forall i :: 0 <= i < |c| ==> c[i].ts > hi
    ensures Between(a + b + c, lo, hi) == Between(b, lo, hi)
  {
    BetweenConcat(a + b, c, lo, hi);
    BetweenConcat(a, b, lo, hi);
    BetweenNone(a, lo, hi);
    BetweenNone(c, lo, hi);
  }

  lemma PrefixOfSuffix(log: seq<Reply>, k: nat, n: nat)
    requires k <= |log|
    ensures var read := Prefix(log[k..], n); k + |read| <= |log| && read == log[k..k + |read|]
  {
  }

  /** A page is the root and a stretch of the log right above the cursor. */
  lemma PageShape(parent: Reply, log: seq<Reply>, lastTS: Ts, sw: Sweep)
    returns (below: seq<Reply>, read: seq<Reply>, rest: seq<Reply>)
    requires Ascending(log)
    ensures log == below + read + rest && Ascending(read)
    ensures forall i :: 0 <= i < |below| ==> below[i].ts <= lastTS
    ensures forall i :: 0 <= i < |read| ==> read[i].ts > lastTS
    ensures forall i :: 0 <= i < |rest| ==> rest[i].ts > if read == [] then lastTS else read[|read| - 1].ts
    ensures Page(parent, log, lastTS, sw) == [parent.(check := parent.ts in sw.checked)] + Marked(read, sw.checked)
  {
    var k := NewerIsSuffix(log, lastTS);
    var n := k + |Prefix(Newer(log, lastTS), sw.limit)|;
    PrefixOfSuffix(log, k, sw.limit);
    below, read, rest := log[..k], log[k..n], log[n..];
    CutInThree(log, k, n, lastTS);
    PageOf(parent, log, lastTS, sw, read);
  }

  lemma CutInThree(log: seq<Reply>, k: nat, n: nat, lastTS: Ts)
    requires Ascending(log) && k <= n <= |log|
    requires forall i :: k <= i < |log| ==> log[i].ts > lastTS
    ensures log == log[..k] + log[k..n] + log[n..] && Ascending(log[k..n])
    ensures forall i :: 0 <= i < n - k ==> log[k..n][i].ts > lastTS
    ensures forall i :: 0 <= i < |log| - n ==> log[n..][i].ts > if k == n then lastTS else log[k..n][n - k - 1].ts
  {
    assert forall i :: 0 <= i < n - k ==> log[k..n][i] == log[k + i];
    assert forall i :: 0 <= i < |log| - n ==> log[n..][i] == log[n + i];
  }

  /** Reading a stretch above `min` hands a subscriber at `c` what the stretch holds above `c`, up to where the
      scan stopped. */
  lemma StretchServes(head: Reply, read: seq<Reply>, min: Ts, c: Ts, act: Ts, checked: set<Ts>)
    returns (res: ScanResult)
    requires NONE < head.ts <= min <= c && Ascending(read)
    requires forall i :: 0 <= i < |read| ==> read[i].ts > min
    ensures res == Scan([head] + Marked(read, checked), min, min, act)
    ensures min <= res.newLastTS <= if read == [] then min else read[|read| - 1].ts
    ensures !res.isResolved ==> res.newLastTS == if read == [] then min else read[|read| - 1].ts
    ensures Bodies(Dispatched([head] + Marked(read, checked), c, res)) == Between(read, c, res.newLastTS)
  {
    var marked := Marked(read, checked);
    MarkedIs(read, checked);
    res := StretchScan(head, read, min, act, checked);
    DispatchedIsBetween(marked, c, res);
    BetweenMarked(read, checked, c, res.newLastTS);
    HeadIsNotHanded(head, marked, c, res);
  }

  lemma StretchScan(head: Reply, read: seq<Reply>, min: Ts, act: Ts, checked: set<Ts>) returns (res: ScanResult)
    requires NONE < head.ts <= min && Ascending(read) && forall i :: 0 <= i < |read| ==> read[i].ts > min
    ensures res == Scan([head] + Marked(read, checked), min, min, act) == Scan(Marked(read, checked), min, min, act)
    ensures min <= res.newLastTS <= if read == [] then min else read[|read| - 1].ts
    ensures !res.isResolved ==> res.newLastTS == if read == [] then min else read[|read| - 1].ts
    ensures forall i :: 0 <= i < |read| && !res.isResolved ==> read[i].ts <= res.newLastTS
  {
    var marked := Marked(read, checked);
    MarkedIs(read, checked);
    ScanSkips(head, marked, min, min, act);
    res := Scan(marked, min, min, act);
    ScanAscending(marked, min, min, act);
    ScanNeverMovesBack(marked, min, min, act);
  }

  lemma HeadIsNotHanded(head: Reply, marked: seq<Reply>, c: Ts, res: ScanResult)
    requires NONE < head.ts <= c
    ensures Dispatched([head] + marked, c, res) == Dispatched(marked, c, res)
  {
    assert ([head] + marked)[1..] == marked;
    assert [] + Dispatched(marked, c, res) == Dispatched(marked, c, res);
  }

  /** One sweep from the group's smallest cursor serves each subscriber exactly the stretch of the log between
      its own cursor and where the scan stopped. */
  lemma PageServes(parent: Reply, log: seq<Reply>, min: Ts, c: Ts, act: Ts, sw: Sweep) returns (res: ScanResult)
    requires NONE < parent.ts <= min <= c && Ascending(log)
    ensures res == Scan(Page(parent, log, min, sw), min, min, act)
    ensures min <= res.newLastTS
    ensures Bodies(Dispatched(Page(parent, log, min, sw), c, res)) == Between(log, c, res.newLastTS)
  {
    var below, read, rest := PageShape(parent, log, min, sw);
    res := StretchServes(parent.(check := parent.ts in sw.checked), read, min, c, act, sw.checked);
    OnlyMiddleCounts(below, read, rest, c, res.newLastTS);
  }

  // ---------- When a page moves a cursor back ----------

  /** A cursor is the root's own timestamp or that of a reply. */
  ghost predicate KnownCursor(parent: Reply, log: seq<Reply>, c: Ts) {
    c == parent.ts || exists i :: 0 <= i < |log| && log[i].ts == c
  }

  /** How many replies lie in (min, c]. */
  function Ahead(log: seq<Reply>, min: Ts, c: Ts): int { |Newer(log, min)| - |Newer(log, c)| }

  lemma ReadEnds(parent: Reply, log: seq<Reply>, min: Ts, act: Ts, sw: Sweep) returns (k: nat, n: nat)
    requires NONE < parent.ts <= min && Ascending(log)
    ensures k <= n <= |log| && |Newer(log, min)| == |log| - k
    ensures n - k == if sw.limit < |log| - k then sw.limit else |log| - k
    ensures forall i :: 0 <= i < k ==> log[i].ts <= min
    ensures var res := Scan(Page(parent, log, min, sw), min, min, act);
            !res.isResolved ==> res.newLastTS == if n == k then min else log[n - 1].ts
  {
    k := NewerIsSuffix(log, min);
    PrefixOfSuffix(log, k, sw.limit);
    n := k + |Prefix(log[k..], sw.limit)|;
    CutInThree(log, k, n, min);
    ReadStops(parent, log, min, act, sw, log[k..n]);
  }

  lemma ReadStops(parent: Reply, log: seq<Reply>, min: Ts, act: Ts, sw: Sweep, read: seq<Reply>)
    requires NONE < parent.ts <= min && read == Prefix(Newer(log, min), sw.limit) && Ascending(read)
    requires forall i :: 0 <= i < |read| ==> read[i].ts > min
    ensures var res := Scan(Page(parent, log, min, sw), min, min, act);
            !res.isResolved ==> res.newLastTS == if read == [] then min else read[|read| - 1].ts
  {
    PageOf(parent, log, min, sw, read);
    var res := StretchServes(parent.(check := parent.ts in sw.checked), read, min, min, act, sw.checked);
  }

  lemma PageOf(parent: Reply, log: seq<Reply>, min: Ts, sw: Sweep, read: seq<Reply>)
    requires read == Prefix(Newer(log, min), sw.limit)
    ensures Page(parent, log, min, sw) == [parent.(check := parent.ts in sw.checked)] + Marked(read, sw.checked)
  {
    assert ([parent] + read)[1..] == read;
  }

  /** Main result: an unresolved page read from `min` leaves its cursor below a subscriber's cursor `c` if and
      only if more replies lie between the two than the page returns. */
  lemma PageMovesBackIff(parent: Reply, log: seq<Reply>, min: Ts, c: Ts, act: Ts, sw: Sweep)
    requires NONE < parent.ts <= min <= c && Ascending(log) && KnownCursor(parent, log, c)
    ensures var res := Scan(Page(parent, log, min, sw), min, min, act);
            !res.isResolved ==> (res.newLastTS < c <==> Ahead(log, min, c) > sw.limit)
  {
    var k, n := ReadEnds(parent, log, min, act, sw);
    EndsBelow(log, k, n, sw.limit, min, c);
  }

  /** The read replies are those from k up to n: they end below `c` if and only if the limit cut some before it. */
  lemma EndsBelow(log: seq<Reply>, k: nat, n: nat, limit: nat, min: Ts, c: Ts)
    requires Ascending(log) && k <= n <= |log| && |Newer(log, min)| == |log| - k
    requires n - k == if limit < |log| - k then limit else |log| - k
    requires min <= c && (c == min || exists i :: 0 <= i < |log| && log[i].ts == c)
    ensures (if n == k then min else log[n - 1].ts) < c <==> Ahead(log, min, c) > limit
  {
    AboveFrom(log, k, min);
    if c > min {
      var i :| 0 <= i < |log| && log[i].ts == c;
      NewerThanReply(log, i);
      EndsBelowReply(log, k, n, i, min);
    }
  }

  lemma EndsBelowReply(log: seq<Reply>, k: nat, n: nat, i: nat, min: Ts)
    requires Ascending(log) && k <= n <= |log| && i < |log| && log[i].ts > min
    requires forall j :: 0 <= j < k ==> log[j].ts <= min
    ensures k <= i && ((if n == k then min else log[n - 1].ts) < log[i].ts <==> n <= i)
  {
  }

  lemma AboveFrom(log: seq<Reply>, k: nat, min: Ts)
    requires Ascending(log) && k <= |log| && |Newer(log, min)| == |log| - k
    ensures forall i :: 0 <= i < k ==> log[i].ts <= min
    ensures forall i :: k <= i < |log| ==> log[i].ts > min
  {
    var m := NewerIsSuffix(log, min);
    assert m == k;
  }

  lemma NewerThanReply(log: seq<Reply>, i: nat)
    requires Ascending(log) && i < |log|
    ensures |Newer(log, log[i].ts)| == |log| - i - 1
  {
    var m := NewerIsSuffix(log, log[i].ts);
    assert i + 1 < |log| ==> log[i + 1].ts > log[i].ts;
  }

  lemma SweepKeepsValid(t: Thread, sw: Sweep)
    requires Valid(t) && Possible(t, sw)
    ensures Valid(HotSweep(t, sw)) && HotSweep(t, sw).parent == t.parent && HotSweep(t, sw).lastTS >= t.lastTS
  {
    var log := t.log + sw.posted;
    ScanNeverMovesBack(Page(t.parent, log, t.lastTS, sw), t.lastTS, t.lastTS, t.lastActivityTS);
    assert forall i :: 0 <= i < |log| ==> log[i] == if i < |t.log| then t.log[i] else sw.posted[i - |t.log|];
  }

  lemma ExtendServed(log: seq<Reply>, posted: seq<Reply>, start: Ts, mid: Ts, hi: Ts)
    requires Ascending(log + posted) && start <= mid <= hi && forall i :: 0 <= i < |posted| ==> posted[i].ts > mid
    ensures Between(log, start, mid) + Between(log + posted, mid, hi) == Between(log + posted, start, hi)
  {
    BetweenConcat(log, posted, start, mid);
    BetweenNone(posted, start, mid);
    BetweenSplits(log + posted, start, mid, hi);
  }

  lemma SweepServes(t: Thread, sw: Sweep, start: Ts)
    requires Valid(t) && Possible(t, sw) && start <= t.lastTS
    requires t.handed == Between(t.log, start, t.lastTS)
    ensures var u := HotSweep(t, sw);
            && Valid(u) && u.parent == t.parent && t.lastTS <= Served(u) && start <= u.lastTS
            && u.handed == Between(u.log, start, Served(u))
  {
    SweepKeepsValid(t, sw);
    var res := PageServes(t.parent, t.log + sw.posted, t.lastTS, t.lastTS, t.lastActivityTS, sw);
    ExtendServed(t.log, sw.posted, start, t.lastTS, res.newLastTS);
  }

  /** Main result: over any number of hot sweeps with truncated pages, up to and including the one
      that resolves the thread, a subscriber is handed exactly the non-bot replies written in
      (initial cursor, current position], in order and each once. */
  lemma {:induction false} SweepsHandOverExactlyOnce(t: Thread, sweeps: seq<Sweep>, u: Thread, start: Ts)
    requires Valid(t) && !t.closed && start <= t.lastTS && t.handed == Between(t.log, start, t.lastTS)
    requires Sweeps(t, sweeps, u)
    ensures u.handed == Between(u.log, start, Served(u)) && t.lastTS <= Served(u)
    decreases |sweeps|
  {
    if sweeps != [] {
      SweepServes(t, sweeps[0], start);
      var t1 := HotSweep(t, sweeps[0]);
      if t1.closed {
        assert |sweeps| == 1;
      } else {
        SweepsHandOverExactlyOnce(t1, sweeps[1..], u, start);
      }
    }
  }

  // ---------- The history shortcut ----------

  /** A thread parent as the channel history lists it. */
  datatype HistoryRoot = HistoryRoot(ts: Ts, latestReply: Ts, replyCount: int)

  datatype ChannelActivity = NotFetched | Fetched(latestReplies: map<Ts, Ts>, replyCounts: map<Ts, int>)

  ghost predicate LastListed(messages: seq<HistoryRoot>, i: nat, ts: Ts) {
    i < |messages| && messages[i].ts == ts && forall j :: i < j < |messages| ==> messages[j].ts != ts
  }

  /** The maps hold, for every tracked root that is listed, the figures of its last listing. */
  ghost predicate Indexes(messages: seq<HistoryRoot>, tracked: set<Ts>, latest: map<Ts, Ts>, counts: map<Ts, int>) {
    && latest.Keys == counts.Keys
    && (forall ts :: ts in latest <==> ts in tracked && exists i: nat :: LastListed(messages, i, ts))
    && forall ts, i: nat :: ts in latest && LastListed(messages, i, ts) ==>
         latest[ts] == messages[i].latestReply && counts[ts] == messages[i].replyCount
  }

  lemma IndexOneMore(messages: seq<HistoryRoot>, m: HistoryRoot, tracked: set<Ts>,
                     latest: map<Ts, Ts>, counts: map<Ts, int>)
    requires Indexes(messages, tracked, latest, counts)
    ensures if m.ts in tracked
            then Indexes(messages + [m], tracked, latest[m.ts := m.latestReply], counts[m.ts := m.replyCount])
            else Indexes(messages + [m], tracked, latest, counts)
  {
    var all := messages + [m];
    assert LastListed(all, |messages|, m.ts);
    forall ts: Ts, i: nat | ts != m.ts ensures LastListed(all, i, ts) <==> LastListed(messages, i, ts) {
      if i < |messages| { assert all[i] == messages[i]; }
      if LastListed(all, i, ts) {
        assert forall j :: i < j < |messages| ==> all[j] == messages[j];
      }
    }
  }

  /** buildChannelActivity: the figures of every tracked root seen in the channel history. */
  method BuildChannelActivity(messages: seq<HistoryRoot>, tracked: set<Ts>) returns (a: ChannelActivity)
    ensures a.Fetched? && Indexes(messages, tracked, a.latestReplies, a.replyCounts)
  {
    var latest: map<Ts, Ts>, counts: map<Ts, int> := map[], map[];
    for n := 0 to |messages|
      invariant Indexes(messages[..n], tracked, latest, counts)
    {
      assert messages[..n + 1] == messages[..n] + [messages[n]];
      IndexOneMore(messages[..n], messages[n], tracked, latest, counts);
      if messages[n].ts !in tracked { continue; }
      latest := latest[messages[n].ts := messages[n].latestReply];
      counts := counts[messages[n].ts := messages[n].replyCount];
    }
    assert messages[..|messages|] == messages;
    a := Fetched(latest, counts);
  }

  const THREAD_TIMEOUT: Micros := 7 * DAY

  /** isThreadTimedOut: an unparsable (empty) activity stamp never times out. */
  predicate TimedOut(lastActivityTS: Ts, now: Micros) {
    lastActivityTS != NONE && now - (lastActivityTS / SECOND) * SECOND > THREAD_TIMEOUT
  }

  predicate ShouldSkipThreadFetch(threadTS: Ts, lastTS: Ts, lastActivityTS: Ts, a: ChannelActivity, now: Micros) {
    && !TimedOut(lastActivityTS, now)
    && a.Fetched? && threadTS in a.latestReplies
    && var latest := a.latestReplies[threadTS];
       latest == NONE || (lastTS != NONE && latest <= lastTS)
  }

  function Latest(log: seq<Reply>): Ts { if log == [] then NONE else log[|log| - 1].ts }

  /** The history reports, for this root, the newest reply there is. */
  ghost predicate Faithful(a: ChannelActivity, parent: Reply, log: seq<Reply>) {
    a.Fetched? && parent.ts in a.latestReplies ==> a.latestReplies[parent.ts] == Latest(log)
  }

  function WholePage(parent: Reply, log: seq<Reply>, checked: set<Ts>): seq<Reply> {
    Marked([parent] + log, checked)
  }

  /** Reading a whole thread leaves a subscriber's cursors alone and hands it nothing exactly if
      its cursor has reached the newest reply. */
  lemma WholePageIsIdleIff(parent: Reply, log: seq<Reply>, lastTS: Ts, act: Ts, checked: set<Ts>)
    requires NONE < parent.ts <= lastTS && Ascending(log)
    ensures var page := WholePage(parent, log, checked);
            && (Scan(page, lastTS, lastTS, act) == ScanResult(false, lastTS, act) <==> Latest(log) <= lastTS)
            && (Latest(log) <= lastTS ==> Dispatched(page, lastTS, Scan(page, lastTS, lastTS, act)) == [])
  {
    var page := WholePage(parent, log, checked);
    var all := [parent] + log;
    MarkedIs(all, checked);
    if Latest(log) <= lastTS {
      forall i | 0 <= i < |page| ensures page[i].ts <= lastTS {
        if i > 0 { assert page[i].ts == log[i - 1].ts; }
      }
      AllSeenIsIdle(page, lastTS, lastTS, act);
    } else {
      assert page[|page| - 1].ts == Latest(log);
      ScanReaches(page, lastTS, lastTS, act, |page| - 1);
    }
  }

  lemma {:induction false} AllSeenIsIdle(page: seq<Reply>, lastTS: Ts, newLastTS: Ts, act: Ts)
    requires lastTS != NONE && forall i :: 0 <= i < |page| ==> page[i].ts <= lastTS
    ensures Scan(page, lastTS, newLastTS, act) == ScanResult(false, newLastTS, act)
    ensures forall res :: Dispatched(page, lastTS, res) == []
  {
    if page != [] {
      assert forall i :: 0 <= i < |page[1..]| ==> page[1..][i] == page[i + 1];
      AllSeenIsIdle(page[1..], lastTS, newLastTS, act);
    }
  }

  lemma {:induction false} ScanReaches(page: seq<Reply>, lastTS: Ts, newLastTS: Ts, act: Ts, i: nat)
    requires i < |page| && page[i].ts > lastTS
    ensures var res := Scan(page, lastTS, newLastTS, act); res.isResolved || res.newLastTS >= page[i].ts
  {
    var m := page[0];
    var last := if m.ts > newLastTS then m.ts else newLastTS;
    var act' := if !IsBotAuthor(m) && m.ts > act then m.ts else act;
    if Seen(m.ts, lastTS) {
      ScanReaches(page[1..], lastTS, newLastTS, act, i - 1);
    } else if !m.check {
      if i == 0 {
        ScanNeverMovesBack(page[1..], lastTS, last, act');
      } else {
        ScanReaches(page[1..], lastTS, last, act', i - 1);
      }
    }
  }

  /** Main result: when the shortcut skips a fetch, fetching the whole thread would have resolved
      nothing, moved neither cursor, and handed over nothing. */
  lemma ShortcutRefinesFullScan(parent: Reply, log: seq<Reply>, lastTS: Ts, act: Ts, a: ChannelActivity, now: Micros,
                                checked: set<Ts>)
    requires NONE < parent.ts <= lastTS && Ascending(log) && Faithful(a, parent, log)
    requires ShouldSkipThreadFetch(parent.ts, lastTS, act, a, now)
    ensures var page := WholePage(parent, log, checked);
            var res := Scan(page, lastTS, lastTS, act);
            res == ScanResult(false, lastTS, act) && Dispatched(page, lastTS, res) == []
  {
    WholePageIsIdleIff(parent, log, lastTS, act, checked);
  }

  /** And it skips whenever it could: a thread that the history names and that saw activity in the last week is
      skipped if and only if fetching the whole of it would have resolved and moved nothing. */
  lemma SkippedIffIdle(parent: Reply, log: seq<Reply>, lastTS: Ts, act: Ts, a: ChannelActivity, now: Micros,
                       checked: set<Ts>)
    requires NONE < parent.ts <= lastTS && Ascending(log) && Faithful(a, parent, log)
    requires a.Fetched? && parent.ts in a.latestReplies && (act / SECOND) * SECOND >= now - 7 * DAY
    ensures ShouldSkipThreadFetch(parent.ts, lastTS, act, a, now) <==>
      Scan(WholePage(parent, log, checked), lastTS, lastTS, act) == ScanResult(false, lastTS, act)
  {
    WholePageIsIdleIff(parent, log, lastTS, act, checked);
  }

  /** Without a cursor, it skips exactly the threads that the history lists without a reply. */
  lemma SkippedWithoutCursorIff(parent: Reply, log: seq<Reply>, act: Ts, a: ChannelActivity, now: Micros)
    requires Faithful(a, parent, log) && a.Fetched? && parent.ts in a.latestReplies
    requires (act / SECOND) * SECOND >= now - 7 * DAY && forall i :: 0 <= i < |log| ==> log[i].ts != NONE
    ensures ShouldSkipThreadFetch(parent.ts, NONE, act, a, now) <==> log == []
  {
    if log != [] { assert log[|log| - 1].ts != NONE; }
  }
}
