/** One Slack channel pass: reading a channel's history back to the window, classifying it for every
    user, and committing (channels/slack.go, scanner/scanner_slack.go). */
module SlackScan {
  import opened SlackTime
  import SlackRuns

  /** A message as the API returns it; `root` is NONE outside threads. */
  datatype Raw = Raw(id: Ts, text: string, bot: bool, root: Ts, replyCount: nat)

  predicate Human(m: Raw) { !m.bot && m.text != "" }

  /** Pages of messages as the API hands them out, and whether reading page k fails. */
  datatype Paged = Paged(pages: seq<seq<Raw>>, fails: nat -> bool)

  /** The thread of a root, the root itself among its messages. */
  type Threads = Ts -> Paged

  /** What the API answers for one channel: its history, newest message first, and its threads. */
  datatype Answer = Answer(pages: seq<seq<Raw>>, fails: nat -> bool, replies: Threads)

  ghost predicate Descending(ms: seq<Raw>) { forall i, j :: 0 <= i < j < |ms| ==> ms[i].id > ms[j].id }

  // ---------- History ----------

  /** How many leading messages are not older than the window start. */
  function Leading(ms: seq<Raw>, since: Micros): (n: nat)
    ensures n <= |ms| && (n < |ms| ==> ms[n].id < since) && forall i :: 0 <= i < n ==> ms[i].id >= since
  {
    if ms == [] || ms[0].id < since then 0 else 1 + Leading(ms[1..], since)
  }

  predicate AllRead(a: Paged) { forall k :: 0 <= k < |a.pages| ==> !a.fails(k) }

  /** The replies of a thread that are handed on, attached to its root. */
  function RepliesIn(root: Ts, ms: seq<Raw>): seq<Raw> {
    if ms == [] then []
    else
      var front, m := RepliesIn(root, ms[..|ms| - 1]), ms[|ms| - 1];
      if m.id == root || !Human(m) then front else front + [m.(root := root)]
  }

  /** A failed page loses all replies of the thread. */
  function RepliesTo(m: Raw, replies: Threads): seq<Raw> {
    if AllRead(replies(m.id)) then RepliesIn(m.id, Flatten(replies(m.id).pages)) else []
  }

  function WithReplies(m: Raw, replies: Threads): seq<Raw> {
    if !Human(m) then [] else [m] + if m.replyCount > 0 && m.root == m.id then RepliesTo(m, replies) else []
  }

  function Flatten(pages: seq<seq<Raw>>): seq<Raw> {
    if pages == [] then [] else Flatten(pages[..|pages| - 1]) + pages[|pages| - 1]
  }

  function Pieces(ms: seq<Raw>, replies: Threads): (pieces: seq<seq<Raw>>)
    ensures |pieces| == |ms| && forall i :: 0 <= i < |ms| ==> pieces[i] == WithReplies(ms[i], replies)
  {
    if ms == [] then [] else Pieces(ms[..|ms| - 1], replies) + [WithReplies(ms[|ms| - 1], replies)]
  }

  function Kept(ms: seq<Raw>, replies: Threads): seq<Raw> { Flatten(Pieces(ms, replies)) }

  /** Everything a fetch hands on. */
  function InWindow(ms: seq<Raw>, since: Micros, replies: Threads): seq<Raw> {
    Kept(ms[..Leading(ms, since)], replies)
  }

  lemma {:induction false} FlattenAppend(a: seq<seq<Raw>>, b: seq<seq<Raw>>)
    ensures Flatten(a + b) == Flatten(a) + Flatten(b)
  {
    if b == [] {
      assert a + b == a;
    } else {
      FlattenAppend(a, b[..|b| - 1]);
      assert (a + b)[..|a + b| - 1] == a + b[..|b| - 1];
    }
  }

  lemma {:induction false} PiecesAppend(a: seq<Raw>, b: seq<Raw>, replies: Threads)
    ensures Pieces(a + b, replies) == Pieces(a, replies) + Pieces(b, replies)
  {
    var all, p, q := Pieces(a + b, replies), Pieces(a, replies), Pieces(b, replies);
    forall i | 0 <= i < |a + b| ensures all[i] == (p + q)[i] {
      assert (a + b)[i] == if i < |a| then a[i] else b[i - |a|];
    }
  }

  lemma KeptAppend(a: seq<Raw>, b: seq<Raw>, replies: Threads)
    ensures Kept(a + b, replies) == Kept(a, replies) + Kept(b, replies)
  {
    PiecesAppend(a, b, replies);
    FlattenAppend(Pieces(a, replies), Pieces(b, replies));
  }

  lemma KeptOneMore(ms: seq<Raw>, i: nat, replies: Threads)
    requires i < |ms|
    ensures Kept(ms[..i + 1], replies) == Kept(ms[..i], replies) + WithReplies(ms[i], replies)
  {
    assert ms[..i + 1] == ms[..i] + [ms[i]];
    KeptAppend(ms[..i], [ms[i]], replies);
    var w := WithReplies(ms[i], replies);
    assert Pieces([ms[i]], replies) == [w] && [w][..0] == [];
    assert Flatten([w]) == Flatten([]) + w == w;
  }

  lemma {:induction false} LeadingIs(ms: seq<Raw>, since: Micros, n: nat)
    requires n <= |ms| && (n < |ms| ==> ms[n].id < since) && forall i :: 0 <= i < n ==> ms[i].id >= since
    ensures Leading(ms, since) == n
  {
  }

  /** The first i messages are inside the window and `msgs` is what they contribute. */
  ghost predicate TakenSoFar(ms: seq<Raw>, i: nat, since: Micros, replies: Threads, msgs: seq<Raw>) {
    && i <= |ms| && msgs == Kept(ms[..i], replies)
    && forall j :: 0 <= j < i ==> ms[j].id >= since
  }

  lemma TakeOneMore(ms: seq<Raw>, i: nat, since: Micros, replies: Threads, msgs: seq<Raw>)
    requires TakenSoFar(ms, i, since, replies, msgs) && i < |ms| && ms[i].id >= since
    ensures TakenSoFar(ms, i + 1, since, replies, msgs + WithReplies(ms[i], replies))
  {
    KeptOneMore(ms, i, replies);
  }

  lemma StopAtOld(ms: seq<Raw>, i: nat, since: Micros, replies: Threads, msgs: seq<Raw>)
    requires TakenSoFar(ms, i, since, replies, msgs) && (i < |ms| ==> ms[i].id < since)
    ensures msgs == InWindow(ms, since, replies)
    ensures i < |ms| <==> exists j :: 0 <= j < |ms| && ms[j].id < since
  {
    LeadingIs(ms, since, i);
  }

  lemma NothingTaken(ms: seq<Raw>, since: Micros, replies: Threads)
    ensures TakenSoFar(ms, 0, since, replies, [])
  {
    assert Pieces(ms[..0], replies) == [];
  }

  method ProcessThreadReplies(threadTS: Ts, replies: seq<Raw>) returns (msgs: seq<Raw>)
    ensures msgs == RepliesIn(threadTS, replies)
  {
    msgs := [];
    for i := 0 to |replies|
      invariant msgs == RepliesIn(threadTS, replies[..i])
    {
      assert replies[..i + 1][..i] == replies[..i];
      if replies[i].id == threadTS { continue; }
      if replies[i].bot || replies[i].text == "" { continue; }
      msgs := msgs + [replies[i].(root := threadTS)];
    }
    assert replies[..|replies|] == replies;
  }

  lemma {:induction false} RepliesInAppend(root: Ts, a: seq<Raw>, b: seq<Raw>)
    ensures RepliesIn(root, a + b) == RepliesIn(root, a) + RepliesIn(root, b)
  {
    if b == [] {
      assert a + b == a;
    } else {
      RepliesInAppend(root, a, b[..|b| - 1]);
      assert (a + b)[..|a + b| - 1] == a + b[..|b| - 1];
    }
  }

  method FetchNewThreadReplies(threadTS: Ts, a: Paged) returns (msgs: seq<Raw>, ok: bool)
    ensures ok <==> AllRead(a)
    ensures msgs == if ok then RepliesIn(threadTS, Flatten(a.pages)) else []
  {
    msgs := [];
    assert a.pages[..0] == [];
    for k := 0 to |a.pages|
      invariant msgs == RepliesIn(threadTS, Flatten(a.pages[..k]))
      invariant forall i :: 0 <= i < k ==> !a.fails(i)
    {
      if a.fails(k) { return [], false; }
      assert a.pages[..k + 1][..k] == a.pages[..k];
      RepliesInAppend(threadTS, Flatten(a.pages[..k]), a.pages[k]);
      var own := ProcessThreadReplies(threadTS, a.pages[k]);
      msgs := msgs + own;
    }
    assert a.pages[..|a.pages|] == a.pages;
    ok := true;
  }

  method ProcessHistoryMessages(messages: seq<Raw>, since: Micros, replies: Threads)
    returns (msgs: seq<Raw>, reachedOld: bool)
    ensures msgs == InWindow(messages, since, replies)
    ensures reachedOld <==> exists i :: 0 <= i < |messages| && messages[i].id < since
  {
    msgs, reachedOld := [], false;
    NothingTaken(messages, since, replies);
    var i := 0;
    while i < |messages|
      invariant TakenSoFar(messages, i, since, replies, msgs)
      invariant !reachedOld
    {
      var m := messages[i];
      if m.id < since {
        reachedOld := true;
        StopAtOld(messages, i, since, replies, msgs);
        return;
      }
      TakeOneMore(messages, i, since, replies, msgs);
      i := i + 1;
      if !Human(m) { continue; }
      var own := TakeWithReplies(m, replies);
      msgs := msgs + own;
    }
    StopAtOld(messages, i, since, replies, msgs);
  }

  /** The message, followed by its replies when it is the root of a thread. */
  method TakeWithReplies(m: Raw, replies: Threads) returns (msgs: seq<Raw>)
    requires Human(m)
    ensures msgs == WithReplies(m, replies)
  {
    msgs := [m];
    if m.replyCount > 0 && m.root == m.id {
      var more, ok := FetchNewThreadReplies(m.id, replies(m.id));
      if ok { msgs := msgs + more; }
    }
  }

  lemma NextPage(pages: seq<seq<Raw>>, k: nat, since: Micros, replies: Threads)
    requires k < |pages| && forall i :: 0 <= i < |Flatten(pages[..k])| ==> Flatten(pages[..k])[i].id >= since
    ensures Flatten(pages[..k + 1]) == Flatten(pages[..k]) + pages[k]
    ensures Leading(Flatten(pages[..k + 1]), since) == |Flatten(pages[..k])| + Leading(pages[k], since)
    ensures InWindow(Flatten(pages[..k + 1]), since, replies) ==
              Kept(Flatten(pages[..k]), replies) + InWindow(pages[k], since, replies)
  {
    assert pages[..k + 1][..k] == pages[..k];
    PageAfter(Flatten(pages[..k]), pages[k], since, replies);
  }

  lemma PageAfter(before: seq<Raw>, page: seq<Raw>, since: Micros, replies: Threads)
    requires forall i :: 0 <= i < |before| ==> before[i].id >= since
    ensures Leading(before + page, since) == |before| + Leading(page, since)
    ensures InWindow(before + page, since, replies) == Kept(before, replies) + InWindow(page, since, replies)
  {
    var n := Leading(page, since);
    LeadingIs(before + page, since, |before| + n);
    assert (before + page)[..|before| + n] == before + page[..n];
    KeptAppend(before, page[..n], replies);
  }

  lemma {:induction false} LaterPages(pages: seq<seq<Raw>>, k: nat, since: Micros, replies: Threads)
    requires k <= |pages| && Leading(Flatten(pages[..k]), since) < |Flatten(pages[..k])|
    ensures InWindow(Flatten(pages), since, replies) == InWindow(Flatten(pages[..k]), since, replies)
    decreases |pages| - k
  {
    if k == |pages| {
      assert pages[..k] == pages;
    } else {
      assert pages[..k + 1][..k] == pages[..k];
      var before := Flatten(pages[..k]);
      var n := Leading(before, since);
      LeadingIs(before + pages[k], since, n);
      assert (before + pages[k])[..n] == before[..n];
      LaterPages(pages, k + 1, since, replies);
    }
  }

  /** The first k pages are read, all of them inside the window. */
  ghost predicate ReadSoFar(a: Answer, k: nat, since: Micros, msgs: seq<Raw>) {
    && k <= |a.pages| && msgs == Kept(Flatten(a.pages[..k]), a.replies)
    && forall i :: 0 <= i < |Flatten(a.pages[..k])| ==> Flatten(a.pages[..k])[i].id >= since
  }

  lemma ReadOn(a: Answer, k: nat, since: Micros, msgs: seq<Raw>)
    requires ReadSoFar(a, k, since, msgs) && k < |a.pages|
    requires forall i :: 0 <= i < |a.pages[k]| ==> a.pages[k][i].id >= since
    ensures ReadSoFar(a, k + 1, since, msgs + InWindow(a.pages[k], since, a.replies))
  {
    NextPage(a.pages, k, since, a.replies);
    LeadingIs(a.pages[k], since, |a.pages[k]|);
    var both := Flatten(a.pages[..k + 1]);
    LeadingIs(both, since, |both|);
    assert both[..|both|] == both;
  }

  lemma ReadEnough(a: Answer, k: nat, since: Micros, msgs: seq<Raw>)
    requires ReadSoFar(a, k, since, msgs) && k < |a.pages|
    requires exists i :: 0 <= i < |a.pages[k]| && a.pages[k][i].id < since
    ensures msgs + InWindow(a.pages[k], since, a.replies) == InWindow(Flatten(a.pages), since, a.replies)
  {
    NextPage(a.pages, k, since, a.replies);
    LaterPages(a.pages, k + 1, since, a.replies);
  }

  lemma ReadAll(a: Answer, since: Micros, msgs: seq<Raw>)
    requires ReadSoFar(a, |a.pages|, since, msgs)
    ensures msgs == InWindow(Flatten(a.pages), since, a.replies)
  {
    assert a.pages[..|a.pages|] == a.pages;
    var all := Flatten(a.pages);
    LeadingIs(all, since, |all|);
    assert all[..|all|] == all;
  }

  /** Reads page after page until one reaches past the window; stopping early loses nothing. */
  method GetMessages(a: Answer, since: Micros) returns (msgs: seq<Raw>, ok: bool)
    ensures ok ==> msgs == InWindow(Flatten(a.pages), since, a.replies)
    ensures !ok ==> exists k :: 0 <= k < |a.pages| && a.fails(k)
  {
    msgs, ok := [], true;
    assert Flatten(a.pages[..0]) == [] && Pieces([], a.replies) == [];
    for k := 0 to |a.pages|
      invariant ok && ReadSoFar(a, k, since, msgs)
    {
      if a.fails(k) { return [], false; }
      var page, reachedOld := ProcessHistoryMessages(a.pages[k], since, a.replies);
      if reachedOld {
        ReadEnough(a, k, since, msgs);
        return msgs + page, true;
      }
      ReadOn(a, k, since, msgs);
      msgs := msgs + page;
    }
    ReadAll(a, since, msgs);
  }

  lemma {:induction false} InFlatten(pages: seq<seq<Raw>>, m: Raw)
    ensures m in Flatten(pages) <==> exists i :: 0 <= i < |pages| && m in pages[i]
  {
    if pages != [] {
      var front := pages[..|pages| - 1];
      InFlatten(front, m);
      if m in Flatten(front) {
        var i :| 0 <= i < |front| && m in front[i];
        assert m in pages[i];
      }
      if i :| 0 <= i < |pages| && m in pages[i] {
        if i < |front| { assert m in front[i]; }
      }
    }
  }

  lemma {:induction false} InRepliesIn(root: Ts, ms: seq<Raw>, x: Raw)
    ensures x in RepliesIn(root, ms) <==> x.root == root && exists r :: r in ms && IsReplyAs(r, root, x)
  {
    if ms != [] {
      var front, last := ms[..|ms| - 1], ms[|ms| - 1];
      InRepliesIn(root, front, x);
      assert ms == front + [last];
      assert IsReplyAs(last, root, x) <==> last.id != root && Human(last) && x == last.(root := root);
    }
  }

  /** A person's reply, not the root itself, handed on as `x`. */
  ghost predicate IsReplyAs(r: Raw, root: Ts, x: Raw) {
    r.id != root && !r.bot && r.text != "" && x == r.(root := root)
  }

  /** The thread of `m` is read to its end, and `x` is one of its replies. */
  ghost predicate ReadAsReply(m: Raw, replies: Threads, x: Raw) {
    && m.replyCount > 0 && m.root == m.id
    && (forall k :: 0 <= k < |replies(m.id).pages| ==> !replies(m.id).fails(k))
    && exists r, k :: 0 <= k < |replies(m.id).pages| && r in replies(m.id).pages[k] && IsReplyAs(r, m.id, x)
  }

  lemma InThread(pages: seq<seq<Raw>>, root: Ts, x: Raw)
    ensures x in RepliesIn(root, Flatten(pages)) <==>
      exists r, k :: 0 <= k < |pages| && r in pages[k] && IsReplyAs(r, root, x)
  {
    InRepliesIn(root, Flatten(pages), x);
    forall r ensures r in Flatten(pages) <==> exists k :: 0 <= k < |pages| && r in pages[k] {
      InFlatten(pages, r);
    }
  }

  lemma InWithReplies(m: Raw, replies: Threads, x: Raw)
    ensures x in WithReplies(m, replies) <==>
      !m.bot && m.text != "" && (x == m || ReadAsReply(m, replies, x))
  {
    InThread(replies(m.id).pages, m.id, x);
  }

  lemma InKept(ms: seq<Raw>, replies: Threads, x: Raw)
    ensures x in Kept(ms, replies) <==>
      exists m :: m in ms && !m.bot && m.text != "" && (x == m || ReadAsReply(m, replies, x))
  {
    var pieces := Pieces(ms, replies);
    InFlatten(pieces, x);
    forall i | 0 <= i < |ms|
      ensures x in pieces[i] <==>
        !ms[i].bot && ms[i].text != "" && (x == ms[i] || ReadAsReply(ms[i], replies, x))
    {
      InWithReplies(ms[i], replies, x);
    }
  }

  lemma InLeading(history: seq<Raw>, since: Micros, m: Raw)
    requires Descending(history)
    ensures m in history[..Leading(history, since)] <==> m in history && m.id >= since
  {
    var n := Leading(history, since);
    if m in history && m.id >= since {
      var i :| 0 <= i < |history| && history[i] == m;
      assert i < n;
      assert history[..n][i] == m;
    }
  }

  /** Main result: on a newest-first history the early exit is the window filter. A fetch hands on exactly the
      messages of people that are not older than the window, and the replies of people in the threads that such
      a message starts, unless reading the thread failed. */
  lemma FetchHandsOnIff(history: seq<Raw>, since: Micros, replies: Threads, x: Raw)
    requires Descending(history)
    ensures x in InWindow(history, since, replies) <==>
      exists m :: m in history && m.id >= since && !m.bot && m.text != "" && (x == m || ReadAsReply(m, replies, x))
  {
    InKept(history[..Leading(history, since)], replies, x);
    forall m ensures m in history[..Leading(history, since)] <==> m in history && m.id >= since {
      InLeading(history, since, m);
    }
  }

  ghost predicate Stamped(ms: seq<Raw>) { forall m :: m in ms ==> m.id != NONE }

  /** So a root message is handed on exactly if a human wrote it and it is not older than the window. */
  lemma FetchIsWindowFilter(history: seq<Raw>, since: Micros, replies: Threads, m: Raw)
    requires Descending(history) && Stamped(history) && IsRoot(m)
    ensures m in InWindow(history, since, replies) <==> m in history && Human(m) && m.id >= since
  {
    FetchHandsOnIff(history, since, replies, m);
  }

  predicate IsRoot(m: Raw) { m.root == NONE || m.root == m.id }

  predicate Posted(ms: seq<Raw>, id: Ts) { exists m :: m in ms && Human(m) && IsRoot(m) && m.id == id }

  /** The API lists, newest first, what the log holds past the cursor. */
  ghost predicate Lists(history: seq<Raw>, s: SlackRuns.State, chan: string, min: Ts) {
    && Descending(history) && Stamped(history)
    && forall id: Ts :: Posted(history, id) <==> SlackRuns.Entry(chan, id, false) in s.log && id > min
  }

  /** The paginated fetch with its early exit yields the root messages of the protocol's Fetch step. */
  lemma FetchRefinesPage(s: SlackRuns.State, chan: string, min: Ts, history: seq<Raw>, replies: Threads, id: Ts)
    requires Lists(history, s, chan, min)
    ensures Posted(InWindow(history, SlackScanWindow(min, s.now), replies), id)
       <==> SlackRuns.Entry(chan, id, false) in SlackRuns.Page(s, chan, min)
  {
    var since := SlackScanWindow(min, s.now);
    var read := InWindow(history, since, replies);
    if Posted(read, id) {
      var m :| m in read && Human(m) && IsRoot(m) && m.id == id;
      FetchIsWindowFilter(history, since, replies, m);
      assert Posted(history, id);
    }
    if SlackRuns.Entry(chan, id, false) in SlackRuns.Page(s, chan, min) {
      assert Posted(history, id);
      var m :| m in history && Human(m) && IsRoot(m) && m.id == id;
      FetchIsWindowFilter(history, since, replies, m);
    }
  }
}
