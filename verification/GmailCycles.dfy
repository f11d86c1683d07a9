/** Gmail scan after scan (channels/gmail_scan.go): what holding and moving the cursor means for a mail over many
    cycles, and the runs in which a mail is lost. */
module GmailCycles {
  import opened GmailScan

  /** One cycle: the mailbox as it is now, the places in the query's matches that the listing names, in its order,
      possibly with repeats and omissions, whether it reports success, and the collaborators. */
  datatype Cycle = Cycle(box: seq<Mail>, fetchOK: bool, order: seq<nat>, world: World, now: nat)

  const LOOKBACK: int := 7 * 24 * 3600

  /** Where the next query starts: at the cursor, or a week back while none is stored. */
  function Since(cursor: nat, now: nat): int { if cursor > 0 then cursor else now - LOOKBACK }

  /** The mails an `after:` query matches. */
  function InWindow(box: seq<Mail>, since: int): seq<Mail> {
    if box == [] then []
    else
      var m := box[|box| - 1];
      InWindow(box[..|box| - 1], since) + (if m.ts >= since then [m] else [])
  }

  function Pick(mails: seq<Mail>, order: seq<nat>): seq<Mail> {
    if order == [] then []
    else (if order[0] < |mails| then [mails[order[0]]] else []) + Pick(mails, order[1..])
  }

  function Listing(c: Cycle, since: int): seq<Mail> { Pick(InWindow(c.box, since), c.order) }

  /** A success report is true: the listing leaves no match out. */
  ghost predicate Complete(c: Cycle) { c.fetchOK ==> forall k :: 0 <= k < |c.box| ==> k in c.order }

  lemma {:induction false} PickIs(mails: seq<Mail>, order: seq<nat>, m: Mail)
    ensures m in Pick(mails, order) <==> exists k :: k in order && k < |mails| && mails[k] == m
  {
    if order != [] {
      PickIs(mails, order[1..], m);
      assert order == [order[0]] + order[1..];
    }
  }

  lemma {:induction false} InWindowIs(box: seq<Mail>, since: int)
    ensures forall m :: m in InWindow(box, since) <==> m in box && m.ts >= since
    ensures DistinctIds(box) ==> DistinctIds(InWindow(box, since)) && Ids(InWindow(box, since)) <= Ids(box)
  {
    if box != [] {
      var front, m := box[..|box| - 1], box[|box| - 1];
      assert box == front + [m];
      InWindowIs(front, since);
      if DistinctIds(box) {
        DistinctTail(front, m);
        DistinctAppendIf(InWindow(front, since), m);
        IdsAppend(front, m);
        IdsAppend(InWindow(front, since), m);
      }
    }
  }

  /** The listing names mails of the window only, and all of them if its report of success is true. */
  lemma ListingIs(c: Cycle, since: int)
    ensures forall m :: m in Listing(c, since) ==> m in c.box && m.ts >= since
    ensures c.fetchOK && Complete(c) ==> forall m :: m in c.box && m.ts >= since ==> m in Listing(c, since)
  {
    var all := InWindow(c.box, since);
    InWindowIs(c.box, since);
    forall m | m in Listing(c, since) ensures m in c.box && m.ts >= since { PickIs(all, c.order, m); }
    if c.fetchOK && Complete(c) {
      forall m | m in c.box && m.ts >= since ensures m in Listing(c, since) {
        PickIs(all, c.order, m);
        var k :| 0 <= k < |all| && all[k] == m;
        InWindowIsShort(c.box, since);
        assert k in c.order;
      }
    }
  }

  lemma {:induction false} InWindowIsShort(box: seq<Mail>, since: int)
    ensures |InWindow(box, since)| <= |box|
  {
    if box != [] { InWindowIsShort(box[..|box| - 1], since); }
  }

  /** The mail is dealt with, or a query from `since` still finds it. */
  ghost predicate Covered(m: Mail, processed: set<string>, since: int) { m.id in processed || m.ts >= since }

  /** What one cycle does to a mail: listed and left unprocessed, it keeps the cursor where it was. */
  ghost predicate CycleDealt(c: Cycle, cursor: nat, next: nat, done: set<string>, after: set<string>) {
    var listed := Listing(c, Since(cursor, c.now));
    && done <= after && cursor <= next
    && (next == cursor || (Ids(listed) <= after && c.fetchOK && next >= Since(cursor, c.now)))
  }

  /** One cycle. A listed mail that is not covered by the window of a later moment is one that is still unprocessed
      while no cursor is stored and the lookback has moved past it, and no other. */
  method RunCycle(s: Scanner, c: Cycle)
    requires DistinctIds(c.box)
    modifies s
    ensures var listed := Listing(c, Since(old(s.cursor), c.now));
      var clean, newest := ScanClean(listed, c.fetchOK, old(s.processed), c.world),
                           NewestFetched(listed, old(s.processed));
      && s.cursor == (if clean && newest > 0 then newest else old(s.cursor))
      && (clean ==> Ids(listed) <= s.processed)
      && old(s.processed) <= s.processed <= old(s.processed) + Ids(listed)
      && FilteredIds(listed, old(s.processed)) <= s.processed
    ensures forall m, next: nat :: m in Listing(c, Since(old(s.cursor), c.now)) ==>
              (!Covered(m, s.processed, Since(s.cursor, next)) <==>
               m.id !in s.processed && s.cursor == 0 && m.ts < next - LOOKBACK)
    ensures CycleDealt(c, old(s.cursor), s.cursor, old(s.processed), s.processed)
    ensures forall m :: m in c.box && m.getFails && m.id !in old(s.processed) ==> m.id !in s.processed
  {
    var since := Since(s.cursor, c.now);
    ListingIs(c, since);
    var listed := Listing(c, since);
    NewestIsListed(listed, s.processed, since);
    forall m | m in c.box && m.getFails ensures AlwaysFails(listed, m.id) {
      forall x | x in listed && x.id == m.id ensures x == m { if x != m { DistinctPair(c.box, m, x); } }
    }
    assert forall m :: m in listed ==> m.id in Ids(listed);
    s.ScanGmail(listed, c.fetchOK, c.world, c.now);
  }

  lemma DistinctPair(box: seq<Mail>, m: Mail, x: Mail)
    requires DistinctIds(box) && m in box && x in box && m != x
    ensures m.id != x.id
  {
    var i :| 0 <= i < |box| && box[i] == m;
    var j :| 0 <= j < |box| && box[j] == x;
    if i < j { assert box[i].id != box[j].id; } else { assert box[j].id != box[i].id; }
  }

  /** The same mail, whatever becomes of it this time: whether it loads and what the filters answer. */
  predicate Same(m: Mail, x: Mail) { m.id == x.id && m.ts == x.ts }

  ghost predicate Has(box: seq<Mail>, m: Mail) { exists x :: x in box && Same(m, x) }

  /** No mail leaves the mailbox. */
  ghost predicate Grows(cycles: seq<Cycle>, i: nat)
    requires 0 < i < |cycles|
  {
    forall m :: m in cycles[i - 1].box ==> Has(cycles[i].box, m)
  }

  /** The mail lay in the window of cycle i; `cursors` holds the cursor before each cycle and at the end. */
  ghost predicate InWindowAt(cycles: seq<Cycle>, cursors: seq<nat>, i: nat, m: Mail)
    requires i < |cycles| && i < |cursors|
  {
    Has(cycles[i].box, m) && m.ts >= Since(cursors[i], cycles[i].now)
  }

  ghost predicate WasInWindow(cycles: seq<Cycle>, cursors: seq<nat>, n: nat, m: Mail)
    requires n <= |cycles| && n <= |cursors|
  {
    exists i: nat :: i < n && InWindowAt(cycles, cursors, i, m)
  }

  /** The listing of cycle i left the mail out, and the cycle moved the cursor past it all the same. */
  ghost predicate PassedAt(cycles: seq<Cycle>, cursors: seq<nat>, i: nat, m: Mail)
    requires i < |cycles| && i + 1 < |cursors|
  {
    && InWindowAt(cycles, cursors, i, m)
    && m.id !in Ids(Listing(cycles[i], Since(cursors[i], cycles[i].now))) && m.ts < cursors[i + 1]
  }

  ghost predicate WasPassed(cycles: seq<Cycle>, cursors: seq<nat>, n: nat, m: Mail)
    requires n <= |cycles| && n < |cursors|
  {
    exists i: nat :: i < n && PassedAt(cycles, cursors, i, m)
  }

  /** The cycle that stored the first cursor, or -1. */
  ghost predicate StoredAt(cursors: seq<nat>, stored: int) {
    && cursors != [] && -1 <= stored < |cursors| - 1
    && (stored == -1 ==> cursors[0] > 0 || cursors[|cursors| - 1] == 0)
    && (stored >= 0 ==> cursors[stored] == 0 && cursors[stored + 1] > 0)
  }

  /** Given up: unprocessed and past the lookback, either when the first cursor was stored or, while there is
      none, at the moment `next`. */
  ghost predicate AgedOut(m: Mail, cycles: seq<Cycle>, cursor: nat, stored: int, next: nat)
    requires -1 <= stored < |cycles|
  {
    if cursor == 0 then m.ts < next - LOOKBACK else stored >= 0 && m.ts < cycles[stored].now - LOOKBACK
  }

  /** Main result: over any number of cycles of a growing mailbox, whose mails may load or fail and be filtered or
      kept differently each time, a mail that was once inside the window is missed at any later moment if and only
      if it is unprocessed and had grown a week old before a first cursor was stored, or a listing left it out while
      the cursor moved past it. */
  method RunScans(s: Scanner, cycles: seq<Cycle>) returns (ghost cursors: seq<nat>, ghost stored: int)
    requires forall i :: 0 <= i < |cycles| ==> DistinctIds(cycles[i].box)
    requires forall i :: 0 < i < |cycles| ==> Grows(cycles, i)
    modifies s
    ensures |cursors| == |cycles| + 1 && cursors[0] == old(s.cursor) && cursors[|cycles|] == s.cursor
    ensures StoredAt(cursors, stored)
    ensures forall m, next: nat :: WasInWindow(cycles, cursors, |cycles|, m) ==>
              (!Covered(m, s.processed, Since(s.cursor, next)) <==>
                 && m.id !in s.processed
                 && (AgedOut(m, cycles, s.cursor, stored, next) || WasPassed(cycles, cursors, |cycles|, m)))
    ensures forall m, i: nat :: i < |cycles| && PassedAt(cycles, cursors, i, m) ==> !Complete(cycles[i])
  {
    cursors, stored := [s.cursor], -1;
    for n := 0 to |cycles|
      invariant SoFar(cycles, cursors, n, s.processed, stored)
      invariant cursors[0] == old(s.cursor) && cursors[n] == s.cursor
    {
      cursors, stored := RunNext(s, cycles, n, cursors, stored);
    }
    MissedIff(cycles, cursors, s.processed, stored);
    NonePassed(cycles, cursors);
  }

  lemma NonePassed(cycles: seq<Cycle>, cursors: seq<nat>)
    requires |cursors| == |cycles| + 1 && MovedOnSuccess(cycles, cursors, |cycles|)
    ensures forall m, i: nat :: i < |cycles| && PassedAt(cycles, cursors, i, m) ==> !Complete(cycles[i])
  {
    forall m, i: nat | i < |cycles| && PassedAt(cycles, cursors, i, m) ensures !Complete(cycles[i]) {
      PassedMeansIncomplete(cycles, cursors, i, m);
    }
  }

  /** The next cycle of a run, with the record of the cursors. */
  method RunNext(s: Scanner, cycles: seq<Cycle>, n: nat, ghost cursors: seq<nat>, ghost was: int)
    returns (ghost trace: seq<nat>, ghost stored: int)
    requires n < |cycles| && DistinctIds(cycles[n].box) && (n > 0 ==> Grows(cycles, n))
    requires SoFar(cycles, cursors, n, s.processed, was) && cursors[n] == s.cursor
    modifies s
    ensures trace == cursors + [s.cursor] && SoFar(cycles, trace, n + 1, s.processed, stored)
  {
    ghost var done := s.processed;
    RunCycle(s, cycles[n]);
    trace := cursors + [s.cursor];
    stored := if cursors[n] == 0 && s.cursor > 0 then n else was;
    GoesOn(cycles, cursors, n, done, s.processed, s.cursor, was, stored);
  }

  /** The state of the run before cycle n. */
  ghost predicate SoFar(cycles: seq<Cycle>, cursors: seq<nat>, n: nat, processed: set<string>, stored: int)
    requires n <= |cycles|
  {
    && |cursors| == n + 1 && StoredAt(cursors, stored) && -1 <= stored < n
    && (stored >= 0 ==> cursors[n] >= cycles[stored].now - LOOKBACK)
    && MovedOnSuccess(cycles, cursors, n)
    && Fates(cycles, cursors, n, processed, stored)
  }

  lemma GoesOn(cycles: seq<Cycle>, cursors: seq<nat>, n: nat, done: set<string>, after: set<string>, next: nat,
               was: int, stored: int)
    requires n < |cycles| && SoFar(cycles, cursors, n, done, was)
    requires n > 0 ==> Grows(cycles, n)
    requires CycleDealt(cycles[n], cursors[n], next, done, after)
    requires stored == if cursors[n] == 0 && next > 0 then n else was
    ensures SoFar(cycles, cursors + [next], n + 1, after, stored)
  {
    FatesGoOn(cycles, cursors, n, done, after, next, was, stored);
  }

  /** The cursor moves only when the listing reported success. */
  ghost predicate MovedOnSuccess(cycles: seq<Cycle>, cursors: seq<nat>, n: nat)
    requires n <= |cycles| && n < |cursors|
  {
    forall i :: 0 <= i < n && cursors[i + 1] != cursors[i] ==> cycles[i].fetchOK
  }

  /** Only a cycle whose listing reports success and leaves matches out passes a mail. */
  lemma PassedMeansIncomplete(cycles: seq<Cycle>, cursors: seq<nat>, i: nat, m: Mail)
    requires |cursors| == |cycles| + 1 && MovedOnSuccess(cycles, cursors, |cycles|)
    requires i < |cycles| && PassedAt(cycles, cursors, i, m)
    ensures cycles[i].fetchOK && !Complete(cycles[i])
  {
    var x :| x in cycles[i].box && Same(m, x);
    ListingIs(cycles[i], Since(cursors[i], cycles[i].now));
    assert x !in Listing(cycles[i], Since(cursors[i], cycles[i].now));
    assert cursors[i + 1] != cursors[i];
  }

  /** Where a mail that was once inside the window stands: processed, ahead of the cursor, given up when the
      first cursor was stored, passed over by a listing, or waiting for a first cursor. */
  ghost predicate Fate(m: Mail, processed: set<string>, cursor: nat, cycles: seq<Cycle>, cursors: seq<nat>, n: nat,
                       stored: int)
    requires n <= |cycles| && n < |cursors| && (-1 <= stored < |cycles| || (stored == -1 && cycles == []))
  {
    || m.id in processed
    || cursor == 0
    || m.ts >= cursor
    || (stored >= 0 && m.ts < cycles[stored].now - LOOKBACK)
    || WasPassed(cycles, cursors, n, m)
  }

  /** The cursor only moved forward, and every mail that was in a window is still there and has a fate. */
  ghost predicate Fates(cycles: seq<Cycle>, cursors: seq<nat>, n: nat, processed: set<string>, stored: int)
    requires n <= |cycles| && n < |cursors| && -1 <= stored < n
  {
    && (forall i :: 0 <= i <= n ==> cursors[i] <= cursors[n])
    && forall m :: WasInWindow(cycles, cursors, n, m) ==>
         && (n > 0 ==> Has(cycles[n - 1].box, m))
         && Fate(m, processed, cursors[n], cycles, cursors, n, stored)
  }

  lemma FatesGoOn(cycles: seq<Cycle>, cursors: seq<nat>, n: nat, done: set<string>, after: set<string>, next: nat,
                  was: int, stored: int)
    requires n < |cycles| && |cursors| == n + 1 && -1 <= was < n && Fates(cycles, cursors, n, done, was)
    requires n > 0 ==> Grows(cycles, n)
    requires CycleDealt(cycles[n], cursors[n], next, done, after)
    requires stored == if cursors[n] == 0 && next > 0 then n else was
    ensures Fates(cycles, cursors + [next], n + 1, after, stored)
  {
    var trace := cursors + [next];
    forall m | WasInWindow(cycles, trace, n + 1, m)
      ensures Has(cycles[n].box, m) && Fate(m, after, next, cycles, trace, n + 1, stored)
    {
      MailStays(cycles, cursors, next, n, m);
      FateGoesOn(m, done, after, cycles, cursors, next, n, was, stored);
    }
  }

  lemma MissedIff(cycles: seq<Cycle>, cursors: seq<nat>, processed: set<string>, stored: int)
    requires SoFar(cycles, cursors, |cycles|, processed, stored)
    ensures forall m, next: nat :: WasInWindow(cycles, cursors, |cycles|, m) ==>
              (!Covered(m, processed, Since(cursors[|cycles|], next)) <==>
                 && m.id !in processed
                 && (AgedOut(m, cycles, cursors[|cycles|], stored, next) || WasPassed(cycles, cursors, |cycles|, m)))
  {
    var cursor := cursors[|cycles|];
    forall m | WasPassed(cycles, cursors, |cycles|, m) ensures m.ts < cursor {
      var i: nat :| i < |cycles| && PassedAt(cycles, cursors, i, m);
      assert cursors[i + 1] <= cursors[|cycles|];
    }
    forall m | WasInWindow(cycles, cursors, |cycles|, m)
      ensures Fate(m, processed, cursor, cycles, cursors, |cycles|, stored)
    {
    }
  }

  lemma MailStays(cycles: seq<Cycle>, cursors: seq<nat>, next: nat, n: nat, m: Mail)
    requires n < |cycles| && |cursors| == n + 1 && WasInWindow(cycles, cursors + [next], n + 1, m)
    requires n > 0 && WasInWindow(cycles, cursors, n, m) ==> Has(cycles[n - 1].box, m) && Grows(cycles, n)
    ensures Has(cycles[n].box, m)
    ensures WasInWindow(cycles, cursors, n, m) || InWindowAt(cycles, cursors, n, m)
  {
    var trace := cursors + [next];
    var i: nat :| i < n + 1 && InWindowAt(cycles, trace, i, m);
    assert trace[i] == cursors[i] && InWindowAt(cycles, cursors, i, m);
    if i < n {
      assert WasInWindow(cycles, cursors, n, m);
      assert Grows(cycles, n) && Has(cycles[n - 1].box, m);
      var x :| x in cycles[n - 1].box && Same(m, x);
      assert Has(cycles[n].box, x);
      var y :| y in cycles[n].box && Same(x, y);
      assert Same(m, y);
    }
  }

  lemma FateGoesOn(m: Mail, done: set<string>, after: set<string>, cycles: seq<Cycle>, cursors: seq<nat>, next: nat,
                   n: nat, was: int, stored: int)
    requires n < |cycles| && |cursors| == n + 1 && -1 <= was < n && Has(cycles[n].box, m)
    requires CycleDealt(cycles[n], cursors[n], next, done, after)
    requires WasInWindow(cycles, cursors, n, m) ==> Fate(m, done, cursors[n], cycles, cursors, n, was)
    requires WasInWindow(cycles, cursors, n, m) || InWindowAt(cycles, cursors, n, m)
    requires stored == if cursors[n] == 0 && next > 0 then n else was
    ensures Fate(m, after, next, cycles, cursors + [next], n + 1, stored)
  {
    var trace := cursors + [next];
    if WasPassed(cycles, cursors, n, m) {
      var i: nat :| i < n && PassedAt(cycles, cursors, i, m);
      assert PassedAt(cycles, trace, i, m);
    } else if m.id !in after && next > 0 && m.ts < next && InWindowAt(cycles, cursors, n, m) {
      assert trace[n] == cursors[n] && trace[n + 1] == next;
      assert InWindowAt(cycles, trace, n, m);
      if next != cursors[n] { assert PassedAt(cycles, trace, n, m); }
    }
  }

  /** A mail that never loads, and a week later a newer one that does: the first cursor is stored past the first
      mail, which no later query finds. */
  method FailingMailIsMissed() returns (s: Scanner, ghost m: Mail)
    ensures s.cursor > 0 && m.id !in s.processed
    ensures forall next: nat :: !Covered(m, s.processed, Since(s.cursor, next))
  {
    s := new Scanner();
    var w := World(false, _ => true, true, true);
    var failing := PlainMail("1", 1).(getFails := true);
    var newer := PlainMail("2", 2 * LOOKBACK).(marketing := true);
    m := failing;
    MailFails(s, failing, w, LOOKBACK);
    NewerMailIsListed(s, failing, newer, w, 2 * LOOKBACK);
  }

  /** A cycle whose only mail does not load changes nothing. */
  method MailFails(s: Scanner, m: Mail, w: World, now: nat)
    requires s.cursor == 0 && m.ts >= now - LOOKBACK && m.getFails && m.id !in s.processed
    modifies s
    ensures s.cursor == 0 && s.processed == old(s.processed)
  {
    OneMailListing(m, now - LOOKBACK);
    FailedScan(m, s.processed, w);
    RunFailing(s, Cycle([m], true, [0], w, now), m);
  }

  /** What one cycle does to a mail that does not load, when that is all it lists. */
  method RunFailing(s: Scanner, c: Cycle, ghost m: Mail)
    requires c.box == [m] && m.getFails && m.id !in s.processed
    requires Listing(c, Since(s.cursor, c.now)) == [m] && !ScanClean([m], c.fetchOK, s.processed, c.world)
    modifies s
    ensures s.cursor == old(s.cursor) && s.processed == old(s.processed)
  {
    assert m in c.box && Ids([m]) == {m.id};
    RunCycle(s, c);
  }

  /** Before there is a cursor: a mail past the lookback is left out, and a newer one moves the cursor. */
  method NewerMailIsListed(s: Scanner, a: Mail, b: Mail, w: World, now: nat)
    requires s.cursor == 0 && a.ts < now - LOOKBACK <= b.ts && a.id != b.id && b.id !in s.processed
    requires !b.getFails && b.marketing && b.ts > 0
    modifies s
    ensures s.cursor == b.ts && s.processed <= old(s.processed) + {b.id}
  {
    TwoMailListing(a, b, now - LOOKBACK);
    FilteredScan(b, s.processed, w);
    RunCycle(s, Cycle([a, b], true, [0], w, now));
    assert Ids([b]) == {b.id};
  }

  function PlainMail(id: string, ts: nat): Mail {
    Mail(id, ts, false, false, false, false, false, true, true, false, "", Other, false, false, false)
  }

  lemma OneMailListing(m: Mail, since: int)
    requires m.ts >= since
    ensures InWindow([m], since) == [m] && Pick([m], [0]) == [m]
  {
    assert [m][..0] == [] && [0][1..] == [];
    assert InWindow([m], since) == InWindow([m][..0], since) + [m] == [m];
    assert Pick([m], [0]) == [m] + Pick([m], [0][1..]) == [m];
  }

  lemma TwoMailListing(a: Mail, b: Mail, since: int)
    requires a.ts < since <= b.ts
    ensures Pick(InWindow([a, b], since), [0]) == [b]
  {
    assert [a, b][..1] == [a] && [a][..0] == [] && [0][1..] == [];
    assert InWindow([a], since) == InWindow([a][..0], since) + [] == [];
    assert InWindow([a, b], since) == InWindow([a, b][..1], since) + [b] == [b];
    assert Pick([b], [0]) == [b] + Pick([b], [0][1..]) == [b];
  }

  // ---------- A listing that names a mail twice ----------

  /** A list that names a mail twice and an analysis that fails: the mail is marked all the same, the cursor is held,
      and no later scan analyses it. */
  method RepeatedMailIsLost() returns (s: Scanner, ghost m: Mail)
    ensures m.id in s.processed && s.cursor == 0 && s.lastSuccess == 0
    ensures forall listed :: m.id !in Ids(Fetched(listed, s.processed))
  {
    s := new Scanner();
    var w := World(false, _ => false, true, true);
    m := PlainMail("1", LOOKBACK).(envelope := "e");
    var twice := [PlainMail("1", LOOKBACK).(envelope := "e"), PlainMail("1", LOOKBACK).(envelope := "e")];
    TwiceIsMarked(m, s.processed, w);
    s.ScanGmail(twice, true, w, LOOKBACK);
    forall listed ensures m.id !in Ids(Fetched(listed, s.processed)) { FetchedAreNew(listed, s.processed); }
  }

  lemma TwiceIsMarked(m: Mail, done: set<string>, w: World)
    requires m == PlainMail(m.id, m.ts).(envelope := "e") && m.id !in done && !w.analyzer([m])
    ensures m.id in Again(Fetched([m, m], done)) && !ScanClean([m, m], true, done, w)
  {
    TwiceIsFetched(m, done);
    TwiceIsDeduped(m);
    FailingBatch(m, w);
  }

  lemma TwiceIsFetched(m: Mail, done: set<string>)
    requires m == PlainMail(m.id, m.ts).(envelope := "e") && m.id !in done
    ensures Fetched([m, m], done) == [m, m]
  {
    var one, two := [m], [m, m];
    assert one[..0] == [] && two[..1] == one && FilteredIds(one[..0], done) == {} && FilteredIds(one, done) == {};
    assert Fetched(one, done) == Fetched(one[..0], done) + [m] == one;
  }

  lemma TwiceIsDeduped(m: Mail)
    requires m.envelope == "e"
    ensures Deduped([m, m]) == [m] && m.id in Again([m, m])
  {
    var one, two := [m], [m, m];
    assert one[..0] == [] && two[..1] == one;
    assert Deduped(one) == Deduped(one[..0]) + [m] == one;
    assert m in one && "e" in Envelopes(one);
  }

  lemma FailingBatch(m: Mail, w: World)
    requires m == PlainMail(m.id, m.ts).(envelope := "e") && !w.analyzer([m])
    ensures !BatchesOk([m], w)
  {
    assert [m][..0] == [];
    assert Ungated([m], w.hooked) == Ungated([m][..0], w.hooked) + [m] == [m];
  }

  // ---------- A cycle whose listing is read page by page ----------

  /** The pages of a listing, given as places in the query's matches. */
  function PagesOf(mails: seq<Mail>, places: seq<seq<nat>>): (pages: seq<seq<Mail>>)
    ensures |pages| == |places|
  {
    if places == [] then []
    else PagesOf(mails, places[..|places| - 1]) + [Pick(mails, places[|places| - 1])]
  }

  function AllPlaces(places: seq<seq<nat>>): seq<nat> {
    if places == [] then [] else AllPlaces(places[..|places| - 1]) + places[|places| - 1]
  }

  lemma {:induction false} PickAppend(mails: seq<Mail>, a: seq<nat>, b: seq<nat>)
    ensures Pick(mails, a + b) == Pick(mails, a) + Pick(mails, b)
    decreases |a|
  {
    if a == [] {
      assert a + b == b;
    } else {
      PickAppend(mails, a[1..], b);
      assert (a + b)[1..] == a[1..] + b;
      var first := if a[0] < |mails| then [mails[a[0]]] else [];
      assert first + Pick(mails, a[1..]) + Pick(mails, b) == first + (Pick(mails, a[1..]) + Pick(mails, b));
    }
  }

  lemma {:induction false} JoinedPages(mails: seq<Mail>, places: seq<seq<nat>>)
    ensures Joined(PagesOf(mails, places)) == Pick(mails, AllPlaces(places))
  {
    if places != [] {
      var front, last := places[..|places| - 1], places[|places| - 1];
      JoinedPages(mails, front);
      PickAppend(mails, AllPlaces(front), last);
      JoinedOneMore(PagesOf(mails, front), Pick(mails, last));
    }
  }

  lemma JoinedOneMore(pages: seq<seq<Mail>>, page: seq<Mail>)
    ensures Joined(pages + [page]) == Joined(pages) + page
  {
    assert (pages + [page])[..|pages|] == pages;
  }

  /** The pages name every match. */
  ghost predicate NamesAll(box: seq<Mail>, places: seq<seq<nat>>) {
    forall k :: 0 <= k < |box| ==> k in AllPlaces(places)
  }

  /** The listing stage of a cycle: the pages are read one by one. With fewer than a thousand mails before its last
      page the listing is complete, failed page or not, so no mail of such a cycle is ever passed; without a failed
      page it reports success. */
  method ListCycle(cursor: nat, box: seq<Mail>, places: seq<seq<nat>>, failsAt: nat, world: World, now: nat)
    returns (c: Cycle, listed: seq<Mail>, ghost n: nat)
    requires places != []
    ensures n <= |places| && c == Cycle(box, c.fetchOK, AllPlaces(places[..n]), world, now)
    ensures listed == Listing(c, Since(cursor, now))
    ensures c.fetchOK ==> (n == |places| <==> FewBeforeLast(InWindow(box, Since(cursor, now)), places))
    ensures FewBeforeLast(InWindow(box, Since(cursor, now)), places) && NamesAll(box, places) ==> Complete(c)
    ensures failsAt >= |places| ==> c.fetchOK
  {
    var ok, read;
    listed, ok, read := ReadListing(InWindow(box, Since(cursor, now)), places, failsAt);
    n := read;
    c := Cycle(box, ok, AllPlaces(places[..read]), world, now);
    assert places[..|places|] == places;
  }

  predicate FewBeforeLast(matches: seq<Mail>, places: seq<seq<nat>>)
    requires places != []
  {
    |Pick(matches, AllPlaces(places[..|places| - 1]))| < LIST_CAP
  }

  method ReadListing(matches: seq<Mail>, places: seq<seq<nat>>, failsAt: nat)
    returns (listed: seq<Mail>, ok: bool, n: nat)
    requires places != []
    ensures n <= |places| && listed == Pick(matches, AllPlaces(places[..n]))
    ensures ok ==> (n == |places| <==> FewBeforeLast(matches, places))
    ensures failsAt >= |places| ==> ok
  {
    listed, ok, n := FetchRecentEmails(PagesOf(matches, places), failsAt);
    ReadPages(matches, places, n);
    ReadPages(matches, places, |places| - 1);
  }

  lemma {:induction false} PagesUpTo(mails: seq<Mail>, places: seq<seq<nat>>, n: nat)
    requires n <= |places|
    ensures PagesOf(mails, places)[..n] == PagesOf(mails, places[..n])
  {
    if n == |places| {
      assert places[..n] == places;
    } else {
      var front := places[..|places| - 1];
      PagesUpTo(mails, front, n);
      assert front[..n] == places[..n];
    }
  }

  lemma ReadPages(mails: seq<Mail>, places: seq<seq<nat>>, n: nat)
    requires n <= |places|
    ensures Joined(PagesOf(mails, places)[..n]) == Pick(mails, AllPlaces(places[..n]))
  {
    PagesUpTo(mails, places, n);
    JoinedPages(mails, places[..n]);
  }

  // ---------- A window that holds more than the listing reads ----------

  /** Ten full pages of newer mails and one older mail behind them: the listing reports success without it, the
      cursor moves past it, and no later query finds it. */
  method OverfullWindowLosesAMail() returns (s: Scanner, ghost m: Mail)
    ensures s.cursor > 0 && m.id !in s.processed
    ensures forall next: nat :: !Covered(m, s.processed, Since(s.cursor, next))
  {
    s := new Scanner();
    var w := World(false, _ => true, true, true);
    var older := PlainMail("", LOOKBACK);
    m := older;
    var full := seq(10, k requires 0 <= k < 10 => NewsPage(k));
    var pages := full + [[older]];
    NewsFill(full);
    assert pages[..10] == full;
    var listed, ok, n := FetchRecentEmails(pages, 11);
    assert pages[..n] == full[..n];
    NewsFill(full[..n]);
    NewsAreFiltered(listed, s.processed);
    s.ScanGmail(listed, ok, w, LOOKBACK + 1);
  }

  function News(i: nat): Mail { PlainMail(seq(i + 1, _ => 'x'), LOOKBACK + 1).(marketing := true) }

  function NewsPage(k: nat): seq<Mail> { seq(100, i requires 0 <= i < 100 => News(100 * k + i)) }

  ghost predicate AllNews(mails: seq<Mail>) {
    forall m :: m in mails ==> m.ts == LOOKBACK + 1 && m.marketing && !m.getFails && m.id != ""
  }

  lemma NewsPageIs(k: nat)
    ensures |NewsPage(k)| == 100 && AllNews(NewsPage(k))
  {
    var page := NewsPage(k);
    forall m | m in page ensures m.ts == LOOKBACK + 1 && m.marketing && !m.getFails && m.id != "" {
      var i :| 0 <= i < |page| && page[i] == m;
      assert m == News(100 * k + i);
    }
  }

  lemma {:induction false} NewsFill(pages: seq<seq<Mail>>)
    requires forall k :: 0 <= k < |pages| ==> pages[k] == NewsPage(k)
    ensures |Joined(pages)| == 100 * |pages| && AllNews(Joined(pages))
  {
    if pages != [] {
      NewsFill(pages[..|pages| - 1]);
      NewsPageIs(|pages| - 1);
    }
  }

  lemma {:induction false} NewsAreFiltered(mails: seq<Mail>, done: set<string>)
    requires AllNews(mails) && done == {}
    ensures Fetched(mails, done) == [] && AllFetched(mails, done) && "" !in Ids(mails)
    ensures NewestFetched(mails, done) == if mails == [] then 0 else LOOKBACK + 1
  {
    if mails != [] {
      var front, m := mails[..|mails| - 1], mails[|mails| - 1];
      assert m in mails && forall x :: x in front ==> x in mails;
      NewsAreFiltered(front, done);
    }
  }

  lemma FailedScan(m: Mail, done: set<string>, w: World)
    requires m.getFails && m.id !in done
    ensures !ScanClean([m], true, done, w)
  {
    assert [m][..0] == [];
  }

  /** One filtered mail: the scan is clean and its date is the newest. */
  lemma FilteredScan(m: Mail, done: set<string>, w: World)
    requires !m.getFails && m.marketing && m.id !in done
    ensures ScanClean([m], true, done, w) && NewestFetched([m], done) == m.ts
  {
    assert [m][..0] == [];
    assert Fetched([m], done) == [] && FilteredIds([], done) == {};
  }

  /** What holding the cursor is for: a mail that fails to load in one cycle is read again in the next one and
      processed, and only then does the cursor move. */
  method FailedMailIsRetried() returns (s: Scanner, ghost m: Mail, ghost held: nat)
    ensures held == 0 && m.id in s.processed && s.cursor == m.ts > 0
  {
    s := new Scanner();
    var w := World(false, _ => true, true, true);
    var first := PlainMail("1", LOOKBACK);
    m := first;
    MailFails(s, first.(getFails := true), w, LOOKBACK);
    held := s.cursor;
    OneMailListing(first, 0);
    AnalysedScan(first, s.processed, w);
    RunCycle(s, Cycle([first], true, [0], w, LOOKBACK));
    assert first in [first];
  }

  lemma AnalysedScan(m: Mail, done: set<string>, w: World)
    requires m == PlainMail(m.id, m.ts) && m.id !in done
    requires w.wired && w.userFound && w.analyzer([m])
    ensures ScanClean([m], true, done, w) && NewestFetched([m], done) == m.ts
  {
    assert [m][..0] == [] && FilteredIds([], done) == {};
    assert Fetched([m], done) == Fetched([m][..0], done) + [m] == [m];
    assert Deduped([m]) == Deduped([m][..0]) + [m] == [m];
    OneMailBatch(m, w);
  }

  lemma OneMailBatch(m: Mail, w: World)
    requires m == PlainMail(m.id, m.ts) && w.analyzer([m])
    ensures BatchesOk([m], w)
  {
    assert [m][..0] == [];
    assert Ungated([m], w.hooked) == Ungated([m][..0], w.hooked) + [m] == [m];
    assert BatchOk([m], w);
  }
}
