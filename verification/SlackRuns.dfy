/** Slack channel scans as interleaved steps (scanner/scanner_slack.go, scanner/scanner_slack_cursor.go,
    scanner/scanner_slack_adapter.go, channels/slack.go). Any number of passes overlap; every cursor read,
    history page, read of thread replies, classification, acknowledgement and cursor write is a step of its
    own, so one pass may commit between any two steps of another and the stored cursor may move backwards. */
module SlackRuns {
  import opened SlackTime

  /** A message of a channel, bot posts and empty texts aside: a root message, which the channel
      history lists, or a thread reply, which is read along with its root. */
  datatype Entry = Entry(chan: string, id: Ts, reply: bool)

  /** A message as one user's scan sees it. */
  datatype Item = Item(user: string, at: Entry)

  /** The key of a stored cursor. */
  datatype Pair = Pair(user: string, chan: string)

  /** One pass of scanSlackWithBot or scanSlackForTokenUser. A channel is `fetched` when its history has
      been listed and `ready` when the replies have been read too; `known` are the root messages there were
      at the listing. `readAt` is the cursor each message met when it was classified. `dropped` are
      candidates whose group is never acknowledged: the user lookup failed or a panic was swallowed. */
  datatype Pass = Pass(
    users: set<string>, chans: set<string>, lastTS: map<Pair, Ts>,
    fetched: set<string>, ready: set<string>, failed: set<string>, known: set<Entry>, snapshot: set<Entry>,
    readAt: map<Item, Ts>, skipped: set<Item>, seen: set<Item>, candidates: set<Item>, newTS: map<Pair, Ts>,
    acked: set<Item>, dropped: set<Item>, held: set<Pair>,
    expired: bool, closed: bool, committing: bool, committed: set<Pair>, stamped: set<string>)

  /** `persisted` is the database copy of the cursors. `done` and `excused` are history: what was
      classified away or acknowledged ok, and what lay before the window of a fetch. */
  datatype State = State(now: Micros, log: set<Entry>, cursors: map<Pair, Ts>, persisted: map<Pair, Ts>,
                         done: set<Item>, excused: set<Item>, passes: map<nat, Pass>)

  datatype Step =
    | Tick(d: nat)
    | Post(e: Entry)
    | Start(p: nat, users: set<string>, chans: set<string>)
    | ReadCursor(p: nat, k: Pair)
    | FetchPage(p: nat, chan: string, min: Ts)
    | ReadReplies(p: nat, chan: string, replies: set<Entry>)
    | EndFetch(p: nat, chan: string)
    | FetchFails(p: nat, chan: string)
    | Classify(p: nat, i: Item, isCandidate: bool)
    | Ack(p: nat, user: string, group: set<Item>, ok: bool)
    | Drop(p: nat, group: set<Item>)
    | Expire(p: nat)
    | Close(p: nat)
    | Commit(p: nat, k: Pair)
    | MarkSuccess(p: nat, user: string)
    | Persist(k: Pair)
    | Restart

  function Init(now: Micros): State { State(now, {}, map[], map[], {}, {}, map[]) }

  function NewPass(users: set<string>, chans: set<string>): Pass {
    Pass(users, chans, map[], {}, {}, {}, {}, {}, map[], {}, {}, {}, map[], {}, {}, {}, false, false, false, {}, {})
  }

  /** GetLastScan: NONE for a missing entry. */
  function Cursor(m: map<Pair, Ts>, k: Pair): Ts { if k in m then m[k] else NONE }

  function PairOf(i: Item): Pair { Pair(i.user, i.at.chan) }

  // ---------- Steps ----------

  /** What getMinLastTS answers for the reads made so far: it stops at the first missing cursor. */
  ghost predicate IsMin(pass: Pass, chan: string, min: Ts) {
    if min == NONE then
      || pass.users == {}
      || exists u :: u in pass.users && Pair(u, chan) in pass.lastTS && pass.lastTS[Pair(u, chan)] == NONE
    else
      && (exists u :: u in pass.users && Pair(u, chan) in pass.lastTS && pass.lastTS[Pair(u, chan)] == min)
      && (forall u :: u in pass.users ==> Pair(u, chan) in pass.lastTS && min <= pass.lastTS[Pair(u, chan)])
  }

  predicate Visited(pass: Pass, i: Item) { i in pass.seen || i in pass.skipped }

  /** Every message of a channel that was read to the end has been classified for every user. */
  ghost predicate AllVisited(pass: Pass) {
    forall u, e :: u in pass.users && e in pass.snapshot && e.chan in pass.ready ==> Visited(pass, Item(u, e))
  }

  predicate Uncommitted(pass: Pass, k: Pair) { k in pass.newTS && k !in pass.held && k !in pass.committed }

  predicate Reading(pass: Pass, chan: string) { chan in pass.fetched && chan !in pass.ready && chan !in pass.failed }

  ghost predicate PassEnabled(s: State, pass: Pass, step: Step) {
    && (step.ReadCursor? ==>
          && !pass.closed && step.k.user in pass.users && step.k.chan in pass.chans
          && step.k.chan !in pass.fetched && step.k !in pass.lastTS)
    && (step.FetchPage? ==>
          && !pass.closed && step.chan in pass.chans - pass.fetched - pass.failed
          && IsMin(pass, step.chan, step.min))
    && (step.ReadReplies? ==>
          && !pass.closed && Reading(pass, step.chan)
          && step.replies <= s.log && forall e :: e in step.replies ==> e.reply && e.chan == step.chan)
    && (step.EndFetch? ==> !pass.closed && Reading(pass, step.chan))
    && (step.FetchFails? ==> !pass.closed && step.chan in pass.chans - pass.ready - pass.failed)
    && (step.Classify? ==>
          && !pass.closed && step.i.user in pass.users && step.i.at in pass.snapshot
          && step.i.at.chan in pass.ready && !Visited(pass, step.i))
    && (step.Ack? ==>
          && !pass.closed && step.group <= pass.candidates - pass.acked - pass.dropped
          && forall i :: i in step.group ==> i.user == step.user)
    && (step.Drop? ==> !pass.closed && step.group <= pass.candidates - pass.acked)
    && (step.Close? ==>
          && !pass.closed && pass.ready + pass.failed == pass.chans && AllVisited(pass)
          && pass.candidates == pass.acked + pass.dropped)
    && (step.Commit? ==> pass.committing && Uncommitted(pass, step.k))
    && (step.MarkSuccess? ==>
          && pass.closed && pass.failed == {} && !pass.expired && step.user in pass.users
          && (forall k :: k in pass.held ==> k.user != step.user)
          && (forall k :: k in pass.newTS ==> !Uncommitted(pass, k)))
  }

  predicate OfPass(step: Step) {
    || step.ReadCursor? || step.FetchPage? || step.ReadReplies? || step.EndFetch? || step.FetchFails?
    || step.Classify? || step.Ack? || step.Drop? || step.Expire? || step.Close? || step.Commit? || step.MarkSuccess?
  }

  ghost predicate Enabled(s: State, step: Step) {
    if OfPass(step) then step.p in s.passes && PassEnabled(s, s.passes[step.p], step)
    else
      match step
      case Post(e) => e.id > NONE && forall x :: x in s.log && x.chan == e.chan ==> x.id < e.id
      case Start(p, _, _) => p !in s.passes
      case _ => true
  }

  function Roots(s: State, chan: string): set<Entry> { set e | e in s.log && e.chan == chan && !e.reply }

  /** The history page: root messages newer than the smallest cursor and inside the window. */
  function Page(s: State, chan: string, min: Ts): set<Entry> {
    set e | e in Roots(s, chan) && e.id > min && e.id >= SlackScanWindow(min, s.now)
  }

  function BeforeWindow(s: State, users: set<string>, chan: string, min: Ts): set<Item> {
    set u, e | u in users && e in Roots(s, chan) && e.id > min && e.id < SlackScanWindow(min, s.now) :: Item(u, e)
  }

  /** The body of classifyAndCollect for one user; the stored cursor is read again here. */
  function ClassifyIn(s: State, pass: Pass, i: Item, isCandidate: bool): Pass {
    var k := PairOf(i);
    var lts := Cursor(s.cursors, k);
    var noted := pass.(readAt := pass.readAt[i := lts]);
    if lts != NONE && i.at.id <= lts then noted.(skipped := pass.skipped + {i})
    else
      noted.(seen := pass.seen + {i},
             candidates := if isCandidate then pass.candidates + {i} else pass.candidates,
             newTS := if i.at.id > Cursor(pass.newTS, k) then pass.newTS[k := i.at.id] else pass.newTS)
  }

  function PassAfter(s: State, pass: Pass, step: Step): Pass {
    match step
    case ReadCursor(_, k) => pass.(lastTS := pass.lastTS[k := Cursor(s.cursors, k)])
    case FetchPage(_, chan, min) =>
      pass.(fetched := pass.fetched + {chan}, known := pass.known + Roots(s, chan),
            snapshot := pass.snapshot + Page(s, chan, min))
    case ReadReplies(_, _, replies) => pass.(snapshot := pass.snapshot + replies)
    case EndFetch(_, chan) => pass.(ready := pass.ready + {chan})
    case FetchFails(_, chan) => pass.(failed := pass.failed + {chan})
    case Classify(_, i, isCandidate) => ClassifyIn(s, pass, i, isCandidate)
    case Ack(_, user, group, ok) =>
      pass.(acked := pass.acked + group, held := if ok then pass.held else pass.held + set i | i in group :: PairOf(i))
    case Drop(_, group) => pass.(dropped := pass.dropped + group)
    case Expire(_) => pass.(expired := true)
    case Close(_) => pass.(closed := true, committing := !pass.expired)
    case Commit(_, k) => pass.(committed := pass.committed + {k})
    case MarkSuccess(_, user) => pass.(stamped := pass.stamped + {user})
    case _ => pass
  }

  function DoneAfter(s: State, pass: Pass, step: Step): set<Item> {
    match step
    case Classify(_, i, isCandidate) =>
      if isCandidate || i in ClassifyIn(s, pass, i, isCandidate).skipped then s.done else s.done + {i}
    case Ack(_, _, group, ok) => if ok then s.done + group else s.done
    case _ => s.done
  }

  function ExcusedAfter(s: State, pass: Pass, step: Step): set<Item> {
    match step
    case FetchPage(_, chan, min) => s.excused + BeforeWindow(s, pass.users, chan, min)
    case _ => s.excused
  }

  function CursorsAfter(s: State, pass: Pass, step: Step): map<Pair, Ts> {
    match step
    case Commit(_, k) => s.cursors[k := Cursor(pass.newTS, k)]
    case _ => s.cursors
  }

  /** A step of one pass. */
  function ApplyIn(s: State, p: nat, pass: Pass, step: Step): State {
    s.(passes := s.passes[p := PassAfter(s, pass, step)], done := DoneAfter(s, pass, step),
       excused := ExcusedAfter(s, pass, step), cursors := CursorsAfter(s, pass, step))
  }

  function Apply(s: State, step: Step): State {
    if OfPass(step) then
      if step.p in s.passes then ApplyIn(s, step.p, s.passes[step.p], step) else s
    else
      match step
      case Tick(d) => s.(now := s.now + d)
      case Post(e) => s.(log := s.log + {e})
      case Start(p, users, chans) => s.(passes := s.passes[p := NewPass(users, chans)])
      case Persist(k) => s.(persisted := s.persisted[k := Cursor(s.cursors, k)])
      case Restart => s.(cursors := s.persisted, passes := map[])
      case _ => s
  }

  lemma ApplyOfPass(s: State, step: Step)
    requires Enabled(s, step) && OfPass(step)
    ensures var pass, t := s.passes[step.p], Apply(s, step);
      && t.log == s.log && t.done == DoneAfter(s, pass, step) && t.excused == ExcusedAfter(s, pass, step)
      && t.passes == s.passes[step.p := PassAfter(s, pass, step)]
  {
  }

  ghost predicate Runs(s: State, steps: seq<Step>, t: State)
    decreases |steps|
  {
    if steps == [] then s == t else Enabled(s, steps[0]) && Runs(Apply(s, steps[0]), steps[1..], t)
  }

  // ---------- A pass's own books, in any run ----------

  predicate SeenAt(pass: Pass, k: Pair, id: Ts) {
    Item(k.user, Entry(k.chan, id, false)) in pass.seen || Item(k.user, Entry(k.chan, id, true)) in pass.seen
  }

  /** `newTS` holds, per pair, the newest message classified. */
  ghost predicate NewestSeen(pass: Pass) {
    && (forall i :: i in pass.seen ==> PairOf(i) in pass.newTS && i.at.id <= pass.newTS[PairOf(i)])
    && (forall k :: k in pass.newTS ==> SeenAt(pass, k, pass.newTS[k]))
  }

  predicate FromSnapshot(pass: Pass, i: Item) {
    i.user in pass.users && i.at in pass.snapshot && i.at.chan in pass.ready && i in pass.readAt
  }

  /** What was fetched: listed root messages and replies, of channels of this pass only. */
  ghost predicate Fetches(log: set<Entry>, pass: Pass) {
    && pass.ready <= pass.fetched <= pass.chans && pass.known <= log && pass.snapshot <= log
    && (forall e :: e in pass.snapshot ==> e.chan in pass.fetched && (e.reply || e in pass.known))
  }

  /** What was classified: seen above the cursor it met, skipped at or below it. */
  ghost predicate Verdicts(pass: Pass) {
    && (forall i :: i in pass.seen ==> FromSnapshot(pass, i) && pass.readAt[i] < i.at.id)
    && (forall i :: i in pass.skipped ==> FromSnapshot(pass, i) && i.at.id <= pass.readAt[i])
    && pass.dropped <= pass.candidates && pass.acked <= pass.candidates && pass.candidates <= pass.seen
  }

  ghost predicate Finished(pass: Pass) {
    && (pass.committing ==> pass.closed)
    && (pass.closed ==> && AllVisited(pass) && pass.candidates == pass.acked + pass.dropped
                        && pass.ready + pass.failed == pass.chans)
  }

  ghost predicate Stamped(pass: Pass) {
    forall u :: u in pass.stamped ==>
      && pass.closed && pass.failed == {} && u in pass.users
      && (forall k :: k in pass.held ==> k.user != u)
      && (forall k :: k in pass.newTS && k.user == u ==> k in pass.committed)
  }

  ghost predicate Book(log: set<Entry>, pass: Pass) {
    Fetches(log, pass) && Verdicts(pass) && NewestSeen(pass) && Finished(pass) && Stamped(pass)
  }

  /** Slack ids are positive and unique within a channel. */
  ghost predicate GoodLog(log: set<Entry>) {
    && (forall e :: e in log ==> e.id > NONE)
    && (forall e, x :: e in log && x in log && e.chan == x.chan && e.id == x.id ==> e == x)
  }

  ghost predicate BookInv(s: State) {
    GoodLog(s.log) && forall p :: p in s.passes ==> Book(s.log, s.passes[p])
  }

  lemma OpenIsUnstamped(pass: Pass)
    requires Stamped(pass) && !pass.closed
    ensures pass.stamped == {}
  {
  }

  lemma SameSeen(pass: Pass, after: Pass)
    requires NewestSeen(pass) && after.seen == pass.seen && after.newTS == pass.newTS
    ensures NewestSeen(after)
  {
    forall k | k in after.newTS ensures SeenAt(after, k, after.newTS[k]) {
      assert SeenAt(pass, k, pass.newTS[k]);
    }
  }

  lemma PageBook(s: State, pass: Pass, step: Step)
    requires step.FetchPage? && Book(s.log, pass) && PassEnabled(s, pass, step)
    ensures Book(s.log, PassAfter(s, pass, step))
  {
    SameSeen(pass, PassAfter(s, pass, step));
    OpenIsUnstamped(pass);
  }

  lemma RepliesBook(s: State, pass: Pass, step: Step)
    requires step.ReadReplies? && Book(s.log, pass) && PassEnabled(s, pass, step)
    ensures Book(s.log, PassAfter(s, pass, step))
  {
    SameSeen(pass, PassAfter(s, pass, step));
    OpenIsUnstamped(pass);
  }

  lemma ReadyBook(s: State, pass: Pass, step: Step)
    requires (step.EndFetch? || step.FetchFails?) && Book(s.log, pass) && PassEnabled(s, pass, step)
    ensures Book(s.log, PassAfter(s, pass, step))
  {
    SameSeen(pass, PassAfter(s, pass, step));
    OpenIsUnstamped(pass);
  }

  lemma FlagBook(s: State, pass: Pass, step: Step)
    requires step.ReadCursor? || step.Expire? || step.Commit?
    requires Book(s.log, pass)
    ensures Book(s.log, PassAfter(s, pass, step))
  {
    SameSeen(pass, PassAfter(s, pass, step));
  }

  lemma SeenGrows(pass: Pass, after: Pass, i: Item)
    requires NewestSeen(pass) && i.at.id > NONE && after.seen == pass.seen + {i}
    requires after.newTS == if i.at.id > Cursor(pass.newTS, PairOf(i)) then pass.newTS[PairOf(i) := i.at.id]
                            else pass.newTS
    ensures NewestSeen(after)
  {
    var k := PairOf(i);
    assert SeenAt(after, k, i.at.id) by { assert i == Item(k.user, Entry(k.chan, i.at.id, i.at.reply)); }
    forall l | l in after.newTS ensures SeenAt(after, l, after.newTS[l]) {
      if after.newTS[l] != i.at.id || l != k { assert SeenAt(pass, l, pass.newTS[l]); }
    }
  }

  lemma SeenVerdicts(pass: Pass, after: Pass, i: Item, lts: Ts)
    requires Verdicts(pass) && i.user in pass.users && i.at in pass.snapshot && i.at.chan in pass.ready
    requires !Visited(pass, i)
    requires after.users == pass.users && after.snapshot == pass.snapshot && after.ready == pass.ready
    requires after.acked == pass.acked && after.dropped == pass.dropped
    requires after.readAt == pass.readAt[i := lts] && (i in after.seen <==> lts < i.at.id)
    requires (after.seen == pass.seen + {i} && after.skipped == pass.skipped) ||
             (after.seen == pass.seen && after.skipped == pass.skipped + {i})
    requires after.candidates == pass.candidates || (after.candidates == pass.candidates + {i} && i in after.seen)
    ensures Verdicts(after)
  {
  }

  lemma ClassifyVerdicts(s: State, pass: Pass, step: Step)
    requires step.Classify? && step.i.at.id > NONE && Book(s.log, pass) && PassEnabled(s, pass, step)
    ensures Verdicts(PassAfter(s, pass, step))
  {
    SeenVerdicts(pass, PassAfter(s, pass, step), step.i, Cursor(s.cursors, PairOf(step.i)));
  }

  lemma ClassifyNewest(s: State, pass: Pass, step: Step)
    requires step.Classify? && step.i.at.id > NONE && NewestSeen(pass) && step.i !in pass.seen
    ensures NewestSeen(PassAfter(s, pass, step))
  {
    var after := PassAfter(s, pass, step);
    ClassifiedIs(s, pass, step.i, step.isCandidate);
    if after.seen == pass.seen { SameSeen(pass, after); } else { SeenGrows(pass, after, step.i); }
  }

  /** A message is skipped, or it is seen and the position noted. */
  lemma ClassifiedIs(s: State, pass: Pass, i: Item, isCandidate: bool)
    ensures var after := ClassifyIn(s, pass, i, isCandidate);
      || (after.seen == pass.seen && after.newTS == pass.newTS && after.skipped == pass.skipped + {i}
          && after.candidates == pass.candidates && after.acked == pass.acked && after.held == pass.held)
      || (after.seen == pass.seen + {i} && after.skipped == pass.skipped
          && after.newTS == (if i.at.id > Cursor(pass.newTS, PairOf(i)) then pass.newTS[PairOf(i) := i.at.id]
                             else pass.newTS)
          && after.candidates == (if isCandidate then pass.candidates + {i} else pass.candidates)
          && after.acked == pass.acked && after.held == pass.held)
  {
  }

  lemma ClassifyBook(s: State, pass: Pass, step: Step)
    requires step.Classify? && Book(s.log, pass) && PassEnabled(s, pass, step) && GoodLog(s.log)
    ensures Book(s.log, PassAfter(s, pass, step))
  {
    assert step.i.at in s.log;
    OpenIsUnstamped(pass);
    ClassifyVerdicts(s, pass, step);
    ClassifyNewest(s, pass, step);
  }

  lemma AckBook(s: State, pass: Pass, step: Step)
    requires (step.Ack? || step.Drop?) && Book(s.log, pass) && PassEnabled(s, pass, step)
    ensures Book(s.log, PassAfter(s, pass, step))
  {
    SameSeen(pass, PassAfter(s, pass, step));
    OpenIsUnstamped(pass);
  }

  lemma CloseBook(s: State, pass: Pass, step: Step)
    requires step.Close? && Book(s.log, pass) && PassEnabled(s, pass, step)
    ensures Book(s.log, PassAfter(s, pass, step))
  {
    SameSeen(pass, PassAfter(s, pass, step));
    OpenIsUnstamped(pass);
  }

  lemma StampBook(s: State, pass: Pass, step: Step)
    requires step.MarkSuccess? && Book(s.log, pass) && PassEnabled(s, pass, step)
    ensures Book(s.log, PassAfter(s, pass, step))
  {
    SameSeen(pass, PassAfter(s, pass, step));
    forall k | k in pass.newTS && k.user == step.user ensures k in pass.committed {
      assert k !in pass.held;
      assert !Uncommitted(pass, k);
    }
  }

  lemma PassBook(s: State, pass: Pass, step: Step)
    requires OfPass(step) && Book(s.log, pass) && PassEnabled(s, pass, step) && GoodLog(s.log)
    ensures Book(s.log, PassAfter(s, pass, step))
  {
    if step.FetchPage? {
      PageBook(s, pass, step);
    } else if step.ReadReplies? {
      RepliesBook(s, pass, step);
    } else if step.Classify? {
      ClassifyBook(s, pass, step);
    } else if step.Ack? || step.Drop? {
      AckBook(s, pass, step);
    } else if step.Close? {
      CloseBook(s, pass, step);
    } else if step.MarkSuccess? {
      StampBook(s, pass, step);
    } else if step.EndFetch? || step.FetchFails? {
      ReadyBook(s, pass, step);
    } else {
      FlagBook(s, pass, step);
    }
  }

  lemma BookGrows(log: set<Entry>, bigger: set<Entry>, pass: Pass)
    requires Book(log, pass) && log <= bigger
    ensures Book(bigger, pass)
  {
  }

  lemma NewBook(log: set<Entry>, users: set<string>, chans: set<string>)
    ensures Book(log, NewPass(users, chans))
  {
  }

  lemma OwnBook(s: State, step: Step)
    requires BookInv(s) && Enabled(s, step) && OfPass(step)
    ensures Apply(s, step).log == s.log && Book(s.log, Apply(s, step).passes[step.p])
  {
    ApplyOfPass(s, step);
    PassBook(s, s.passes[step.p], step);
  }

  lemma OtherBook(s: State, step: Step, p: nat)
    requires BookInv(s) && Enabled(s, step) && p in Apply(s, step).passes && (OfPass(step) ==> step.p != p)
    ensures Book(Apply(s, step).log, Apply(s, step).passes[p])
  {
    if p in s.passes {
      OtherPassUntouched(s, step, p);
      BookGrows(s.log, Apply(s, step).log, s.passes[p]);
    } else {
      NewPassIsFresh(s, step, p);
      NewBook(Apply(s, step).log, step.users, step.chans);
    }
  }

  lemma StepKeepsBooks(s: State, step: Step)
    requires BookInv(s) && Enabled(s, step)
    ensures BookInv(Apply(s, step))
  {
    var t := Apply(s, step);
    assert GoodLog(t.log);
    forall p | p in t.passes ensures Book(t.log, t.passes[p]) {
      if OfPass(step) && step.p == p { OwnBook(s, step); } else { OtherBook(s, step, p); }
    }
  }

  lemma {:induction false} RunKeepsBooks(s: State, steps: seq<Step>, t: State)
    requires BookInv(s) && Runs(s, steps, t)
    ensures BookInv(t)
    decreases |steps|
  {
    if steps != [] {
      StepKeepsBooks(s, steps[0]);
      RunKeepsBooks(Apply(s, steps[0]), steps[1..], t);
    }
  }

  // ---------- What never breaks ----------

  predicate Settled(s: State, i: Item) { i in s.done || i in s.excused }

  predicate InLog(s: State, chan: string, id: Ts) {
    Entry(chan, id, false) in s.log || Entry(chan, id, true) in s.log
  }

  /** A cursor value that is safe to store or to rely on: no root message at or below it is unsettled. */
  ghost predicate Covers(s: State, k: Pair, x: Ts) {
    && (x == NONE || InLog(s, k.chan, x))
    && (forall e :: e in s.log && e.chan == k.chan && !e.reply && e.id <= x ==> Settled(s, Item(k.user, e)))
  }

  ghost predicate AllCover(s: State, m: map<Pair, Ts>) { forall k :: k in m ==> Covers(s, k, m[k]) }

  /** What there was to list was listed or is settled; what was classified is settled or waits for an
      acknowledgement; what was acknowledged is settled or held. */
  ghost predicate Safe(s: State, pass: Pass) {
    && AllCover(s, pass.lastTS)
    && (forall u, e :: u in pass.users && e in pass.known ==> e in pass.snapshot || Settled(s, Item(u, e)))
    && (forall i :: i in pass.seen ==> i in pass.candidates || i in s.done)
    && (forall i :: i in pass.skipped ==> i.at.reply || Settled(s, i))
    && (forall i :: i in pass.acked ==> i in s.done || PairOf(i) in pass.held)
  }

  ghost predicate Inv(s: State) {
    && BookInv(s) && AllCover(s, s.cursors) && AllCover(s, s.persisted)
    && (forall p :: p in s.passes ==> Safe(s, s.passes[p]))
  }

  /** `t` knows at least what `s` knew; new messages are newer than every old one of their channel. */
  ghost predicate Extends(s: State, t: State) {
    && s.log <= t.log && s.done <= t.done && s.excused <= t.excused
    && (forall e, x :: e in t.log - s.log && x in s.log && x.chan == e.chan ==> x.id < e.id)
    && (forall e :: e in t.log ==> e.id > NONE)
  }

  lemma CoversExtends(s: State, t: State, k: Pair, x: Ts)
    requires Extends(s, t) && Covers(s, k, x)
    ensures Covers(t, k, x)
  {
    forall e | e in t.log - s.log && e.chan == k.chan ensures e.id > x {
      if x != NONE { assert InLog(s, k.chan, x); }
    }
  }

  lemma AllCoverExtends(s: State, t: State, m: map<Pair, Ts>)
    requires Extends(s, t) && AllCover(s, m)
    ensures AllCover(t, m)
  {
    forall k | k in m ensures Covers(t, k, m[k]) { CoversExtends(s, t, k, m[k]); }
  }

  lemma SafeExtends(s: State, t: State, pass: Pass)
    requires Extends(s, t) && Safe(s, pass)
    ensures Safe(t, pass)
  {
    AllCoverExtends(s, t, pass.lastTS);
  }

  // ---------- One pass, one step ----------

  /** A root message posted after the pass listed its channel. */
  predicate Late(s: State, pass: Pass, e: Entry) {
    e in s.log && !e.reply && e.chan in pass.fetched && e !in pass.known
  }

  /** A commit is clean when it passes no candidate that was left without an acknowledgement and no root
      message posted after the listing, or when some other pass has settled those. */
  ghost predicate CleanCommit(s: State, pass: Pass, k: Pair) {
    && (forall i :: i in pass.dropped && PairOf(i) == k && !i.at.reply ==> Settled(s, i))
    && (forall e :: Late(s, pass, e) && e.chan == k.chan && e.id <= Cursor(pass.newTS, k) ==>
          Settled(s, Item(k.user, e)))
  }

  ghost predicate CleanStep(s: State, step: Step) {
    step.Commit? && step.p in s.passes ==> CleanCommit(s, s.passes[step.p], step.k)
  }

  lemma FetchCompletes(s: State, t: State, pass: Pass, chan: string, min: Ts, u: string, e: Entry)
    requires AllCover(s, pass.lastTS) && IsMin(pass, chan, min) && u in pass.users
    requires e in Roots(s, chan) && e.id > NONE
    requires s.done <= t.done && t.excused == s.excused + BeforeWindow(s, pass.users, chan, min)
    ensures e in Page(s, chan, min) || Settled(t, Item(u, e))
  {
    if e.id <= min {
      assert Pair(u, chan) in pass.lastTS && min <= pass.lastTS[Pair(u, chan)];
      assert Covers(s, Pair(u, chan), pass.lastTS[Pair(u, chan)]);
      assert Settled(s, Item(u, e));
    } else if e.id < SlackScanWindow(min, s.now) {
      assert Item(u, e) in BeforeWindow(s, pass.users, chan, min);
    }
  }

  lemma PageSafe(s: State, t: State, pass: Pass, step: Step)
    requires step.FetchPage? && Inv(s) && Safe(s, pass) && Book(s.log, pass) && PassEnabled(s, pass, step)
    requires t.log == s.log && t.done == s.done && t.excused == ExcusedAfter(s, pass, step)
    ensures Safe(t, PassAfter(s, pass, step))
  {
    assert Extends(s, t);
    SafeExtends(s, t, pass);
    var after := PassAfter(s, pass, step);
    forall u, e | u in after.users && e in after.known ensures e in after.snapshot || Settled(t, Item(u, e)) {
      if e !in pass.known { FetchCompletes(s, t, pass, step.chan, step.min, u, e); }
    }
  }

  lemma ClassifySafe(s: State, t: State, pass: Pass, step: Step)
    requires step.Classify? && GoodLog(s.log) && AllCover(s, s.cursors)
    requires Book(s.log, pass) && Safe(s, pass) && PassEnabled(s, pass, step)
    requires t.log == s.log && t.done == DoneAfter(s, pass, step) && t.excused == s.excused
    ensures Safe(t, PassAfter(s, pass, step))
  {
    assert Extends(s, t);
    SafeExtends(s, t, pass);
    var i, k := step.i, PairOf(step.i);
    if i.at.id <= Cursor(s.cursors, k) {
      assert Covers(s, k, s.cursors[k]) && i.at in s.log && i == Item(k.user, i.at);
      assert i.at.reply || Settled(s, i);
    }
  }

  lemma AckSafe(s: State, t: State, pass: Pass, step: Step)
    requires step.Ack? && Inv(s) && Safe(s, pass) && PassEnabled(s, pass, step)
    requires t.log == s.log && t.done == DoneAfter(s, pass, step) && t.excused == s.excused
    ensures Safe(t, PassAfter(s, pass, step))
  {
    assert Extends(s, t);
    SafeExtends(s, t, pass);
  }

  lemma OtherSafe(s: State, pass: Pass, step: Step)
    requires OfPass(step) && !step.FetchPage? && !step.Classify? && !step.Ack?
    requires AllCover(s, s.cursors) && GoodLog(s.log) && Safe(s, pass)
    ensures Safe(s, PassAfter(s, pass, step))
  {
  }

  lemma OwnPassSafe(s: State, t: State, pass: Pass, step: Step)
    requires OfPass(step) && Inv(s) && Safe(s, pass) && Book(s.log, pass) && PassEnabled(s, pass, step)
    requires t.log == s.log && t.done == DoneAfter(s, pass, step) && t.excused == ExcusedAfter(s, pass, step)
    ensures Safe(t, PassAfter(s, pass, step))
  {
    if step.FetchPage? {
      PageSafe(s, t, pass, step);
    } else if step.Classify? {
      ClassifySafe(s, t, pass, step);
    } else if step.Ack? {
      AckSafe(s, t, pass, step);
    } else {
      OtherSafe(s, pass, step);
      assert Extends(s, t);
      SafeExtends(s, t, PassAfter(s, pass, step));
    }
  }

  /** The heart of the matter: when a closed pass commits the newest message it classified, every older
      root message of the channel is settled, given that the commit is clean. */
  lemma CommitCovers(s: State, pass: Pass, k: Pair)
    requires Book(s.log, pass) && Safe(s, pass) && pass.committing && Uncommitted(pass, k)
    requires CleanCommit(s, pass, k)
    ensures Covers(s, k, pass.newTS[k])
  {
    assert SeenAt(pass, k, pass.newTS[k]);
    var x :| x in pass.snapshot && x.chan == k.chan && x.id == pass.newTS[k] && k.chan in pass.ready;
    forall e | e in s.log && e.chan == k.chan && !e.reply && e.id <= x.id ensures Settled(s, Item(k.user, e)) {
      var i := Item(k.user, e);
      if e in pass.snapshot {
        assert Visited(pass, i) && PairOf(i) == k;
      } else if e !in pass.known {
        assert Late(s, pass, e);
      }
    }
  }

  lemma UncleanCommitUncovers(s: State, pass: Pass, k: Pair)
    requires Book(s.log, pass) && !CleanCommit(s, pass, k) && k in pass.newTS
    ensures !Covers(s, k, pass.newTS[k])
  {
    if i :| i in pass.dropped && PairOf(i) == k && !i.at.reply && !Settled(s, i) {
      assert i in pass.seen && FromSnapshot(pass, i);
      assert i == Item(k.user, i.at);
    }
  }

  /** Exactly when: a commit loses nothing if and only if everything it passes without having looked at it,
      a dropped candidate or a root message posted after the listing, has been settled some other way. */
  lemma CommitSafeIff(s: State, p: nat, k: Pair)
    requires AllCover(s, s.cursors) && p in s.passes && Book(s.log, s.passes[p]) && Safe(s, s.passes[p])
    requires s.passes[p].committing && Uncommitted(s.passes[p], k)
    ensures AllCover(Apply(s, Commit(p, k)), Apply(s, Commit(p, k)).cursors) <==> CleanCommit(s, s.passes[p], k)
  {
    var pass, t := s.passes[p], Apply(s, Commit(p, k));
    assert t.cursors == s.cursors[k := pass.newTS[k]];
    SameHistory(s, t, t.cursors);
    CoverOneMore(s, s.cursors, k, pass.newTS[k]);
    if CleanCommit(s, pass, k) {
      CommitCovers(s, pass, k);
    } else {
      UncleanCommitUncovers(s, pass, k);
    }
  }

  lemma SameHistory(s: State, t: State, m: map<Pair, Ts>)
    requires t.log == s.log && t.done == s.done && t.excused == s.excused
    ensures AllCover(t, m) <==> AllCover(s, m)
  {
    assert forall k :: k in m ==> (Covers(t, k, m[k]) <==> Covers(s, k, m[k]));
  }

  lemma CoverOneMore(s: State, m: map<Pair, Ts>, k: Pair, x: Ts)
    requires AllCover(s, m)
    ensures AllCover(s, m[k := x]) <==> Covers(s, k, x)
  {
    assert k in m[k := x];
  }

  // ---------- Every step, every run ----------

  lemma HistoryGrows(s: State, pass: Pass, step: Step)
    ensures s.done <= DoneAfter(s, pass, step) && s.excused <= ExcusedAfter(s, pass, step)
  {
  }

  lemma StepExtends(s: State, step: Step)
    requires GoodLog(s.log) && Enabled(s, step)
    ensures Extends(s, Apply(s, step))
  {
    if OfPass(step) {
      ApplyOfPass(s, step);
      HistoryGrows(s, s.passes[step.p], step);
    } else {
      var t := Apply(s, step);
      assert t.done == s.done && t.excused == s.excused;
      assert t.log == if step.Post? then s.log + {step.e} else s.log;
    }
  }

  lemma OwnPassStaysSafe(s: State, step: Step)
    requires Inv(s) && Enabled(s, step) && OfPass(step)
    ensures Safe(Apply(s, step), Apply(s, step).passes[step.p])
  {
    ApplyOfPass(s, step);
    OwnPassSafe(s, Apply(s, step), s.passes[step.p], step);
  }

  lemma OtherPassStaysSafe(s: State, step: Step, p: nat)
    requires Inv(s) && Enabled(s, step) && p in Apply(s, step).passes && (OfPass(step) ==> step.p != p)
    ensures Safe(Apply(s, step), Apply(s, step).passes[p])
  {
    StepExtends(s, step);
    if p in s.passes {
      OtherPassUntouched(s, step, p);
      SafeExtends(s, Apply(s, step), s.passes[p]);
    } else {
      NewPassIsFresh(s, step, p);
    }
  }

  lemma NewPassIsFresh(s: State, step: Step, p: nat)
    requires p !in s.passes && p in Apply(s, step).passes
    ensures step.Start? && Apply(s, step).passes[p] == NewPass(step.users, step.chans)
  {
  }

  lemma OtherPassUntouched(s: State, step: Step, p: nat)
    requires Enabled(s, step) && p in s.passes && p in Apply(s, step).passes && (OfPass(step) ==> step.p != p)
    ensures Apply(s, step).passes[p] == s.passes[p]
  {
  }

  lemma CursorsKeep(s: State, step: Step)
    requires Inv(s) && Enabled(s, step) && CleanStep(s, step)
    ensures AllCover(Apply(s, step), Apply(s, step).cursors)
  {
    StepExtends(s, step);
    if step.Commit? {
      CommitSafeIff(s, step.p, step.k);
    } else {
      AllCoverExtends(s, Apply(s, step), Apply(s, step).cursors);
    }
  }

  lemma StepKeeps(s: State, step: Step)
    requires Inv(s) && Enabled(s, step) && CleanStep(s, step)
    ensures Inv(Apply(s, step))
  {
    var t := Apply(s, step);
    StepKeepsBooks(s, step);
    StepExtends(s, step);
    CursorsKeep(s, step);
    assert AllCover(s, t.persisted);
    AllCoverExtends(s, t, t.persisted);
    forall p | p in t.passes ensures Safe(t, t.passes[p]) {
      if OfPass(step) && step.p == p { OwnPassStaysSafe(s, step); } else { OtherPassStaysSafe(s, step, p); }
    }
  }

  /** Every commit of the run is clean. */
  ghost predicate CleanRun(s: State, steps: seq<Step>)
    decreases |steps|
  {
    steps != [] ==> CleanStep(s, steps[0]) && CleanRun(Apply(s, steps[0]), steps[1..])
  }

  lemma {:induction false} RunKeeps(s: State, steps: seq<Step>, t: State)
    requires Inv(s) && Runs(s, steps, t) && CleanRun(s, steps)
    ensures Inv(t)
    decreases |steps|
  {
    if steps != [] {
      StepKeeps(s, steps[0]);
      RunKeeps(Apply(s, steps[0]), steps[1..], t);
    }
  }

  /** Main result: after any run of overlapping passes, posts, failures and restarts, every root message
      at or below a stored cursor (in memory or in the database) was classified as no candidate,
      belongs to a group acknowledged ok, or lay before the window of some fetch. */
  lemma NoLoss(now: Micros, steps: seq<Step>, t: State, k: Pair, e: Entry)
    requires Runs(Init(now), steps, t) && CleanRun(Init(now), steps)
    requires e in t.log && e.chan == k.chan && !e.reply
    requires e.id <= Cursor(t.cursors, k) || e.id <= Cursor(t.persisted, k)
    ensures Settled(t, Item(k.user, e))
  {
    RunKeeps(Init(now), steps, t);
    if e.id <= Cursor(t.cursors, k) && k in t.cursors {
      assert Covers(t, k, t.cursors[k]);
    } else if k in t.persisted {
      assert Covers(t, k, t.persisted[k]);
    }
  }

  // ---------- Replies ----------

  /** What was classified is done or waits for an acknowledgement; what was acknowledged is done or held. */
  ghost predicate Answered(done: set<Item>, pass: Pass) {
    && (forall i :: i in pass.seen ==> i in pass.candidates || i in done)
    && (forall i :: i in pass.acked ==> i in done || PairOf(i) in pass.held)
  }

  ghost predicate AllAnswered(s: State) { forall p :: p in s.passes ==> Answered(s.done, s.passes[p]) }

  lemma OwnAnswered(s: State, pass: Pass, step: Step)
    requires OfPass(step) && Answered(s.done, pass) && PassEnabled(s, pass, step)
    ensures Answered(DoneAfter(s, pass, step), PassAfter(s, pass, step))
  {
    if step.Classify? {
      ClassifyAnswered(s, pass, step);
    } else if step.Ack? {
      AckAnswered(s, pass, step);
    } else {
      OtherAnswered(s, pass, step);
    }
  }

  lemma ClassifyAnswered(s: State, pass: Pass, step: Step)
    requires step.Classify? && Answered(s.done, pass) && PassEnabled(s, pass, step)
    ensures Answered(DoneAfter(s, pass, step), PassAfter(s, pass, step))
  {
    ClassifiedIs(s, pass, step.i, step.isCandidate);
  }

  lemma AckAnswered(s: State, pass: Pass, step: Step)
    requires step.Ack? && Answered(s.done, pass)
    ensures Answered(DoneAfter(s, pass, step), PassAfter(s, pass, step))
  {
  }

  lemma OtherAnswered(s: State, pass: Pass, step: Step)
    requires OfPass(step) && !step.Classify? && !step.Ack? && Answered(s.done, pass)
    ensures Answered(DoneAfter(s, pass, step), PassAfter(s, pass, step))
  {
  }

  lemma StepKeepsAnswered(s: State, step: Step)
    requires GoodLog(s.log) && AllAnswered(s) && Enabled(s, step)
    ensures AllAnswered(Apply(s, step))
  {
    var t := Apply(s, step);
    StepExtends(s, step);
    forall p | p in t.passes ensures Answered(t.done, t.passes[p]) {
      if OfPass(step) && step.p == p {
        ApplyOfPass(s, step);
        OwnAnswered(s, s.passes[p], step);
      } else if p in s.passes {
        OtherPassUntouched(s, step, p);
      } else {
        NewPassIsFresh(s, step, p);
      }
    }
  }

  lemma {:induction false} RunKeepsAnswered(s: State, steps: seq<Step>, t: State)
    requires BookInv(s) && AllAnswered(s) && Runs(s, steps, t)
    ensures BookInv(t) && AllAnswered(t)
    decreases |steps|
  {
    if steps != [] {
      StepKeepsBooks(s, steps[0]);
      StepKeepsAnswered(s, steps[0]);
      RunKeepsAnswered(Apply(s, steps[0]), steps[1..], t);
    }
  }

  /** The pass did nothing about the reply: it never read it, or left it unacknowledged, or met a cursor at or past
      it. */
  ghost predicate PassesOver(pass: Pass, i: Item) {
    || i.at !in pass.snapshot
    || i in pass.dropped
    || (i in pass.skipped && i in pass.readAt && i.at.id <= pass.readAt[i])
  }

  /** Main result for replies, in any run at all: when a closed pass commits a cursor, a reply of the channel is
      done unless the pass passed it over. */
  lemma ReplyIsDoneUnless(now: Micros, steps: seq<Step>, t: State, p: nat, k: Pair, e: Entry)
    requires Runs(Init(now), steps, t) && p in t.passes
    requires t.passes[p].committing && Uncommitted(t.passes[p], k)
    requires e in t.log && e.chan == k.chan && e.reply
    ensures Item(k.user, e) in t.done || PassesOver(t.passes[p], Item(k.user, e))
  {
    RunKeepsAnswered(Init(now), steps, t);
    ReplyOfPass(t.log, t.done, t.passes[p], k, e);
  }

  lemma ReplyOfPass(log: set<Entry>, done: set<Item>, pass: Pass, k: Pair, e: Entry)
    requires Book(log, pass) && Answered(done, pass) && pass.committing && Uncommitted(pass, k) && e.chan == k.chan
    ensures Item(k.user, e) in done || PassesOver(pass, Item(k.user, e))
  {
    var i := Item(k.user, e);
    assert PairOf(i) == k;
    assert SeenAt(pass, k, pass.newTS[k]);
    if e in pass.snapshot { assert Visited(pass, i); }
  }

  /** Exactly when: the commit leaves no reply at or below it unsettled if and only if every one that the pass passed
      over has been settled some other way. */
  lemma ReplyCommitIff(now: Micros, steps: seq<Step>, t: State, p: nat, k: Pair)
    requires Runs(Init(now), steps, t) && p in t.passes
    requires t.passes[p].committing && Uncommitted(t.passes[p], k)
    ensures var pass := t.passes[p];
      (forall e :: IsReplyBelow(t, k, pass.newTS[k], e) ==> Settled(t, Item(k.user, e)))
      <==>
      (forall e :: IsReplyBelow(t, k, pass.newTS[k], e) && PassesOver(pass, Item(k.user, e)) ==>
         Settled(t, Item(k.user, e)))
  {
    var pass := t.passes[p];
    forall e | IsReplyBelow(t, k, pass.newTS[k], e) && !PassesOver(pass, Item(k.user, e))
      ensures Settled(t, Item(k.user, e))
    {
      ReplyIsDoneUnless(now, steps, t, p, k, e);
    }
  }

  predicate IsReplyBelow(s: State, k: Pair, x: Ts, e: Entry) {
    e in s.log && e.chan == k.chan && e.reply && e.id <= x
  }

  // ---------- Which runs are clean ----------

  /** A read of replies is prompt when no root message posted since the listing is older than one of them. */
  ghost predicate Prompt(s: State, step: Step) {
    step.ReadReplies? && step.p in s.passes ==>
      forall e, x :: Late(s, s.passes[step.p], e) && e.chan == step.chan && x in step.replies ==> x.id < e.id
  }

  /** Every user is found, no room panics, and replies are read promptly. */
  ghost predicate SmoothRun(s: State, steps: seq<Step>)
    decreases |steps|
  {
    steps != [] ==> !steps[0].Drop? && Prompt(s, steps[0]) && SmoothRun(Apply(s, steps[0]), steps[1..])
  }

  ghost predicate Smooth(s: State, pass: Pass) {
    && pass.dropped == {}
    && (forall e, x :: Late(s, pass, e) && x in pass.snapshot && x.chan == e.chan ==> x.id < e.id)
  }

  ghost predicate AllSmooth(s: State) { forall p :: p in s.passes ==> Smooth(s, s.passes[p]) }

  lemma SmoothCommitIsClean(s: State, pass: Pass, k: Pair)
    requires Book(s.log, pass) && Smooth(s, pass) && k in pass.newTS
    ensures CleanCommit(s, pass, k)
  {
    assert SeenAt(pass, k, pass.newTS[k]);
  }

  lemma PassStaysSmooth(s: State, t: State, pass: Pass, step: Step)
    requires OfPass(step) && !step.Drop? && Book(s.log, pass) && Smooth(s, pass) && PassEnabled(s, pass, step)
    requires t.log == s.log
    requires step.ReadReplies? ==>
               forall e, x :: Late(s, pass, e) && e.chan == step.chan && x in step.replies ==> x.id < e.id
    ensures Smooth(t, PassAfter(s, pass, step))
  {
    var after := PassAfter(s, pass, step);
    assert step.FetchPage? ==> forall e :: e in Roots(s, step.chan) ==> e in after.known;
    forall e, x | Late(t, after, e) && x in after.snapshot && x.chan == e.chan ensures x.id < e.id {
      assert step.FetchPage? ==> e.chan != step.chan;
      assert Late(s, pass, e);
    }
  }

  lemma OwnPassStaysSmooth(s: State, step: Step)
    requires BookInv(s) && AllSmooth(s) && Enabled(s, step) && !step.Drop? && Prompt(s, step) && OfPass(step)
    ensures Smooth(Apply(s, step), Apply(s, step).passes[step.p])
  {
    ApplyOfPass(s, step);
    PassStaysSmooth(s, Apply(s, step), s.passes[step.p], step);
  }

  lemma OtherPassStaysSmooth(s: State, step: Step, p: nat)
    requires BookInv(s) && AllSmooth(s) && Enabled(s, step)
    requires p in Apply(s, step).passes && (OfPass(step) ==> step.p != p)
    ensures Smooth(Apply(s, step), Apply(s, step).passes[p])
  {
    StepExtends(s, step);
    if p in s.passes {
      OtherPassUntouched(s, step, p);
      PostStaysSmooth(s, Apply(s, step), s.passes[p]);
    } else {
      NewPassIsFresh(s, step, p);
    }
  }

  lemma StepStaysSmooth(s: State, step: Step)
    requires BookInv(s) && AllSmooth(s) && Enabled(s, step) && !step.Drop? && Prompt(s, step)
    ensures AllSmooth(Apply(s, step)) && CleanStep(s, step)
  {
    if step.Commit? { SmoothCommitIsClean(s, s.passes[step.p], step.k); }
    var t := Apply(s, step);
    forall p | p in t.passes ensures Smooth(t, t.passes[p]) {
      if OfPass(step) && step.p == p { OwnPassStaysSmooth(s, step); } else { OtherPassStaysSmooth(s, step, p); }
    }
  }

  lemma PostStaysSmooth(s: State, t: State, pass: Pass)
    requires Book(s.log, pass) && Smooth(s, pass) && Extends(s, t)
    ensures Smooth(t, pass)
  {
    forall e, x | Late(t, pass, e) && x in pass.snapshot && x.chan == e.chan ensures x.id < e.id {
      if e in s.log { assert Late(s, pass, e); }
    }
  }

  /** Runs without dropped candidates and with prompt reads commit cleanly throughout. */
  lemma {:induction false} SmoothRunIsClean(s: State, steps: seq<Step>, t: State)
    requires BookInv(s) && AllSmooth(s) && Runs(s, steps, t) && SmoothRun(s, steps)
    ensures CleanRun(s, steps)
    decreases |steps|
  {
    if steps != [] {
      StepStaysSmooth(s, steps[0]);
      StepKeepsBooks(s, steps[0]);
      SmoothRunIsClean(Apply(s, steps[0]), steps[1..], t);
    }
  }

  // ---------- What the window may excuse ----------

  ghost predicate ExcusedIsOld(s: State) {
    forall i :: i in s.excused ==> i.at.id < s.now - DEFAULT_LOOKBACK
  }

  /** Only messages more than a day old are ever excused. */
  lemma {:induction false} RunExcusesOnlyOld(s: State, steps: seq<Step>, t: State)
    requires ExcusedIsOld(s) && Runs(s, steps, t)
    ensures ExcusedIsOld(t)
    decreases |steps|
  {
    if steps != [] {
      StepExcusesOnlyOld(s, steps[0]);
      RunExcusesOnlyOld(Apply(s, steps[0]), steps[1..], t);
    }
  }

  lemma StepExcusesOnlyOld(s: State, step: Step)
    requires ExcusedIsOld(s) && Enabled(s, step)
    ensures ExcusedIsOld(Apply(s, step))
  {
    if step.FetchPage? { WindowBounds(step.min, s.now); }
  }

  /** When every user has a cursor, a fetch excuses only what the 29-day cap cuts off. */
  lemma FetchExcusesOnlyPastCap(s: State, users: set<string>, chan: string, min: Ts, i: Item)
    requires min >= SECOND && i in BeforeWindow(s, users, chan, min)
    ensures i.at.id < s.now - CATCH_UP_CAP
  {
    WindowBounds(min, s.now);
  }

  /** Main result, for smooth runs: a root message at or below a stored cursor and less than a day old has
      been dealt with, without exception. */
  lemma RecentMessagesAreDone(now: Micros, steps: seq<Step>, t: State, k: Pair, e: Entry)
    requires Runs(Init(now), steps, t) && SmoothRun(Init(now), steps)
    requires e in t.log && e.chan == k.chan && !e.reply
    requires e.id <= Cursor(t.cursors, k) || e.id <= Cursor(t.persisted, k)
    ensures e.id >= t.now - DEFAULT_LOOKBACK ==> Item(k.user, e) in t.done
    ensures Item(k.user, e) in t.done || Item(k.user, e) in t.excused
  {
    SmoothRunIsClean(Init(now), steps, t);
    NoLoss(now, steps, t, k, e);
    RunExcusesOnlyOld(Init(now), steps, t);
  }

  // ---------- The success stamp ----------

  /** Main result, in any run: a pass that stamps last_success for a user has listed the history of every channel, has
      had no group of that user's acknowledged as failed, has stored the newest message it classified in every
      channel, and has dealt with all it classified and did not drop; if all commits of the run are clean, every root
      message it fetched is settled. A thread whose replies could not be read does not count against the channel. */
  lemma StampMeansClean(now: Micros, steps: seq<Step>, t: State, p: nat, u: string)
    requires Runs(Init(now), steps, t) && p in t.passes && u in t.passes[p].stamped
    ensures var pass := t.passes[p];
      && pass.ready == pass.chans
      && (forall k :: k in pass.held ==> k.user != u)
      && (forall k :: k in pass.newTS && k.user == u ==> k in pass.committed)
      && (forall i :: i in pass.seen && i.user == u ==>
            PairOf(i) in pass.committed && PairOf(i) in pass.newTS && i.at.id <= pass.newTS[PairOf(i)])
      && (forall i :: i in pass.seen && i.user == u && i !in pass.dropped ==> i in t.done)
      && (CleanRun(Init(now), steps) ==>
            forall e :: e in pass.snapshot && !e.reply && Item(u, e) !in pass.dropped ==> Settled(t, Item(u, e)))
  {
    RunKeepsAnswered(Init(now), steps, t);
    StampedPass(t.log, t.done, t.passes[p], u);
    if CleanRun(Init(now), steps) {
      RunKeeps(Init(now), steps, t);
      StampSettles(t, t.passes[p], u);
    }
  }

  lemma StampedPass(log: set<Entry>, done: set<Item>, pass: Pass, u: string)
    requires Book(log, pass) && Answered(done, pass) && u in pass.stamped
    ensures pass.ready == pass.chans
    ensures forall k :: k in pass.newTS && k.user == u ==> k in pass.committed
    ensures forall i :: i in pass.seen && i.user == u ==>
              PairOf(i) in pass.committed && PairOf(i) in pass.newTS && i.at.id <= pass.newTS[PairOf(i)]
    ensures forall i :: i in pass.seen && i.user == u && i !in pass.dropped ==> i in done
  {
    forall i | i in pass.seen && i.user == u && i !in pass.dropped ensures i in done { assert PairOf(i).user == u; }
  }

  lemma StampSettles(t: State, pass: Pass, u: string)
    requires Book(t.log, pass) && Safe(t, pass) && u in pass.stamped
    ensures forall e :: e in pass.snapshot && !e.reply && Item(u, e) !in pass.dropped ==> Settled(t, Item(u, e))
  {
    forall e | e in pass.snapshot && !e.reply && Item(u, e) !in pass.dropped ensures Settled(t, Item(u, e)) {
      assert Visited(pass, Item(u, e));
      assert PairOf(Item(u, e)).user == u;
    }
  }

  /** Exactly when, in any run at all: for a user whose pass was stamped, the position stored for a channel
      is the newest message fetched from it if and only if the cursor was below that message when it was
      classified. */
  lemma StampIsAtPageMaximumIff(now: Micros, steps: seq<Step>, t: State, p: nat, u: string, x: Entry)
    requires Runs(Init(now), steps, t) && p in t.passes && u in t.passes[p].stamped
    requires x in t.passes[p].snapshot
    requires forall y :: y in t.passes[p].snapshot && y.chan == x.chan ==> y.id <= x.id
    ensures var pass, k := t.passes[p], Pair(u, x.chan);
      && Item(u, x) in pass.readAt
      && (k in pass.committed && k in pass.newTS && pass.newTS[k] == x.id <==> pass.readAt[Item(u, x)] < x.id)
  {
    RunKeepsBooks(Init(now), steps, t);
    NewestIsPageMaximumIff(t.log, t.passes[p], u, x);
  }

  lemma NewestIsPageMaximumIff(log: set<Entry>, pass: Pass, u: string, x: Entry)
    requires GoodLog(log) && Book(log, pass) && u in pass.stamped && x in pass.snapshot
    requires forall y :: y in pass.snapshot && y.chan == x.chan ==> y.id <= x.id
    ensures var k := Pair(u, x.chan);
      && Item(u, x) in pass.readAt
      && (k in pass.committed && k in pass.newTS && pass.newTS[k] == x.id <==> pass.readAt[Item(u, x)] < x.id)
  {
    var k := Pair(u, x.chan);
    assert x.chan in pass.ready;
    assert Visited(pass, Item(u, x)) && PairOf(Item(u, x)) == k;
    if k in pass.newTS {
      assert SeenAt(pass, k, pass.newTS[k]);
      var i :| i in pass.seen && i.user == u && i.at.chan == x.chan && i.at.id == pass.newTS[k];
      assert i.at in pass.snapshot && i.at.id <= x.id;
      assert i.at.id == x.id ==> i == Item(u, x);
    }
  }
}
