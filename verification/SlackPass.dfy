/** The collecting half of a Slack pass (scanner/scanner_slack.go): each channel is read from the smallest
    cursor of its users and every message is classified for every user. */
module SlackPass {
  import opened SlackTime
  import opened SlackCursor
  import opened SlackScan

  /** Whether the message reaches the analysis for the user: classified as task or query and, in a
      gated channel, in a thread the user is involved in. */
  type Wanted = (string, Raw) -> bool

  predicate Unseen(m: Raw, lts: Ts) { lts == NONE || m.id > lts }

  function UnseenOf(ms: seq<Raw>, lts: Ts): seq<Raw> {
    if ms == [] then []
    else
      var front := UnseenOf(ms[..|ms| - 1], lts);
      if Unseen(ms[|ms| - 1], lts) then front + [ms[|ms| - 1]] else front
  }

  function WantedOf(ms: seq<Raw>, user: string, wanted: Wanted): seq<Raw> {
    if ms == [] then []
    else
      var front := WantedOf(ms[..|ms| - 1], user, wanted);
      if wanted(user, ms[|ms| - 1]) then front + [ms[|ms| - 1]] else front
  }

  /** The largest id, at least `start`. */
  function Newest(ms: seq<Raw>, start: Ts): Ts {
    if ms == [] then start
    else
      var front := Newest(ms[..|ms| - 1], start);
      if ms[|ms| - 1].id > front then ms[|ms| - 1].id else front
  }

  lemma {:induction false} NewestIsMaximum(ms: seq<Raw>, start: Ts)
    ensures Newest(ms, start) >= start && forall m :: m in ms ==> m.id <= Newest(ms, start)
    ensures Newest(ms, start) == start || exists m :: m in ms && m.id == Newest(ms, start)
  {
    if ms != [] {
      var front, last := ms[..|ms| - 1], ms[|ms| - 1];
      NewestIsMaximum(front, start);
      assert ms == front + [last];
      assert last in ms;
    }
  }

  lemma {:induction false} InUnseenOf(ms: seq<Raw>, lts: Ts, m: Raw)
    ensures m in UnseenOf(ms, lts) <==> m in ms && Unseen(m, lts)
  {
    if ms != [] {
      InUnseenOf(ms[..|ms| - 1], lts, m);
      assert ms == ms[..|ms| - 1] + [ms[|ms| - 1]];
    }
  }

  lemma {:induction false} InWantedOf(ms: seq<Raw>, user: string, wanted: Wanted, m: Raw)
    ensures m in WantedOf(ms, user, wanted) <==> m in ms && wanted(user, m)
  {
    if ms != [] {
      InWantedOf(ms[..|ms| - 1], user, wanted, m);
      assert ms == ms[..|ms| - 1] + [ms[|ms| - 1]];
    }
  }

  ghost predicate Distinct(s: seq<string>) { forall i, j :: 0 <= i < j < |s| ==> s[i] != s[j] }

  /** The maps a pass fills: candidates and newest classified message, by user and channel. */
  class Collector {
    var candidates: map<string, map<string, seq<Raw>>>
    var newTS: NewTS

    constructor ()
      ensures candidates == map[] && newTS == map[]
    {
      candidates, newTS := map[], map[];
    }

    function Queue(t: Target): seq<Raw>
      reads this
    {
      if t.email in candidates && t.name in candidates[t.email] then candidates[t.email][t.name] else []
    }

    method AppendSlackCandidate(email: string, channelID: string, m: Raw)
      modifies this`candidates
      ensures forall t :: Queue(t) == old(Queue(t)) + if t == Target(email, channelID) then [m] else []
    {
      var channels := if email in candidates then candidates[email] else map[];
      var queue := if channelID in channels then channels[channelID] else [];
      candidates := candidates[email := channels[channelID := queue + [m]]];
    }

    ghost function ViewOf(t: Target): View
      reads this
    {
      View(Has(newTS, t), Lookup(newTS, t), Queue(t))
    }

    method ClassifyFor(user: string, channelID: string, m: Raw, wanted: Wanted, lts: Ts)
      modifies this
      ensures forall t ::
        ViewOf(t) == if t == Target(user, channelID) && Unseen(m, lts)
                     then Take(old(ViewOf(t)), m, wanted(user, m)) else old(ViewOf(t))
    {
      if lts != NONE && m.id <= lts { return; }
      if wanted(user, m) {
        AppendSlackCandidate(user, channelID, m);
      }
      newTS := UpdateChannelCursor(newTS, user, channelID, m.id);
    }

    /** One message, every user; a user whose cursor is at or past the message is skipped. */
    method ClassifyAndCollect(channelID: string, m: Raw, users: seq<string>, wanted: Wanted, scans: ScanStore)
      requires Distinct(users)
      modifies this
      ensures forall t ::
        ViewOf(t) == if Addressed(t, channelID, users, m, scans)
                     then Take(old(ViewOf(t)), m, wanted(t.email, m)) else old(ViewOf(t))
    {
      for i := 0 to |users|
        invariant forall t ::
          ViewOf(t) == if Addressed(t, channelID, users[..i], m, scans)
                       then Take(old(ViewOf(t)), m, wanted(t.email, m)) else old(ViewOf(t))
      {
        assert users[..i + 1] == users[..i] + [users[i]];
        assert users[i] !in users[..i];
        ClassifyFor(users[i], channelID, m, wanted, scans.GetLastScan(Target(users[i], channelID)));
      }
      assert users[..|users|] == users;
    }

    /** A whole fetched channel. */
    method ClassifyAll(channelID: string, msgs: seq<Raw>, users: seq<string>, wanted: Wanted, scans: ScanStore)
      requires Distinct(users)
      modifies this
      ensures forall t ::
        ViewOf(t) == if t.name == channelID && t.email in users
                     then TakeAll(old(ViewOf(t)), msgs, t.email, scans.GetLastScan(t), wanted)
                     else old(ViewOf(t))
    {
      for i := 0 to |msgs|
        invariant forall t ::
          ViewOf(t) == if t.name == channelID && t.email in users
                       then TakeAll(old(ViewOf(t)), msgs[..i], t.email, scans.GetLastScan(t), wanted)
                       else old(ViewOf(t))
      {
        assert msgs[..i + 1][..i] == msgs[..i];
        ClassifyAndCollect(channelID, msgs[i], users, wanted, scans);
      }
      assert msgs[..|msgs|] == msgs;
    }
  }

  ghost predicate Addressed(t: Target, channelID: string, users: seq<string>, m: Raw, scans: ScanStore)
    reads scans
  {
    t.name == channelID && t.email in users && Unseen(m, scans.GetLastScan(t))
  }

  /** What a pass holds for one user and channel. */
  datatype View = View(has: bool, newest: Ts, queue: seq<Raw>)

  function Take(v: View, m: Raw, wanted: bool): View {
    View(true, if m.id > v.newest then m.id else v.newest, if wanted then v.queue + [m] else v.queue)
  }

  function TakeAll(v: View, ms: seq<Raw>, user: string, lts: Ts, wanted: Wanted): View {
    if ms == [] then v
    else
      var front, last := TakeAll(v, ms[..|ms| - 1], user, lts, wanted), ms[|ms| - 1];
      if Unseen(last, lts) then Take(front, last, wanted(user, last)) else front
  }

  /** A channel's messages leave a user exactly the unseen wanted ones as candidates, in order, and
      the largest unseen id as the position to store. */
  lemma {:induction false} TakeAllIs(ms: seq<Raw>, user: string, lts: Ts, wanted: Wanted)
    ensures TakeAll(View(false, NONE, []), ms, user, lts, wanted)
         == View(UnseenOf(ms, lts) != [], Newest(UnseenOf(ms, lts), NONE), WantedOf(UnseenOf(ms, lts), user, wanted))
  {
    if ms != [] {
      TakeAllIs(ms[..|ms| - 1], user, lts, wanted);
      var front, last := UnseenOf(ms[..|ms| - 1], lts), ms[|ms| - 1];
      assert (front + [last])[..|front|] == front;
    }
  }

  // ---------- A pass ----------

  const EMPTY: View := View(false, NONE, [])

  function CursorsOf(users: seq<string>, channelID: string, scans: ScanStore): seq<Ts>
    reads scans
  {
    if users == [] then []
    else CursorsOf(users[..|users| - 1], channelID, scans) + [scans.GetLastScan(Target(users[|users| - 1], channelID))]
  }

  /** The API, asked for a channel's messages newer than a cursor. */
  type Api = (string, Ts) -> Answer

  /** What a pass starting now reads from the channel: the window runs from the smallest cursor. */
  ghost function Fetched(api: Api, channelID: string, users: seq<string>, now: Micros, scans: ScanStore): seq<Raw>
    reads scans
  {
    var min := MinCursor(CursorsOf(users, channelID, scans));
    var a := api(channelID, min);
    InWindow(Flatten(a.pages), SlackScanWindow(min, now), a.replies)
  }

  /** The user's own position in the channel. */
  ghost function CursorOf(u: string, channelID: string, scans: ScanStore): Ts
    reads scans
  {
    scans.GetLastScan(Target(u, channelID))
  }

  lemma {:induction false} CursorsAre(users: seq<string>, channelID: string, scans: ScanStore)
    ensures var cursors := CursorsOf(users, channelID, scans);
      |cursors| == |users| && forall i :: 0 <= i < |users| ==> cursors[i] == CursorOf(users[i], channelID, scans)
  {
    if users != [] { CursorsAre(users[..|users| - 1], channelID, scans); }
  }

  lemma MinIsStored(users: seq<string>, channelID: string, scans: ScanStore)
    requires users != []
    ensures var min := MinCursor(CursorsOf(users, channelID, scans));
      && (forall u :: u in users ==> min <= CursorOf(u, channelID, scans))
      && (exists u :: u in users && CursorOf(u, channelID, scans) == min)
  {
    var cursors := CursorsOf(users, channelID, scans);
    CursorsAre(users, channelID, scans);
    MinCursorLeast(cursors);
    var i :| 0 <= i < |cursors| && cursors[i] == MinCursor(cursors);
    assert users[i] in users;
  }

  /** Asked for what is newer than a cursor, the API lists exactly that of what was posted, newest first. */
  ghost predicate ListsPosts(history: seq<Raw>, posts: set<Raw>, min: Ts) {
    && Descending(history) && Stamped(history)
    && forall m :: m in history <==> m in posts && m.id > min
  }

  ghost predicate Honest(api: Api, channelID: string, posts: set<Raw>) {
    forall min: Ts :: ListsPosts(Flatten(api(channelID, min).pages), posts, min)
  }

  /** A person's message, posted at `from` or later. */
  ghost predicate PostedSince(m: Raw, posts: set<Raw>, from: Micros) {
    m in posts && !m.bot && m.text != "" && m.id >= from
  }

  /** Main result: when every user has a stored position in the channel, a pass reads a root message exactly if a
      person wrote it in the last 29 days and it is beyond the position of one of the users. */
  lemma FetchedIff(api: Api, channelID: string, users: seq<string>, now: Micros, scans: ScanStore, posts: set<Raw>,
                   m: Raw)
    requires users != [] && Honest(api, channelID, posts) && IsRoot(m)
    requires forall u :: u in users ==> CursorOf(u, channelID, scans) >= SECOND
    ensures m in Fetched(api, channelID, users, now, scans) <==>
      PostedSince(m, posts, now - 29 * DAY) && exists u :: u in users && m.id > CursorOf(u, channelID, scans)
  {
    var min := MinCursor(CursorsOf(users, channelID, scans));
    MinIsStored(users, channelID, scans);
    WindowBounds(min, now);
    var history := Flatten(api(channelID, min).pages);
    assert ListsPosts(history, posts, min);
    FetchIsWindowFilter(history, SlackScanWindow(min, now), api(channelID, min).replies, m);
  }

  /** As soon as one user has none, it reads exactly the last day. */
  lemma FetchedOfNewUserIff(api: Api, channelID: string, users: seq<string>, now: Micros, scans: ScanStore,
                            posts: set<Raw>, m: Raw, u: string)
    requires Honest(api, channelID, posts) && IsRoot(m) && u in users && CursorOf(u, channelID, scans) == NONE
    ensures m in Fetched(api, channelID, users, now, scans) <==> PostedSince(m, posts, now - DAY) && m.id > 0
  {
    var min := MinCursor(CursorsOf(users, channelID, scans));
    MinIsStored(users, channelID, scans);
    var history := Flatten(api(channelID, min).pages);
    assert ListsPosts(history, posts, min);
    FetchIsWindowFilter(history, SlackScanWindow(min, now), api(channelID, min).replies, m);
  }

  method ReadCursors(users: seq<string>, channelID: string, scans: ScanStore) returns (cursors: seq<Ts>)
    ensures cursors == CursorsOf(users, channelID, scans)
  {
    cursors := [];
    for i := 0 to |users|
      invariant cursors == CursorsOf(users[..i], channelID, scans)
    {
      assert users[..i + 1][..i] == users[..i];
      cursors := cursors + [scans.GetLastScan(Target(users[i], channelID))];
    }
    assert users[..|users|] == users;
  }

  ghost function Collected(t: Target, before: View, api: Api, users: seq<string>, now: Micros, wanted: Wanted,
                           scans: ScanStore): View
    reads scans
  {
    TakeAll(before, Fetched(api, t.name, users, now, scans), t.email, scans.GetLastScan(t), wanted)
  }

  method ScanSingleSlackChannel(users: seq<string>, channelID: string, api: Api, now: Micros, wanted: Wanted,
                                scans: ScanStore, col: Collector)
    returns (ok: bool)
    requires Distinct(users)
    modifies col
    ensures forall t ::
      col.ViewOf(t) == if ok && t.name == channelID && t.email in users
                       then Collected(t, old(col.ViewOf(t)), api, users, now, wanted, scans) else old(col.ViewOf(t))
  {
    var cursors := ReadCursors(users, channelID, scans);
    var min := GetMinLastTS(cursors);
    var msgs;
    msgs, ok := GetMessages(api(channelID, min), SlackScanWindow(min, now));
    if !ok || |msgs| == 0 { return; }
    col.ClassifyAll(channelID, msgs, users, wanted, scans);
  }

  /** Every channel is tried; one failure only clears fetchOK. */
  method CollectSlackHistory(users: seq<string>, chans: seq<string>, api: Api, now: Micros, wanted: Wanted,
                             scans: ScanStore)
    returns (col: Collector, fetchOK: bool, ghost fetched: set<string>)
    requires Distinct(users) && Distinct(chans)
    ensures fresh(col) && (forall c :: c in fetched ==> c in chans)
    ensures fetchOK <==> forall c :: c in chans ==> c in fetched
    ensures forall t ::
      col.ViewOf(t) == if t.name in fetched && t.email in users
                       then Collected(t, EMPTY, api, users, now, wanted, scans) else EMPTY
  {
    col := new Collector();
    fetchOK, fetched := true, {};
    for i := 0 to |chans|
      invariant fresh(col) && (forall c :: c in fetched ==> c in chans[..i])
      invariant fetchOK <==> forall c :: c in chans[..i] ==> c in fetched
      invariant forall t ::
        col.ViewOf(t) == if t.name in fetched && t.email in users
                         then Collected(t, EMPTY, api, users, now, wanted, scans) else EMPTY
    {
      assert chans[..i + 1] == chans[..i] + [chans[i]];
      assert chans[i] !in chans[..i];
      var ok := ScanSingleSlackChannel(users, chans[i], api, now, wanted, scans, col);
      fetchOK := fetchOK && ok;
      if ok { fetched := fetched + {chans[i]}; }
    }
    assert chans[..|chans|] == chans;
  }

  /** Storing the newest unseen id, if there is one, is taking the maximum with the old cursor. */
  lemma {:induction false} NewestUnseen(ms: seq<Raw>, lts: Ts)
    ensures Newest(ms, lts) == if UnseenOf(ms, lts) != [] then Newest(UnseenOf(ms, lts), NONE) else lts
    ensures UnseenOf(ms, lts) != [] ==> Newest(UnseenOf(ms, lts), NONE) >= lts
  {
    if ms != [] {
      var front, last := ms[..|ms| - 1], ms[|ms| - 1];
      NewestUnseen(front, lts);
      NewestOneMore(UnseenOf(front, lts), last, NONE);
      NewestIsMaximum(front, lts);
    }
  }

  lemma NewestOneMore(ms: seq<Raw>, m: Raw, start: Ts)
    ensures ms + [m] != []
    ensures Newest(ms + [m], start) == if m.id > Newest(ms, start) then m.id else Newest(ms, start)
  {
    assert (ms + [m])[..|ms|] == ms;
  }

  lemma CollectedIs(t: Target, api: Api, users: seq<string>, now: Micros, wanted: Wanted, scans: ScanStore)
    ensures var v := Collected(t, EMPTY, api, users, now, wanted, scans);
      var lts := scans.GetLastScan(t);
      Newest(Fetched(api, t.name, users, now, scans), lts) == if v.has then v.newest else lts
  {
    TakeAllIs(Fetched(api, t.name, users, now, scans), t.email, scans.GetLastScan(t), wanted);
    NewestUnseen(Fetched(api, t.name, users, now, scans), scans.GetLastScan(t));
  }
}
