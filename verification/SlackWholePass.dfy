/** One whole Slack pass without overlap, from the fetch through the analysis to the commit
    (scanner/scanner_slack.go): what the analysis fails on decides which cursors move. */
module SlackWholePass {
  import ChatBuffers
  import opened SlackTime
  import opened SlackCursor
  import opened SlackScan
  import opened SlackPass
  import opened SlackAdapters
  import opened ChannelDriver

  /** The analysis side: channel names, group interval, client, AI answers, users that are not found, and how
      a fetched message is handed on. */
  datatype Analysis = Analysis(nameOf: string -> string, interval: int, client: bool, oracleOf: string -> Oracle,
                               lookupFails: set<string>, asMsg: Raw -> ChatBuffers.Msg)

  function AsMsgs(ms: seq<Raw>, asMsg: Raw -> ChatBuffers.Msg): seq<ChatBuffers.Msg> {
    seq(|ms|, i requires 0 <= i < |ms| => asMsg(ms[i]))
  }

  function AsQueue(byChannel: map<string, seq<Raw>>, asMsg: Raw -> ChatBuffers.Msg): Queue {
    map c | c in byChannel :: AsMsgs(byChannel[c], asMsg)
  }

  function Queued(queues: map<string, Queue>, t: Target): seq<ChatBuffers.Msg> {
    if t.email in queues && t.name in queues[t.email] then queues[t.email][t.name] else []
  }

  /** A group of the user was acknowledged as failed with a message that maps to the channel. */
  ghost predicate Failed(results: map<string, Scanned>, t: Target) {
    t.email in results && FailedIn(results[t.email].acks, results[t.email].chanOf, t.name)
  }

  /** Every user that is found has the whole queue acknowledged, each message once and truthfully. */
  ghost predicate AllScanned(queues: map<string, Queue>, results: map<string, Scanned>, a: Analysis) {
    && results.Keys == queues.Keys - a.lookupFails
    && forall e :: e in results ==> ScannedAll(queues[e], results[e], a.client, a.oracleOf(e))
  }

  /** What a fetched channel leaves for a user: what is beyond the cursor and wanted, in order. */
  ghost function Candidates(t: Target, api: Api, users: seq<string>, now: Micros, wanted: Wanted,
                            scans: ScanStore): seq<Raw>
    reads scans
  {
    WantedOf(UnseenOf(Fetched(api, t.name, users, now, scans), scans.GetLastScan(t)), t.email, wanted)
  }

  /** Main result: when every user has a stored position in the channel, a root message is queued for a user exactly
      if a person wrote it in the last 29 days, it is beyond the user's own position, and the user wants it. */
  lemma QueuedIff(t: Target, api: Api, users: seq<string>, now: Micros, wanted: Wanted, scans: ScanStore,
                  posts: set<Raw>, m: Raw)
    requires t.email in users && Honest(api, t.name, posts) && IsRoot(m)
    requires forall u :: u in users ==> CursorOf(u, t.name, scans) >= SECOND
    ensures m in Candidates(t, api, users, now, wanted, scans) <==>
      && PostedSince(m, posts, now - 29 * DAY) && m.id > CursorOf(t.email, t.name, scans) && wanted(t.email, m)
  {
    var fetched, lts := Fetched(api, t.name, users, now, scans), scans.GetLastScan(t);
    assert t == Target(t.email, t.name);
    FetchedIff(api, t.name, users, now, scans, posts, m);
    InUnseenOf(fetched, lts, m);
    InWantedOf(UnseenOf(fetched, lts), t.email, wanted, m);
  }

  /** The newest message of the channel, or the cursor if it is beyond. */
  ghost function Reached(t: Target, api: Api, users: seq<string>, now: Micros, scans: ScanStore): Ts
    reads scans
  {
    Newest(Fetched(api, t.name, users, now, scans), scans.GetLastScan(t))
  }

  lemma CollectedQueue(t: Target, api: Api, users: seq<string>, now: Micros, wanted: Wanted, scans: ScanStore)
    ensures Collected(t, EMPTY, api, users, now, wanted, scans).queue
         == Candidates(t, api, users, now, wanted, scans)
  {
    TakeAllIs(Fetched(api, t.name, users, now, scans), t.email, scans.GetLastScan(t), wanted);
  }

  /** The candidates of a pass, ready for the adapter. */
  method QueueUp(col: Collector, asMsg: Raw -> ChatBuffers.Msg) returns (queues: map<string, Queue>)
    ensures queues.Keys == col.candidates.Keys
    ensures forall t :: Queued(queues, t) == AsMsgs(col.Queue(t), asMsg)
  {
    queues := map e | e in col.candidates :: AsQueue(col.candidates[e], asMsg);
  }

  /** The analysis of the candidates and the commit of the cursors that nothing holds. */
  method AnalyseAndCommit(col: Collector, a: Analysis, doneAtCommit: bool, scans: ScanStore)
    returns (tracker: HeldTracker, ghost queues: map<string, Queue>, ghost results: map<string, Scanned>)
    modifies scans
    ensures fresh(tracker) && tracker.Valid() && AllScanned(queues, results, a)
    ensures forall t :: Queued(queues, t) == AsMsgs(col.Queue(t), a.asMsg)
    ensures forall t :: tracker.Holds(t) <==> Failed(results, t)
    ensures forall t ::
      scans.GetLastScan(t) == if !doneAtCommit && Has(col.newTS, t) && !Failed(results, t)
                              then Lookup(col.newTS, t) else old(scans.GetLastScan(t))
  {
    var candidates := QueueUp(col, a.asMsg);
    queues := candidates;
    tracker := new HeldTracker();
    results := ProcessSlackCandidates(candidates, a.lookupFails, a.nameOf, a.interval, a.client, a.oracleOf, tracker);
    ApplySlackScanResults(doneAtCommit, col.newTS, tracker, scans);
  }

  /** Main result: a pass that no other pass overlaps queues for each user exactly what is new and wanted in the
      fetched channels, has each queue of a found user acknowledged once and truthfully, moves a cursor to the
      newest message read exactly unless the fetch or a group failed or the context is done, and stamps exactly
      the users whose pass was clean throughout. */
  method ScanSlack(users: seq<string>, chans: seq<string>, api: Api, now: Micros, stamp: Ts, wanted: Wanted,
                   a: Analysis, doneAtCommit: bool, doneAtStamp: bool, scans: ScanStore)
    returns (ghost fetched: set<string>, ghost queues: map<string, Queue>, ghost results: map<string, Scanned>)
    requires Distinct(users) && Distinct(chans) && LAST_SUCCESS !in chans && (doneAtCommit ==> doneAtStamp)
    modifies scans
    ensures (forall c :: c in fetched ==> c in chans) && AllScanned(queues, results, a)
    ensures forall t ::
      Queued(queues, t) == if t.name in fetched && t.email in users
                           then AsMsgs(old(Candidates(t, api, users, now, wanted, scans)), a.asMsg) else []
    ensures forall t: Target :: t.name != LAST_SUCCESS ==>
      scans.GetLastScan(t) == if !doneAtCommit && t.name in fetched && t.email in users && !Failed(results, t)
                              then old(Reached(t, api, users, now, scans)) else old(scans.GetLastScan(t))
    ensures forall u :: var t := Target(u, LAST_SUCCESS);
      scans.GetLastScan(t) == if && !doneAtStamp && u in users && (forall c :: c in chans ==> c in fetched)
                                 && (forall c :: !Failed(results, Target(u, c)))
                              then stamp else old(scans.GetLastScan(t))
  {
    var col, fetchOK;
    col, fetchOK, fetched := CollectSlackHistory(users, chans, api, now, wanted, scans);
    CollectedAre(col, fetched, api, users, now, wanted, a, scans);
    var tracker;
    tracker, queues, results := AnalyseAndCommit(col, a, doneAtCommit, scans);
    if fetchOK && !doneAtStamp {
      MarkSlackScanSuccess(users, stamp, tracker, scans);
    }
  }

  lemma CollectedAre(col: Collector, fetched: set<string>, api: Api, users: seq<string>,
                     now: Micros, wanted: Wanted, a: Analysis, scans: ScanStore)
    requires forall t ::
      col.ViewOf(t) == if t.name in fetched && t.email in users
                       then Collected(t, EMPTY, api, users, now, wanted, scans) else EMPTY
    ensures forall t ::
      AsMsgs(col.Queue(t), a.asMsg) == if t.name in fetched && t.email in users
                                       then AsMsgs(Candidates(t, api, users, now, wanted, scans), a.asMsg) else []
    ensures forall t :: (if Has(col.newTS, t) then Lookup(col.newTS, t) else scans.GetLastScan(t))
                     == if t.name in fetched && t.email in users
                        then Reached(t, api, users, now, scans) else scans.GetLastScan(t)
  {
    forall t: Target
      ensures AsMsgs(col.Queue(t), a.asMsg) == if t.name in fetched && t.email in users
                then AsMsgs(Candidates(t, api, users, now, wanted, scans), a.asMsg) else []
      ensures (if Has(col.newTS, t) then Lookup(col.newTS, t) else scans.GetLastScan(t))
           == if t.name in fetched && t.email in users
              then Reached(t, api, users, now, scans) else scans.GetLastScan(t)
    {
      CollectedQueue(t, api, users, now, wanted, scans);
      CollectedIs(t, api, users, now, wanted, scans);
      var v := col.ViewOf(t);
      assert v.queue == col.Queue(t) && v.has == Has(col.newTS, t) && v.newest == Lookup(col.newTS, t);
    }
  }

  /** Main result: with ids unique across a user's channels, a found user's cursor is withheld for exactly the
      channels with an own candidate in a failed group, and whatever a moving cursor passes was in a group that
      reached a terminal outcome. */
  lemma WithheldIff(queues: map<string, Queue>, results: map<string, Scanned>, a: Analysis, t: Target)
    requires AllScanned(queues, results, a) && t.email in results && NoIdInTwoChannels(queues[t.email])
    ensures Failed(results, t) <==> OwnFailure(queues[t.email], results[t.email].acks, t.name)
    ensures !Failed(results, t) ==> forall m :: m in Queued(queues, t) ==>
              exists i :: 0 <= i < |results[t.email].acks| && m in results[t.email].acks[i].group
                          && results[t.email].acks[i].ok && Settled(a.oracleOf(t.email)(results[t.email].acks[i].group))
  {
    var q, r := queues[t.email], results[t.email];
    HeldIsExact(q, r, a.client, a.oracleOf(t.email), t.name);
    if !Failed(results, t) {
      forall m | m in Queued(queues, t)
        ensures exists i :: 0 <= i < |r.acks| && m in r.acks[i].group && r.acks[i].ok
                            && Settled(a.oracleOf(t.email)(r.acks[i].group))
      {
        UnheldMeansSettled(q, r, a.client, a.oracleOf(t.email), t.name, m);
      }
    }
  }
}
