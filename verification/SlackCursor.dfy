/** Cursor bookkeeping of one Slack pass (scanner/scanner_slack_cursor.go): the tracker of held
    channels, the newest classified message per user and channel, and the commit. */
module SlackCursor {
  import opened SlackTime

  /** The key of a stored scan position: a channel id, or the last_success marker. */
  datatype Target = Target(email: string, name: string)

  const LAST_SUCCESS: string := "last_success"

  type NewTS = map<string, map<string, Ts>>

  function Lookup(newTS: NewTS, t: Target): Ts {
    if t.email in newTS && t.name in newTS[t.email] then newTS[t.email][t.name] else NONE
  }

  predicate Has(newTS: NewTS, t: Target) { t.email in newTS && t.name in newTS[t.email] }

  /** The (user, channel) pairs whose analysis did not finish in this pass. */
  class HeldTracker {
    var held: map<string, map<string, bool>>

    ghost predicate Valid()
      reads this
    {
      forall e :: e in held ==> held[e] != map[] && forall c :: c in held[e] ==> held[e][c]
    }

    ghost predicate Holds(t: Target)
      reads this
    {
      t.email in held && t.name in held[t.email]
    }

    constructor ()
      ensures Valid() && held == map[]
    {
      held := map[];
    }

    method Hold(email: string, channelID: string)
      requires Valid()
      modifies this
      ensures Valid()
      ensures forall t :: Holds(t) <==> old(Holds(t)) || t == Target(email, channelID)
    {
      if email !in held {
        held := held[email := map[][channelID := true]];
      } else {
        held := held[email := held[email][channelID := true]];
      }
      assert channelID in held[email];
    }

    predicate IsHeld(email: string, channelID: string)
      requires Valid()
      reads this
      ensures IsHeld(email, channelID) <==> Holds(Target(email, channelID))
    {
      email in held && channelID in held[email] && held[email][channelID]
    }

    predicate HasHeld(email: string)
      requires Valid()
      reads this
      ensures HasHeld(email) <==> exists c :: Holds(Target(email, c))
    {
      if email in held then
        assert |held[email]| > 0 by { var c :| c in held[email]; assert held[email].Keys != {}; }
        assert exists c :: c in held[email] && Holds(Target(email, c));
        |held[email]| > 0
      else false
    }
  }

  /** The in-memory scan positions; a missing entry reads as NONE. */
  class ScanStore {
    var positions: map<Target, Ts>

    constructor ()
      ensures positions == map[]
    {
      positions := map[];
    }

    function GetLastScan(t: Target): (ts: Ts)
      reads this
    {
      if t in positions then positions[t] else NONE
    }

    method UpdateLastScan(t: Target, ts: Ts)
      modifies this
      ensures positions == old(positions)[t := ts]
    {
      positions := positions[t := ts];
    }
  }

  /** Keeps, per pair, the newest message seen, in whatever order messages arrive. */
  method UpdateChannelCursor(newTS: NewTS, email: string, channelID: string, msgID: Ts) returns (r: NewTS)
    ensures forall t :: Has(r, t) <==> Has(newTS, t) || t == Target(email, channelID)
    ensures forall t ::
      Lookup(r, t) == if t == Target(email, channelID) && msgID > Lookup(newTS, t) then msgID else Lookup(newTS, t)
  {
    var channels: map<string, Ts> := if email in newTS then newTS[email] else map[];
    if channelID !in channels || msgID > channels[channelID] {
      channels := channels[channelID := msgID];
    }
    r := newTS[email := channels];
  }

  /** Drops the held pairs and keeps everything else. */
  method WithholdHeld(newTS: NewTS, tracker: HeldTracker) returns (kept: NewTS)
    requires tracker.Valid()
    ensures forall t :: Has(kept, t) <==> Has(newTS, t) && !tracker.Holds(t)
    ensures forall t :: Has(kept, t) ==> Lookup(kept, t) == Lookup(newTS, t)
  {
    kept := newTS;
    var emails := newTS.Keys;
    while emails != {}
      invariant kept.Keys == newTS.Keys && emails <= kept.Keys
      invariant forall e :: e in emails ==> kept[e] == newTS[e]
      invariant forall e :: e in kept && e !in emails ==> WithoutHeld(newTS[e], e, tracker) == kept[e]
    {
      var email :| email in emails;
      var channels := kept[email].Keys;
      while channels != {}
        invariant kept.Keys == newTS.Keys && emails <= kept.Keys && email in emails && channels <= newTS[email].Keys
        invariant forall e :: e in emails && e != email ==> kept[e] == newTS[e]
        invariant forall e :: e in kept && e !in emails ==> WithoutHeld(newTS[e], e, tracker) == kept[e]
        invariant kept[email] ==
                  map c | c in newTS[email] && (c in channels || !tracker.Holds(Target(email, c))) :: newTS[email][c]
      {
        var c :| c in channels;
        if tracker.IsHeld(email, c) {
          kept := kept[email := kept[email] - {c}];
        }
        channels := channels - {c};
      }
      emails := emails - {email};
    }
  }

  ghost function WithoutHeld(channels: map<string, Ts>, email: string, tracker: HeldTracker): map<string, Ts>
    reads tracker
  {
    map c | c in channels && !tracker.Holds(Target(email, c)) :: channels[c]
  }

  /** Writes every entry, and nothing else. */
  method UpdateSlackCursors(newTS: NewTS, scans: ScanStore)
    modifies scans
    ensures forall t :: scans.GetLastScan(t) == if Has(newTS, t) then Lookup(newTS, t) else old(scans.GetLastScan(t))
  {
    var emails := newTS.Keys;
    while emails != {}
      invariant emails <= newTS.Keys
      invariant forall t ::
        scans.GetLastScan(t) == if Has(newTS, t) && t.email !in emails
                                then Lookup(newTS, t) else old(scans.GetLastScan(t))
    {
      var email :| email in emails;
      var channels := newTS[email].Keys;
      while channels != {}
        invariant channels <= newTS[email].Keys
        invariant forall t ::
          scans.GetLastScan(t) == if Has(newTS, t) && (t.email !in emails || (t.email == email && t.name !in channels))
                                  then Lookup(newTS, t) else old(scans.GetLastScan(t))
      {
        var c :| c in channels;
        scans.UpdateLastScan(Target(email, c), newTS[email][c]);
        channels := channels - {c};
      }
      emails := emails - {email};
    }
  }

  /** The commit: nothing when the context is done, else every pair that is not held. */
  method ApplySlackScanResults(ctxDone: bool, newTS: NewTS, tracker: HeldTracker, scans: ScanStore)
    requires tracker.Valid()
    modifies scans
    ensures forall t ::
      scans.GetLastScan(t) == if !ctxDone && Has(newTS, t) && !tracker.Holds(t)
                              then Lookup(newTS, t) else old(scans.GetLastScan(t))
  {
    if ctxDone { return; }
    var kept := WithholdHeld(newTS, tracker);
    UpdateSlackCursors(kept, scans);
  }

  /** Stamps exactly the users without a held channel, and touches no cursor. */
  method MarkSlackScanSuccess(users: seq<string>, now: Ts, tracker: HeldTracker, scans: ScanStore)
    requires tracker.Valid()
    modifies scans
    ensures forall t ::
      scans.GetLastScan(t) == if && t.name == LAST_SUCCESS && t.email in users
                                 && (forall c :: !tracker.Holds(Target(t.email, c)))
                              then now else old(scans.GetLastScan(t))
  {
    for i := 0 to |users|
      invariant forall t ::
        scans.GetLastScan(t) == if t.name == LAST_SUCCESS && t.email in users[..i] && !tracker.HasHeld(t.email)
                                then now else old(scans.GetLastScan(t))
    {
      if !tracker.HasHeld(users[i]) {
        scans.UpdateLastScan(Target(users[i], LAST_SUCCESS), now);
      }
      assert users[..i + 1] == users[..i] + [users[i]];
    }
    assert users[..|users|] == users;
  }
}
