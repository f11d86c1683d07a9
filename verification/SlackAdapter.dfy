/** The Slack adapter of the shared driver (scanner/scanner_slack_adapter.go): it merges the
    per-channel candidate batches by channel name, and turns failed acknowledgements back into held
    channel ids through a map keyed by message id alone. */
module SlackAdapters {
  import opened ChatBuffers
  import opened ChannelDriver
  import opened SlackCursor

  /** One user's candidates by channel id. */
  type Queue = map<string, seq<Msg>>

  ghost predicate NoIdInTwoChannels(q: Queue) {
    forall c, d, m, n :: c in q && d in q && m in q[c] && n in q[d] && m.id == n.id ==> c == d
  }

  ghost predicate Carries(q: Queue, c: string, id: string) { c in q && exists m :: m in q[c] && m.id == id }

  /** What building the map guarantees, whatever the iteration order. */
  ghost predicate ChanOfResult(q: Queue, chanOf: map<string, string>) {
    && (forall id :: id in chanOf ==> Carries(q, chanOf[id], id))
    && (forall c, m :: c in q && m in q[c] ==> m.id in chanOf)
  }

  ghost predicate Faithful(q: Queue, chanOf: map<string, string>) {
    forall c, m :: c in q && m in q[c] ==> m.id in chanOf && chanOf[m.id] == c
  }

  /** The map names every message's own channel, in every iteration order, exactly if no id occurs in
      two channels. */
  lemma ChanOfIsFaithfulIff(q: Queue, chanOf: map<string, string>)
    requires ChanOfResult(q, chanOf)
    ensures Faithful(q, chanOf) <==> NoIdInTwoChannels(q)
  {
    if NoIdInTwoChannels(q) {
      forall c, m | c in q && m in q[c] ensures chanOf[m.id] == c {
        assert Carries(q, chanOf[m.id], m.id);
      }
    }
  }

  function Batch(buf: map<string, seq<Msg>>, name: string): seq<Msg> { if name in buf then buf[name] else [] }

  /** Each room name stands for the last channel of that name. */
  ghost predicate RoomsOf(q: Queue, rest: Queue, rooms: map<string, string>, nameOf: string -> string) {
    && (forall c :: c in q && c !in rest ==> nameOf(c) in rooms)
    && (forall name :: name in rooms ==> rooms[name] in q && nameOf(rooms[name]) == name)
  }

  ghost predicate Conserves(q: Queue, rest: Queue, buf: map<string, seq<Msg>>) {
    Popped(buf) + Popped(rest) == Popped(q)
  }

  lemma ConservesOn(q: Queue, rest: Queue, buf: map<string, seq<Msg>>, c: string, name: string)
    requires Conserves(q, rest, buf) && c in rest
    ensures Conserves(q, rest - {c}, buf[name := Batch(buf, name) + rest[c]])
  {
    PoppedAppend(buf, name, Batch(buf, name), rest[c]);
    PoppedWithout(rest, c);
  }

  /** A room holds exactly the messages of the channels of its name that are merged so far. */
  ghost predicate RoomsHold(q: Queue, rest: Queue, buf: map<string, seq<Msg>>, nameOf: string -> string) {
    forall name, m :: m in Batch(buf, name) <==>
      exists c :: c in q && c !in rest && nameOf(c) == name && m in q[c]
  }

  lemma RoomsHoldMore(q: Queue, rest: Queue, buf: map<string, seq<Msg>>, c: string, nameOf: string -> string)
    requires RoomsHold(q, rest, buf, nameOf) && c in rest && c in q && rest[c] == q[c]
    ensures RoomsHold(q, rest - {c}, buf[nameOf(c) := Batch(buf, nameOf(c)) + rest[c]], nameOf)
  {
    var after := buf[nameOf(c) := Batch(buf, nameOf(c)) + rest[c]];
    forall name, m
      ensures m in Batch(after, name) <==> exists d :: d in q && d !in rest - {c} && nameOf(d) == name && m in q[d]
    {
      if name == nameOf(c) {
        assert Batch(after, name) == Batch(buf, name) + q[c];
      } else {
        assert Batch(after, name) == Batch(buf, name);
      }
    }
  }

  ghost predicate NamesDone(q: Queue, rest: Queue, chanOf: map<string, string>) {
    (forall c :: c in rest ==> c in q && rest[c] == q[c]) && ChanOfResult(q - rest.Keys, chanOf)
  }

  lemma NamesOn(q: Queue, rest: Queue, chanOf: map<string, string>, c: string, ids: map<string, string>)
    requires NamesDone(q, rest, chanOf) && c in rest
    requires forall id :: id in ids <==> id in chanOf || id in Ids(rest[c])
    requires forall id :: id in ids ==> ids[id] == if id in Ids(rest[c]) then c else chanOf[id]
    ensures NamesDone(q, rest - {c}, ids)
  {
    assert q - (rest - {c}).Keys == (q - rest.Keys)[c := rest[c]];
    ChanOfGrows(q - rest.Keys, chanOf, c, rest[c], ids, q - (rest - {c}).Keys);
  }

  lemma MergeEnds(q: Queue, rest: Queue, buf: map<string, seq<Msg>>, chanOf: map<string, string>)
    requires rest == map[] && Conserves(q, rest, buf) && NamesDone(q, rest, chanOf)
    ensures ChanOfResult(q, chanOf) && Popped(buf) == Popped(q)
  {
    assert q - rest.Keys == q;
  }

  lemma MergeStarts(q: Queue)
    ensures Conserves(q, q, map[]) && NamesDone(q, q, map[])
  {
    assert q - q.Keys == map[];
  }

  /** The loop of newSlackAdapter: rooms merge by name, messages are conserved. */
  method MergeChannels(q: Queue, nameOf: string -> string)
    returns (buf: map<string, seq<Msg>>, rooms: map<string, string>, chanOf: map<string, string>)
    ensures ChanOfResult(q, chanOf)
    ensures Popped(buf) == Popped(q)
    ensures RoomsOf(q, map[], rooms, nameOf) && buf.Keys == rooms.Keys
    ensures RoomsHold(q, map[], buf, nameOf)
  {
    buf, rooms, chanOf := map[], map[], map[];
    var rest := q;
    MergeStarts(q);
    while rest != map[]
      invariant NamesDone(q, rest, chanOf)
      invariant Conserves(q, rest, buf)
      invariant RoomsOf(q, rest, rooms, nameOf) && buf.Keys == rooms.Keys
      invariant RoomsHold(q, rest, buf, nameOf)
      decreases |rest|
    {
      var c :| c in rest;
      var name := nameOf(c);
      var ids := AddIds(c, rest[c], chanOf);
      ConservesOn(q, rest, buf, c, name);
      RoomsHoldMore(q, rest, buf, c, nameOf);
      NamesOn(q, rest, chanOf, c, ids);
      buf := buf[name := Batch(buf, name) + rest[c]];
      rooms := rooms[name := c];
      chanOf := ids;
      rest := rest - {c};
    }
    MergeEnds(q, rest, buf, chanOf);
  }

  class SlackAdapter {
    var buf: map<string, seq<Msg>>
    var rooms: map<string, string>
    var chanOf: map<string, string>
    var consumed: bool
    const tracker: HeldTracker?

    constructor (byChannel: Queue, nameOf: string -> string, tracker: HeldTracker?)
      ensures ChanOfResult(byChannel, chanOf)
      ensures Popped(buf) == Popped(byChannel)
      ensures RoomsOf(byChannel, map[], rooms, nameOf) && buf.Keys == rooms.Keys
      ensures RoomsHold(byChannel, map[], buf, nameOf)
      ensures !consumed && this.tracker == tracker
    {
      this.tracker := tracker;
      consumed := false;
      new;
      buf, rooms, chanOf := MergeChannels(byChannel, nameOf);
    }

    /** Hands the batch out once. */
    method PopMessages() returns (r: map<string, seq<Msg>>)
      modifies this
      ensures r == if old(consumed) then map[] else buf
      ensures consumed && buf == old(buf) && chanOf == old(chanOf)
    {
      if consumed { return map[]; }
      consumed := true;
      r := buf;
    }

    /** Holds the channel of every message of a failed group; a success, or a missing tracker, is a
        no-op. */
    method AckScanned(email: string, group: seq<Msg>, ok: bool)
      requires tracker != null ==> tracker.Valid()
      modifies tracker
      ensures tracker != null ==> tracker.Valid()
      ensures tracker != null ==> forall t :: tracker.Holds(t) <==>
        old(tracker.Holds(t)) || (t.email == email && FailedIn([AckRecord(group, ok)], chanOf, t.name))
    {
      if tracker != null {
        forall c ensures FailedIn([AckRecord(group, ok)], chanOf, c) <==> !ok && NamedBy(group, chanOf, c) {
          FailedInOne(AckRecord(group, ok), chanOf, c);
        }
      }
      if ok || tracker == null { return; }
      for i := 0 to |group|
        invariant tracker.Valid()
        invariant forall t :: tracker.Holds(t) <==>
          old(tracker.Holds(t)) || (t.email == email && NamedBy(group[..i], chanOf, t.name))
      {
        assert group[..i + 1] == group[..i] + [group[i]];
        if group[i].id in chanOf {
          tracker.Hold(email, chanOf[group[i].id]);
        }
      }
      assert group[..|group|] == group;
    }
  }

  lemma PoppedAppend(buf: map<string, seq<Msg>>, name: string, before: seq<Msg>, msgs: seq<Msg>)
    requires before == Batch(buf, name)
    ensures Popped(buf[name := before + msgs]) == Popped(buf) + multiset(msgs)
  {
    var after := buf[name := before + msgs];
    PoppedWithout(after, name);
    if name in buf {
      PoppedWithout(buf, name);
      assert after - {name} == buf - {name};
    } else {
      assert after - {name} == buf;
    }
  }

  method AddIds(c: string, msgs: seq<Msg>, chanOf: map<string, string>) returns (r: map<string, string>)
    ensures forall id :: id in r <==> id in chanOf || id in Ids(msgs)
    ensures forall id :: id in r ==> r[id] == if id in Ids(msgs) then c else chanOf[id]
  {
    r := chanOf;
    for i := 0 to |msgs|
      invariant forall id :: id in r <==> id in chanOf || id in Ids(msgs[..i])
      invariant forall id :: id in r ==> r[id] == if id in Ids(msgs[..i]) then c else chanOf[id]
    {
      assert msgs[..i + 1] == msgs[..i] + [msgs[i]];
      r := r[msgs[i].id := c];
    }
    assert msgs[..|msgs|] == msgs;
  }

  lemma ChanOfGrows(q: Queue, chanOf: map<string, string>, c: string, msgs: seq<Msg>,
                    after: map<string, string>, bigger: Queue)
    requires ChanOfResult(q, chanOf) && c !in q && bigger == q[c := msgs]
    requires forall id :: id in after <==> id in chanOf || id in Ids(msgs)
    requires forall id :: id in after ==> after[id] == if id in Ids(msgs) then c else chanOf[id]
    ensures ChanOfResult(bigger, after)
  {
    forall id | id in after ensures Carries(bigger, after[id], id) {
      if id in Ids(msgs) {
        var m :| m in msgs && m.id == id;
        assert m in bigger[c];
      } else {
        assert Carries(q, chanOf[id], id);
        assert bigger[chanOf[id]] == q[chanOf[id]];
      }
    }
  }

  // ---------- A user's whole batch ----------

  ghost predicate NamedBy(group: seq<Msg>, chanOf: map<string, string>, c: string) {
    exists m :: m in group && m.id in chanOf && chanOf[m.id] == c
  }

  /** Some failed group has a message that the map sends to channel `c`. */
  ghost predicate FailedIn(acks: seq<AckRecord>, chanOf: map<string, string>, c: string) {
    exists i :: 0 <= i < |acks| && !acks[i].ok && NamedBy(acks[i].group, chanOf, c)
  }

  lemma FailedInOne(r: AckRecord, chanOf: map<string, string>, c: string)
    ensures FailedIn([r], chanOf, c) <==> !r.ok && NamedBy(r.group, chanOf, c)
  {
    assert [r][0] == r;
  }

  lemma FailedInAppend(a: seq<AckRecord>, b: AckRecord, chanOf: map<string, string>, c: string)
    ensures FailedIn(a + [b], chanOf, c) <==> FailedIn(a, chanOf, c) || FailedIn([b], chanOf, c)
  {
    var all := a + [b];
    if FailedIn(a, chanOf, c) {
      var i :| 0 <= i < |a| && !a[i].ok && NamedBy(a[i].group, chanOf, c);
      assert all[i] == a[i];
    }
    if FailedIn([b], chanOf, c) { assert all[|a|] == b; }
    if FailedIn(all, chanOf, c) {
      var i :| 0 <= i < |all| && !all[i].ok && NamedBy(all[i].group, chanOf, c);
      if i < |a| { assert all[i] == a[i]; } else { assert [b][0] == b; }
    }
  }

  /** What the driver did with one user's batch, and the id map it was acknowledged through. */
  datatype Scanned = Scanned(acks: seq<AckRecord>, chanOf: map<string, string>)

  ghost predicate ScannedAll(q: Queue, r: Scanned, client: bool, oracle: Oracle) {
    Acked(r.acks) == Popped(q) && Truthful(r.acks, client, oracle) && ChanOfResult(q, r.chanOf)
  }

  /** One user: merge, drain, drive, acknowledge. */
  method ScanUser(email: string, q: Queue, nameOf: string -> string, interval: int, client: bool, oracle: Oracle,
                  tracker: HeldTracker)
    returns (ghost r: Scanned)
    requires tracker.Valid()
    modifies tracker
    ensures tracker.Valid() && ScannedAll(q, r, client, oracle)
    ensures forall t ::
      tracker.Holds(t) <==> old(tracker.Holds(t)) || (t.email == email && FailedIn(r.acks, r.chanOf, t.name))
  {
    var adapter := new SlackAdapter(q, nameOf, tracker);
    var popped := adapter.PopMessages();
    var acker := new Acker();
    ghost var news := ScanChannel(acker, popped, interval, client, oracle);
    assert acker.acks == news;
    DeliverAcks(email, acker.acks, adapter, tracker);
    r := Scanned(news, adapter.chanOf);
  }

  method DeliverAcks(email: string, acks: seq<AckRecord>, adapter: SlackAdapter, tracker: HeldTracker)
    requires tracker.Valid() && adapter.tracker == tracker
    modifies tracker
    ensures tracker.Valid()
    ensures forall t ::
      tracker.Holds(t) <==> old(tracker.Holds(t)) || (t.email == email && FailedIn(acks, adapter.chanOf, t.name))
  {
    for i := 0 to |acks|
      invariant tracker.Valid()
      invariant forall t ::
        tracker.Holds(t) <==>
          old(tracker.Holds(t)) || (t.email == email && FailedIn(acks[..i], adapter.chanOf, t.name))
    {
      var a := acks[i];
      assert acks[..i + 1] == acks[..i] + [a] && a == AckRecord(a.group, a.ok);
      forall c
        ensures FailedIn(acks[..i + 1], adapter.chanOf, c) <==>
                  FailedIn(acks[..i], adapter.chanOf, c) || FailedIn([a], adapter.chanOf, c)
      {
        FailedInAppend(acks[..i], a, adapter.chanOf, c);
      }
      adapter.AckScanned(email, a.group, a.ok);
    }
    assert acks[..|acks|] == acks;
  }

  /** All users with candidates; a failed user lookup skips the user's whole batch in silence. */
  method ProcessSlackCandidates(candidates: map<string, Queue>, lookupFails: set<string>, nameOf: string -> string,
                                interval: int, client: bool, oracleOf: string -> Oracle, tracker: HeldTracker)
    returns (ghost results: map<string, Scanned>)
    requires tracker.Valid()
    modifies tracker
    ensures tracker.Valid() && results.Keys == candidates.Keys - lookupFails
    ensures forall e :: e in results ==> ScannedAll(candidates[e], results[e], client, oracleOf(e))
    ensures forall t :: tracker.Holds(t) <==>
      || old(tracker.Holds(t))
      || (t.email in results && FailedIn(results[t.email].acks, results[t.email].chanOf, t.name))
  {
    results := map[];
    var todo := candidates.Keys;
    while todo != {}
      invariant todo <= candidates.Keys && results.Keys == candidates.Keys - todo - lookupFails
      invariant tracker.Valid()
      invariant forall e :: e in results ==> ScannedAll(candidates[e], results[e], client, oracleOf(e))
      invariant forall t :: tracker.Holds(t) <==>
        || old(tracker.Holds(t))
        || (t.email in results && FailedIn(results[t.email].acks, results[t.email].chanOf, t.name))
    {
      var email :| email in todo;
      todo := todo - {email};
      if email in lookupFails { continue; }
      ghost var r := ScanUser(email, candidates[email], nameOf, interval, client, oracleOf(email), tracker);
      results := results[email := r];
    }
  }

  // ---------- What an unheld channel means ----------

  lemma {:induction false} InAcked(acks: seq<AckRecord>, m: Msg)
    ensures m in Acked(acks) <==> exists i :: 0 <= i < |acks| && m in acks[i].group
  {
    if acks != [] {
      var front, last := acks[..|acks| - 1], acks[|acks| - 1];
      InAcked(front, m);
      if m in Acked(front) {
        var i :| 0 <= i < |front| && m in front[i].group;
        assert m in acks[i].group;
      }
      if m in last.group { assert m in acks[|acks| - 1].group; }
      if i :| 0 <= i < |acks| && m in acks[i].group {
        if i < |front| { assert m in front[i].group; }
      }
    }
  }

  lemma {:induction false} InPopped(q: Queue, m: Msg)
    ensures m in Popped(q) <==> exists c :: c in q && m in q[c]
    decreases |q|
  {
    if q != map[] {
      var room :| room in q && Popped(q) == multiset(q[room]) + Popped(q - {room});
      InPopped(q - {room}, m);
      if m in Popped(q - {room}) {
        var c :| c in q - {room} && m in (q - {room})[c];
        assert c in q && m in q[c];
      }
      if c :| c in q && m in q[c] {
        if c != room { assert c in q - {room} && m in (q - {room})[c]; }
      }
    }
  }

  /** A failed group contains one of channel `c`'s own candidates. */
  ghost predicate OwnFailure(q: Queue, acks: seq<AckRecord>, c: string) {
    c in q && exists i, m :: 0 <= i < |acks| && !acks[i].ok && m in acks[i].group && m in q[c]
  }

  lemma HeldHasCause(q: Queue, r: Scanned, c: string)
    requires Acked(r.acks) == Popped(q) && Faithful(q, r.chanOf) && FailedIn(r.acks, r.chanOf, c)
    ensures OwnFailure(q, r.acks, c)
  {
    var i :| 0 <= i < |r.acks| && !r.acks[i].ok && NamedBy(r.acks[i].group, r.chanOf, c);
    var m :| m in r.acks[i].group && m.id in r.chanOf && r.chanOf[m.id] == c;
    InAcked(r.acks, m);
    InPopped(q, m);
  }

  lemma CauseIsHeld(q: Queue, r: Scanned, c: string)
    requires Faithful(q, r.chanOf) && OwnFailure(q, r.acks, c)
    ensures FailedIn(r.acks, r.chanOf, c)
  {
    var i, m :| 0 <= i < |r.acks| && !r.acks[i].ok && m in r.acks[i].group && m in q[c];
    assert NamedBy(r.acks[i].group, r.chanOf, c);
  }

  /** Main result: with ids unique across the user's channels, a channel is held after the scan exactly
      if one of its own candidates was in a failed group. */
  lemma HeldIsExact(q: Queue, r: Scanned, client: bool, oracle: Oracle, c: string)
    requires ScannedAll(q, r, client, oracle) && NoIdInTwoChannels(q)
    ensures FailedIn(r.acks, r.chanOf, c) <==> OwnFailure(q, r.acks, c)
  {
    ChanOfIsFaithfulIff(q, r.chanOf);
    if FailedIn(r.acks, r.chanOf, c) { HeldHasCause(q, r, c); }
    if OwnFailure(q, r.acks, c) { CauseIsHeld(q, r, c); }
  }

  /** So every candidate of a channel that is not held was in a group acknowledged ok, which is what
      lets its cursor move. */
  lemma UnheldMeansSettled(q: Queue, r: Scanned, client: bool, oracle: Oracle, c: string, m: Msg)
    requires ScannedAll(q, r, client, oracle) && NoIdInTwoChannels(q)
    requires c in q && m in q[c] && !FailedIn(r.acks, r.chanOf, c)
    ensures exists i ::
      0 <= i < |r.acks| && m in r.acks[i].group && r.acks[i].ok && client && Settled(oracle(r.acks[i].group))
  {
    HeldIsExact(q, r, client, oracle, c);
    InPopped(q, m);
    InAcked(r.acks, m);
    var i :| 0 <= i < |r.acks| && m in r.acks[i].group;
    assert r.acks[i].ok;
  }

  /** When an id does occur in two channels, a failure in one of them can hold the other instead. */
  lemma SharedIdHoldsWrongChannel(m: Msg, n: Msg) returns (q: Queue, r: Scanned, client: bool, oracle: Oracle)
    requires m != n && m.id == n.id
    ensures ScannedAll(q, r, client, oracle) && q == map["C1" := [m], "C2" := [n]]
    ensures OwnFailure(q, r.acks, "C1") && !FailedIn(r.acks, r.chanOf, "C1")
  {
    q := map["C1" := [m], "C2" := [n]];
    client := true;
    oracle := g => Facts(false, false, m in g, false, 0);
    var a, b := AckRecord([m], false), AckRecord([n], true);
    r := Scanned([a] + [b], map[m.id := "C2"]);
    TwoChannelsPopped(q, m, n);
    AckedAppend([a], [b]);
    AckedOne(a);
    AckedOne(b);
    assert m in r.acks[0].group && m in q["C1"] && n in q["C2"];
  }

  lemma TwoChannelsPopped(q: Queue, m: Msg, n: Msg)
    requires q == map["C1" := [m], "C2" := [n]]
    ensures Popped(q) == multiset([m]) + multiset([n])
  {
    PoppedWithout(q, "C1");
    PoppedWithout(q - {"C1"}, "C2");
    assert q - {"C1"} - {"C2"} == map[];
  }
}
