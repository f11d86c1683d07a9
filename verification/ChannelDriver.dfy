/** The scan driver shared by the chat channels (scanner/channel_adapter.go): popped messages are
    grouped by time, each group goes through filter, enrichment and analysis, and every exit
    acknowledges the group. */
module ChannelDriver {
  import opened ChatBuffers

  const MAX_GROUP: nat := 29

  // ---------- Grouping (ai/core/analyzers.go) ----------

  function Concat(groups: seq<seq<Msg>>): seq<Msg> {
    if groups == [] then [] else Concat(groups[..|groups| - 1]) + groups[|groups| - 1]
  }

  lemma ConcatAppend(groups: seq<seq<Msg>>, g: seq<Msg>)
    ensures Concat(groups + [g]) == Concat(groups) + g
  {
    assert (groups + [g])[..|groups|] == groups;
  }

  ghost predicate CloseTogether(g: seq<Msg>, interval: int) {
    forall i, j :: 0 <= i < |g| && j == i + 1 < |g| ==> g[j].time - g[i].time <= interval
  }

  /** Why a group ended: it was full, or the gap to the next message is too long. */
  ghost predicate Apart(g: seq<Msg>, next: seq<Msg>, interval: int)
    requires g != [] && next != []
  {
    |g| == MAX_GROUP || next[0].time - g[|g| - 1].time > interval
  }

  ghost predicate WellGrouped(groups: seq<seq<Msg>>, interval: int) {
    && (forall k :: 0 <= k < |groups| ==> 0 < |groups[k]| <= MAX_GROUP && CloseTogether(groups[k], interval))
    && (forall k, n :: 0 <= k < |groups| && n == k + 1 < |groups| ==> Apart(groups[k], groups[n], interval))
  }

  /** The first i messages are split into finished groups and the one being filled. */
  ghost predicate SplitSoFar(msgs: seq<Msg>, i: nat, groups: seq<seq<Msg>>, current: seq<Msg>, interval: int) {
    && 0 < i <= |msgs| && current != [] && current[|current| - 1] == msgs[i - 1]
    && Concat(groups) + current == msgs[..i]
    && |current| <= MAX_GROUP && WellGrouped(groups + [current], interval)
  }

  lemma GrowLast(msgs: seq<Msg>, i: nat, groups: seq<seq<Msg>>, current: seq<Msg>, interval: int)
    requires SplitSoFar(msgs, i, groups, current, interval) && i < |msgs|
    requires |current| < MAX_GROUP && msgs[i].time - msgs[i - 1].time <= interval
    ensures SplitSoFar(msgs, i + 1, groups, current + [msgs[i]], interval)
  {
    var a, b := groups + [current], groups + [current + [msgs[i]]];
    assert forall k :: 0 <= k < |groups| ==> b[k] == a[k];
    assert a[|groups|] == current && b[|groups|] == current + [msgs[i]];
    assert msgs[..i + 1] == msgs[..i] + [msgs[i]];
  }

  lemma WellGroupedAppend(groups: seq<seq<Msg>>, g: seq<Msg>, interval: int)
    requires WellGrouped(groups, interval) && |g| == 1 && groups != []
    requires Apart(groups[|groups| - 1], g, interval)
    ensures WellGrouped(groups + [g], interval)
  {
    var b := groups + [g];
    assert forall k :: 0 <= k < |groups| ==> b[k] == groups[k];
    assert b[|groups|] == g;
  }

  lemma NextIsGrouped(groups: seq<seq<Msg>>, current: seq<Msg>, m: Msg, interval: int)
    requires WellGrouped(groups + [current], interval) && current != []
    requires |current| == MAX_GROUP || m.time - current[|current| - 1].time > interval
    ensures WellGrouped(groups + [current] + [[m]], interval)
  {
    var done := groups + [current];
    assert done[|done| - 1] == current;
    WellGroupedAppend(done, [m], interval);
  }

  lemma {:induction false} ConcatOn(msgs: seq<Msg>, i: nat, groups: seq<seq<Msg>>, current: seq<Msg>)
    requires i < |msgs| && Concat(groups) + current == msgs[..i]
    ensures Concat(groups + [current]) + [msgs[i]] == msgs[..i + 1]
  {
    ConcatAppend(groups, current);
    assert msgs[..i + 1] == msgs[..i] + [msgs[i]];
  }

  lemma {:induction false} StartGroup(msgs: seq<Msg>, i: nat, groups: seq<seq<Msg>>, current: seq<Msg>, interval: int)
    requires SplitSoFar(msgs, i, groups, current, interval) && i < |msgs|
    requires |current| == MAX_GROUP || msgs[i].time - msgs[i - 1].time > interval
    ensures SplitSoFar(msgs, i + 1, groups + [current], [msgs[i]], interval)
  {
    NextIsGrouped(groups, current, msgs[i], interval);
    ConcatOn(msgs, i, groups, current);
  }

  lemma FirstGroup(msgs: seq<Msg>, interval: int)
    requires msgs != []
    ensures SplitSoFar(msgs, 1, [], [msgs[0]], interval)
  {
    assert [] + [[msgs[0]]] == [[msgs[0]]];
    assert [] + [msgs[0]] == msgs[..1];
  }

  lemma LastGroup(msgs: seq<Msg>, groups: seq<seq<Msg>>, current: seq<Msg>, interval: int)
    requires SplitSoFar(msgs, |msgs|, groups, current, interval)
    ensures Concat(groups + [current]) == msgs && WellGrouped(groups + [current], interval)
  {
    ConcatAppend(groups, current);
    assert msgs[..|msgs|] == msgs;
  }

  /** Splits a room's messages, in order, wherever the gap or the size cap is exceeded. */
  method GroupMessagesByTime(msgs: seq<Msg>, interval: int) returns (groups: seq<seq<Msg>>)
    ensures Concat(groups) == msgs
    ensures WellGrouped(groups, interval)
  {
    groups := [];
    if |msgs| == 0 { return; }
    var current := [msgs[0]];
    FirstGroup(msgs, interval);
    for i := 1 to |msgs|
      invariant SplitSoFar(msgs, i, groups, current, interval)
    {
      if msgs[i].time - msgs[i - 1].time <= interval && |current| < MAX_GROUP {
        GrowLast(msgs, i, groups, current, interval);
        current := current + [msgs[i]];
      } else {
        StartGroup(msgs, i, groups, current, interval);
        groups := groups + [current];
        current := [msgs[i]];
      }
    }
    LastGroup(msgs, groups, current, interval);
    groups := groups + [current];
  }

  // ---------- One group ----------

  /** What the outside world answers for a group: whether an open task bypasses the filter, and
      what filter, enrichment, analysis and envelope fallback return. */
  datatype Facts = Facts(bypass: bool, noise: bool, enrichFails: bool, aiFails: bool, fallbackCount: nat)

  type Oracle = seq<Msg> -> Facts

  function GroupOutcome(isNoise: bool, enrichErr: bool, aiErr: bool, fallbackCount: nat): bool {
    if isNoise then true
    else if enrichErr then false
    else if aiErr then fallbackCount > 0
    else true
  }

  /** The terminal states after which a group need never be seen again. */
  predicate Settled(f: Facts) {
    || (f.noise && !f.bypass)
    || (!f.enrichFails && !f.aiFails)
    || (!f.enrichFails && f.aiFails && f.fallbackCount > 0)
  }

  datatype AckRecord = AckRecord(group: seq<Msg>, ok: bool)

  /** The adapter's acknowledgements in the order they arrive. */
  class Acker {
    var acks: seq<AckRecord>

    constructor ()
      ensures acks == []
    {
      acks := [];
    }

    method AckGroup(group: seq<Msg>, ok: bool)
      modifies this
      ensures acks == old(acks) + [AckRecord(group, ok)]
    {
      acks := acks + [AckRecord(group, ok)];
    }
  }

  method ProcessChannelGroup(acker: Acker, group: seq<Msg>, f: Facts)
    modifies acker
    ensures acker.acks == old(acker.acks) + if group == [] then [] else [AckRecord(group, Settled(f))]
    ensures Settled(f) <==>
      if f.noise && !f.bypass then true else !f.enrichFails && (f.aiFails ==> f.fallbackCount > 0)
  {
    if |group| == 0 { return; }
    if !f.bypass && f.noise {
      acker.AckGroup(group, GroupOutcome(true, false, false, 0));
      return;
    }
    if f.enrichFails {
      acker.AckGroup(group, GroupOutcome(false, true, false, 0));
      return;
    }
    if f.aiFails && f.fallbackCount == 0 {
      acker.AckGroup(group, GroupOutcome(false, false, true, 0));
      return;
    }
    acker.AckGroup(group, GroupOutcome(false, false, f.aiFails, f.fallbackCount));
  }

  // ---------- Rooms and whole scans ----------

  /** The messages of a run of acknowledgements, with multiplicity. */
  function Acked(acks: seq<AckRecord>): multiset<Msg> {
    if acks == [] then multiset{} else Acked(acks[..|acks| - 1]) + multiset(acks[|acks| - 1].group)
  }

  lemma AckedPush(acks: seq<AckRecord>, r: AckRecord)
    ensures Acked(acks + [r]) == Acked(acks) + multiset(r.group)
  {
    assert (acks + [r])[..|acks|] == acks;
  }

  lemma LastOf(a: seq<AckRecord>, b: seq<AckRecord>)
    requires b != []
    ensures Acked(a + b) == Acked(a + b[..|b| - 1]) + multiset(b[|b| - 1].group)
  {
    assert (a + b)[..|a + b| - 1] == a + b[..|b| - 1];
  }

  lemma SumAssociates(x: multiset<Msg>, y: multiset<Msg>, z: multiset<Msg>)
    ensures x + y + z == x + (y + z)
  {
  }

  lemma {:induction false} AckedAppend(a: seq<AckRecord>, b: seq<AckRecord>)
    ensures Acked(a + b) == Acked(a) + Acked(b)
  {
    if b == [] {
      assert a + b == a;
    } else {
      var front := b[..|b| - 1];
      AckedAppend(a, front);
      LastOf(a, b);
      SumAssociates(Acked(a), Acked(front), multiset(b[|b| - 1].group));
    }
  }

  /** Every acknowledgement says ok exactly if the client was there and the group reached a
      terminal state. */
  ghost predicate Truthful(acks: seq<AckRecord>, client: bool, oracle: Oracle) {
    forall i :: 0 <= i < |acks| ==> (acks[i].ok <==> client && Settled(oracle(acks[i].group)))
  }

  lemma AckedOne(r: AckRecord)
    ensures Acked([r]) == multiset(r.group)
  {
    AckedPush([], r);
    assert [] + [r] == [r];
  }

  lemma AckOneMore(news: seq<AckRecord>, groups: seq<seq<Msg>>, i: nat, ok: bool)
    requires i < |groups| && Acked(news) == multiset(Concat(groups[..i]))
    ensures Acked(news + [AckRecord(groups[i], ok)]) == multiset(Concat(groups[..i + 1]))
  {
    AckedPush(news, AckRecord(groups[i], ok));
    assert groups[..i + 1] == groups[..i] + [groups[i]];
    ConcatAppend(groups[..i], groups[i]);
  }

  function GroupsOf(acks: seq<AckRecord>): (groups: seq<seq<Msg>>)
    ensures |groups| == |acks| && forall i :: 0 <= i < |acks| ==> groups[i] == acks[i].group
  {
    if acks == [] then [] else GroupsOf(acks[..|acks| - 1]) + [acks[|acks| - 1].group]
  }

  /** The acknowledgements of one room: its time groups in order, or the whole room without a client. */
  ghost predicate AcksRoom(acks: seq<AckRecord>, msgs: seq<Msg>, interval: int, client: bool) {
    if client then Concat(GroupsOf(acks)) == msgs && WellGrouped(GroupsOf(acks), interval)
    else acks == [AckRecord(msgs, false)]
  }

  method ProcessChannelRoom(acker: Acker, msgs: seq<Msg>, interval: int, client: bool, oracle: Oracle)
    returns (ghost news: seq<AckRecord>)
    modifies acker
    ensures acker.acks == old(acker.acks) + news
    ensures Acked(news) == multiset(msgs)
    ensures Truthful(news, client, oracle) && AcksRoom(news, msgs, interval, client)
  {
    var groups := GroupMessagesByTime(msgs, interval);
    if !client {
      acker.AckGroup(msgs, GroupOutcome(false, true, false, 0));
      news := [AckRecord(msgs, false)];
      AckedOne(news[0]);
    } else {
      news := AckGroups(acker, groups, oracle);
      AckedIsRoom(news, groups, msgs, interval, oracle);
    }
  }

  /** The first i groups are acknowledged, each in its place. */
  ghost predicate AckedSoFar(news: seq<AckRecord>, groups: seq<seq<Msg>>, i: nat, oracle: Oracle) {
    && i <= |groups| && |news| == i
    && (forall j :: 0 <= j < i ==> news[j].group == groups[j] && (news[j].ok <==> Settled(oracle(groups[j]))))
  }

  lemma LastAcked(news: seq<AckRecord>, i: nat)
    requires 0 < i <= |news|
    ensures news[..i] == news[..i - 1] + [AckRecord(news[i - 1].group, news[i - 1].ok)]
  {
  }

  lemma {:induction false} AckedAll(news: seq<AckRecord>, groups: seq<seq<Msg>>, i: nat)
    requires GroupsOf(news) == groups && i <= |groups|
    ensures Acked(news[..i]) == multiset(Concat(groups[..i]))
  {
    if i > 0 {
      AckedAll(news, groups, i - 1);
      AckOneMore(news[..i - 1], groups, i - 1, news[i - 1].ok);
      LastAcked(news, i);
    }
  }

  method AckGroups(acker: Acker, groups: seq<seq<Msg>>, oracle: Oracle) returns (ghost news: seq<AckRecord>)
    requires forall k :: 0 <= k < |groups| ==> |groups[k]| > 0
    modifies acker
    ensures acker.acks == old(acker.acks) + news
    ensures AckedSoFar(news, groups, |groups|, oracle)
  {
    news := [];
    for i := 0 to |groups|
      invariant acker.acks == old(acker.acks) + news
      invariant AckedSoFar(news, groups, i, oracle)
    {
      var f := oracle(groups[i]);
      ProcessChannelGroup(acker, groups[i], f);
      news := news + [AckRecord(groups[i], Settled(f))];
    }
  }

  lemma AckedIsRoom(news: seq<AckRecord>, groups: seq<seq<Msg>>, msgs: seq<Msg>, interval: int, oracle: Oracle)
    requires AckedSoFar(news, groups, |groups|, oracle) && Concat(groups) == msgs && WellGrouped(groups, interval)
    ensures Acked(news) == multiset(msgs) && Truthful(news, true, oracle) && AcksRoom(news, msgs, interval, true)
  {
    assert GroupsOf(news) == groups;
    AckedAll(news, groups, |groups|);
    assert news[..|groups|] == news && groups[..|groups|] == groups;
  }

  /** All popped messages, with multiplicity. */
  ghost function Popped(buffer: map<string, seq<Msg>>): multiset<Msg>
    decreases |buffer|
  {
    if buffer == map[] then multiset{}
    else
      var room :| room in buffer;
      multiset(buffer[room]) + Popped(buffer - {room})
  }

  lemma {:induction false} PoppedWithout(buffer: map<string, seq<Msg>>, room: string)
    requires room in buffer
    ensures Popped(buffer) == multiset(buffer[room]) + Popped(buffer - {room})
    decreases |buffer|
  {
    var first :| first in buffer && Popped(buffer) == multiset(buffer[first]) + Popped(buffer - {first});
    if first != room {
      PoppedWithout(buffer - {first}, room);
      PoppedWithout(buffer - {room}, first);
      assert buffer - {first} - {room} == buffer - {room} - {first};
    }
  }

  /** The rooms still in `rest` are all that is missing from the acknowledgements. */
  ghost predicate Accounted(news: seq<AckRecord>, rest: map<string, seq<Msg>>, all: multiset<Msg>,
                            client: bool, oracle: Oracle) {
    Acked(news) + Popped(rest) == all && Truthful(news, client, oracle)
  }

  /** A stretch of the acknowledgements is that of the room. */
  ghost predicate RoomIsAcked(acks: seq<AckRecord>, msgs: seq<Msg>, interval: int, client: bool) {
    exists i: nat, j: nat :: Stretch(acks, i, j, msgs, interval, client)
  }

  ghost predicate Stretch(acks: seq<AckRecord>, i: nat, j: nat, msgs: seq<Msg>, interval: int, client: bool) {
    i <= j <= |acks| && AcksRoom(acks[i..j], msgs, interval, client)
  }

  /** Every room of the buffer that is not in `rest` has its own stretch. */
  ghost predicate RoomsAcked(acks: seq<AckRecord>, buffer: map<string, seq<Msg>>, rest: map<string, seq<Msg>>,
                             interval: int, client: bool) {
    && (forall room :: room in rest ==> room in buffer && rest[room] == buffer[room])
    && (forall room :: room in buffer && room !in rest ==> RoomIsAcked(acks, buffer[room], interval, client))
  }

  lemma StretchIn(a: seq<AckRecord>, b: seq<AckRecord>, i: nat, j: nat)
    requires i <= j <= |a|
    ensures (a + b)[i..j] == a[i..j]
  {
  }

  lemma StretchStays(a: seq<AckRecord>, b: seq<AckRecord>, msgs: seq<Msg>, interval: int, client: bool)
    requires RoomIsAcked(a, msgs, interval, client)
    ensures RoomIsAcked(a + b, msgs, interval, client)
  {
    var i: nat, j: nat :| Stretch(a, i, j, msgs, interval, client);
    StretchIn(a, b, i, j);
    assert Stretch(a + b, i, j, msgs, interval, client);
  }

  lemma RoomsAckedMore(news: seq<AckRecord>, more: seq<AckRecord>, buffer: map<string, seq<Msg>>,
                       rest: map<string, seq<Msg>>, room: string, interval: int, client: bool)
    requires RoomsAcked(news, buffer, rest, interval, client)
    requires room in rest && AcksRoom(more, rest[room], interval, client)
    ensures RoomsAcked(news + more, buffer, rest - {room}, interval, client)
  {
    var all := news + more;
    forall r | r in buffer && r !in rest - {room} ensures RoomIsAcked(all, buffer[r], interval, client) {
      if r == room {
        assert all[|news|..|all|] == more;
        assert Stretch(all, |news|, |all|, buffer[r], interval, client);
      } else {
        StretchStays(news, more, buffer[r], interval, client);
      }
    }
  }

  lemma AckMoreRooms(news: seq<AckRecord>, more: seq<AckRecord>, rest: map<string, seq<Msg>>, room: string,
                     all: multiset<Msg>, client: bool, oracle: Oracle)
    requires Accounted(news, rest, all, client, oracle)
    requires room in rest && Acked(more) == multiset(rest[room]) && Truthful(more, client, oracle)
    ensures Accounted(news + more, rest - {room}, all, client, oracle)
  {
    AckedAppend(news, more);
    PoppedWithout(rest, room);
  }

  lemma AccountOpens(buffer: map<string, seq<Msg>>, client: bool, oracle: Oracle)
    ensures Accounted([], buffer, Popped(buffer), client, oracle)
  {
  }

  lemma AccountCloses(news: seq<AckRecord>, rest: map<string, seq<Msg>>, all: multiset<Msg>, client: bool,
                      oracle: Oracle)
    requires rest == map[] && Accounted(news, rest, all, client, oracle)
    ensures Acked(news) == all && Truthful(news, client, oracle)
  {
  }

  lemma AcksAssociate(a: seq<AckRecord>, b: seq<AckRecord>, c: seq<AckRecord>)
    ensures a + b + c == a + (b + c)
  {
  }

  lemma RoomIsDone(news: seq<AckRecord>, more: seq<AckRecord>, buffer: map<string, seq<Msg>>,
                   rest: map<string, seq<Msg>>, room: string, interval: int, client: bool, oracle: Oracle)
    requires room in rest && Accounted(news, rest, Popped(buffer), client, oracle)
    requires RoomsAcked(news, buffer, rest, interval, client)
    requires Acked(more) == multiset(rest[room]) && Truthful(more, client, oracle)
    requires AcksRoom(more, rest[room], interval, client)
    ensures Accounted(news + more, rest - {room}, Popped(buffer), client, oracle)
    ensures RoomsAcked(news + more, buffer, rest - {room}, interval, client)
  {
    AckMoreRooms(news, more, rest, room, Popped(buffer), client, oracle);
    RoomsAckedMore(news, more, buffer, rest, room, interval, client);
  }

  method ScanRoom(acker: Acker, ghost before: seq<AckRecord>, ghost news: seq<AckRecord>,
                  buffer: map<string, seq<Msg>>, rest: map<string, seq<Msg>>, room: string,
                  interval: int, client: bool, oracle: Oracle)
    returns (ghost grown: seq<AckRecord>)
    requires room in rest && Accounted(news, rest, Popped(buffer), client, oracle)
    requires RoomsAcked(news, buffer, rest, interval, client)
    requires acker.acks == before + news
    modifies acker
    ensures acker.acks == before + grown
    ensures Accounted(grown, rest - {room}, Popped(buffer), client, oracle)
    ensures RoomsAcked(grown, buffer, rest - {room}, interval, client)
  {
    ghost var more := ProcessChannelRoom(acker, rest[room], interval, client, oracle);
    RoomIsDone(news, more, buffer, rest, room, interval, client, oracle);
    grown := news + more;
    AcksAssociate(before, news, more);
  }

  /** Main result: one scan acknowledges every popped message exactly once, room by room in its time groups, whatever
      exit its room and group take, and says ok only for noise, a successful analysis or a usable fallback. */
  method ScanChannel(acker: Acker, buffer: map<string, seq<Msg>>, interval: int, client: bool, oracle: Oracle)
    returns (ghost news: seq<AckRecord>)
    modifies acker
    ensures acker.acks == old(acker.acks) + news
    ensures Acked(news) == Popped(buffer)
    ensures Truthful(news, client, oracle) && RoomsAcked(news, buffer, map[], interval, client)
  {
    var rest := buffer;
    news := [];
    AccountOpens(buffer, client, oracle);
    while rest != map[]
      invariant acker.acks == old(acker.acks) + news
      invariant Accounted(news, rest, Popped(buffer), client, oracle)
      invariant RoomsAcked(news, buffer, rest, interval, client)
      decreases |rest|
    {
      var room :| room in rest;
      news := ScanRoom(acker, old(acker.acks), news, buffer, rest, room, interval, client, oracle);
      rest := rest - {room};
    }
    AccountCloses(news, rest, Popped(buffer), client, oracle);
  }

  /** With distinct ids, no message is acknowledged by two groups. */
  lemma AckedOnce(acks: seq<AckRecord>, m: Msg, i: nat, j: nat)
    requires i < j < |acks| && m in acks[i].group && Acked(acks)[m] <= 1
    ensures m !in acks[j].group
  {
    AckedSplit(acks, j);
    AckedSplit(acks[..j], i);
  }

  lemma {:induction false} AckedSplit(acks: seq<AckRecord>, j: nat)
    requires j < |acks|
    ensures Acked(acks) == Acked(acks[..j]) + (multiset(acks[j].group) + Acked(acks[j + 1..]))
  {
    AckedFrom(acks, j);
    AckedAppend(acks[..j], acks[j..]);
    assert acks[..j] + acks[j..] == acks;
  }

  lemma {:induction false} AckedFrom(acks: seq<AckRecord>, j: nat)
    requires j < |acks|
    ensures Acked(acks[j..]) == multiset(acks[j].group) + Acked(acks[j + 1..])
  {
    AckedOne(acks[j]);
    AckedAppend([acks[j]], acks[j + 1..]);
    assert [acks[j]] + acks[j + 1..] == acks[j..];
  }
}
