/** The bounded per-chat message buffer (channels/msgbuffer.go): appending, replaying logged rows
    with deduplication and a re-sort, and draining. Chats are keyed by the pair (email, chat). */
module ChatBuffers {

  datatype Msg = Msg(id: string, time: int, text: string, isReplay: bool)

  datatype Key = Key(email: string, chat: string)

  const CAP: nat := 200

  // ---------- What the operations compute ----------

  function Newest(s: seq<Msg>): (r: seq<Msg>)
    ensures |r| <= CAP && (|s| <= CAP ==> r == s)
  {
    if |s| > CAP then s[|s| - CAP..] else s
  }

  function Ids(s: seq<Msg>): set<string> { set m | m in s :: m.id }

  /** The messages of `raws` that are new to `seen` and to the part of `raws` before them. */
  function Unseen(seen: set<string>, raws: seq<Msg>): seq<Msg>
    decreases raws
  {
    if raws == [] then []
    else if raws[0].id in seen then Unseen(seen, raws[1..])
    else [raws[0]] + Unseen(seen + {raws[0].id}, raws[1..])
  }

  ghost predicate SortedByTime(s: seq<Msg>) { forall i, j :: 0 <= i < j < |s| ==> s[i].time <= s[j].time }

  ghost predicate UniqueIds(s: seq<Msg>) { forall i, j :: 0 <= i < j < |s| ==> s[i].id != s[j].id }

  /** `merged` is some time-ordered arrangement of the buffer and the unseen replayed messages; the
      sort is not stable, so ties may fall either way. */
  ghost predicate Merges(before: seq<Msg>, raws: seq<Msg>, merged: seq<Msg>) {
    SortedByTime(merged) && multiset(merged) == multiset(before + Unseen(Ids(before), raws))
  }

  ghost predicate ReplayResult(before: seq<Msg>, raws: seq<Msg>, after: seq<Msg>) {
    if Unseen(Ids(before), raws) == [] then after == before
    else exists merged :: Merges(before, raws, merged) && after == Newest(merged)
  }

  // ---------- Properties of replay ----------

  lemma {:induction false} UnseenIsNew(seen: set<string>, raws: seq<Msg>)
    ensures forall m :: m in Unseen(seen, raws) ==> m in raws && m.id !in seen
    ensures forall m :: m in raws ==> m.id in seen || m.id in Ids(Unseen(seen, raws))
    ensures UniqueIds(Unseen(seen, raws))
    decreases raws
  {
    if raws != [] {
      var head, rest := raws[0], raws[1..];
      assert raws == [head] + rest;
      if head.id in seen {
        UnseenIsNew(seen, rest);
      } else {
        UnseenIsNew(seen + {head.id}, rest);
        var u := Unseen(seen + {head.id}, rest);
        assert forall m :: m in u ==> m in [head] + u;
        assert head in [head] + u;
        assert forall i :: 0 <= i < |u| ==> u[i] in u;
      }
    }
  }

  lemma OccursTwice(t: seq<Msg>, i: nat, j: nat)
    requires i < j < |t| && t[i] == t[j]
    ensures multiset(t)[t[i]] >= 2
  {
    assert t == t[..j] + t[j..];
    assert t[i] in t[..j] && t[i] in t[j..] by { assert t[..j][i] == t[i] && t[j..][0] == t[j]; }
  }

  lemma UniqueIdsByCount(s: seq<Msg>, t: seq<Msg>)
    requires UniqueIds(s) && multiset(s) == multiset(t)
    ensures UniqueIds(t)
  {
    forall i, j | 0 <= i < j < |t| ensures t[i].id != t[j].id {
      if t[i] == t[j] {
        OccursTwice(t, i, j);
        SingleOccurrence(s, t[i]);
        assert false;
      } else {
        assert t[i] in multiset(s) && t[j] in multiset(s);
        var a :| 0 <= a < |s| && s[a] == t[i];
        var b :| 0 <= b < |s| && s[b] == t[j];
      }
    }
  }

  lemma {:induction false} SingleOccurrence(s: seq<Msg>, m: Msg)
    requires UniqueIds(s)
    ensures multiset(s)[m] <= 1
  {
    if s != [] {
      SingleOccurrence(s[1..], m);
      assert s == [s[0]] + s[1..];
      if s[0] == m {
        assert forall i :: 0 <= i < |s[1..]| ==> s[1..][i] == s[i + 1];
        assert m !in s[1..];
      }
    }
  }

  lemma CutOrder(merged: seq<Msg>, cut: nat)
    requires SortedByTime(merged) && cut <= |merged|
    ensures multiset(merged[cut..]) <= multiset(merged)
    ensures forall m, k :: m in multiset(merged) - multiset(merged[cut..]) && k in merged[cut..] ==> m.time <= k.time
  {
    var older, newer := merged[..cut], merged[cut..];
    assert merged == older + newer;
    assert multiset(merged) == multiset(older) + multiset(newer);
    forall m, k | m in multiset(merged) - multiset(newer) && k in newer ensures m.time <= k.time {
      assert m in older;
    }
  }

  /** Keeping the newest of a sorted list drops nothing newer than anything kept. */
  lemma NewestDropsOldest(merged: seq<Msg>)
    requires SortedByTime(merged)
    ensures SortedByTime(Newest(merged)) && multiset(Newest(merged)) <= multiset(merged)
    ensures forall m, k :: m in multiset(merged) - multiset(Newest(merged)) && k in Newest(merged) ==> m.time <= k.time
    ensures UniqueIds(merged) ==> UniqueIds(Newest(merged))
  {
    var cut := |merged| - |Newest(merged)|;
    assert merged[cut..] == Newest(merged);
    CutOrder(merged, cut);
    SuffixKeeps(merged, cut);
  }

  lemma SuffixKeeps(merged: seq<Msg>, cut: nat)
    requires cut <= |merged|
    ensures SortedByTime(merged) ==> SortedByTime(merged[cut..])
    ensures UniqueIds(merged) ==> UniqueIds(merged[cut..])
  {
    assert forall i :: 0 <= i < |merged[cut..]| ==> merged[cut..][i] == merged[cut + i];
  }

  lemma UniqueAppend(s: seq<Msg>, t: seq<Msg>)
    requires UniqueIds(s) && UniqueIds(t) && forall m :: m in t ==> m.id !in Ids(s)
    ensures UniqueIds(s + t)
  {
    forall i, j | 0 <= i < j < |s + t| ensures (s + t)[i].id != (s + t)[j].id {
      if i < |s| <= j { assert s[i] in s && t[j - |s|] in t; }
    }
  }

  /** Main result: replay only adds, cuts the oldest, and keeps ids unique. */
  lemma ReplayKeepsNewest(before: seq<Msg>, raws: seq<Msg>, after: seq<Msg>)
    requires |before| <= CAP && ReplayResult(before, raws, after)
    ensures |after| <= CAP
    ensures Unseen(Ids(before), raws) != [] ==> SortedByTime(after)
    ensures var all := before + Unseen(Ids(before), raws);
            && multiset(after) <= multiset(all)
            && (if |all| <= CAP then multiset(after) == multiset(all) else |after| == CAP)
            && (forall m, k :: m in multiset(all) - multiset(after) && k in after ==> m.time <= k.time)
    ensures UniqueIds(before) ==> UniqueIds(after)
  {
    var u := Unseen(Ids(before), raws);
    var all := before + u;
    if u == [] {
      assert all == before;
    } else {
      var merged :| Merges(before, raws, merged) && after == Newest(merged);
      assert |merged| == |multiset(merged)| == |multiset(all)| == |all|;
      if UniqueIds(before) {
        UnseenIsNew(Ids(before), raws);
        UniqueAppend(before, u);
        UniqueIdsByCount(all, merged);
      }
      NewestDropsOldest(merged);
    }
  }

  lemma {:induction false} AllSeen(seen: set<string>, raws: seq<Msg>)
    ensures Unseen(seen, raws) == [] <==> forall m :: m in raws ==> m.id in seen
  {
    if raws != [] {
      assert raws == [raws[0]] + raws[1..];
      AllSeen(seen, raws[1..]);
    }
  }

  /** Main result: replaying the same rows again changes nothing, as long as nothing was cut. */
  lemma ReplayTwiceIsNoOp(before: seq<Msg>, raws: seq<Msg>, after: seq<Msg>, again: seq<Msg>)
    requires |before| <= CAP && |before| + |Unseen(Ids(before), raws)| <= CAP
    requires ReplayResult(before, raws, after) && ReplayResult(after, raws, again)
    ensures Unseen(Ids(after), raws) == [] && again == after
  {
    ReplayKeepsNewest(before, raws, after);
    UnseenIsNew(Ids(before), raws);
    var u := Unseen(Ids(before), raws);
    SameIds(before, u, after);
    AllSeen(Ids(after), raws);
  }

  lemma SameIds(before: seq<Msg>, u: seq<Msg>, after: seq<Msg>)
    requires multiset(after) == multiset(before + u)
    ensures Ids(after) == Ids(before) + Ids(u)
  {
    assert forall m :: m in after <==> m in multiset(before + u);
    assert forall m :: m in before + u <==> m in before || m in u;
  }

  // ---------- The buffer, with its slices ----------

  /** A Go slice: a window into a backing array that may have spare capacity behind it. */
  datatype Slice = Slice(arr: array<Msg>, off: nat, len: nat) {
    ghost predicate Valid() { off + len <= arr.Length }

    ghost function View(): (s: seq<Msg>)
      requires Valid()
      reads arr
      ensures |s| == len
    {
      arr[off..off + len]
    }
  }

  method Insert(r: seq<Msg>, m: Msg) returns (r': seq<Msg>)
    requires SortedByTime(r)
    ensures SortedByTime(r') && multiset(r') == multiset(r) + multiset{m}
  {
    var k := |r|;
    while k > 0 && r[k - 1].time > m.time
      invariant 0 <= k <= |r|
      invariant forall j :: k <= j < |r| ==> r[j].time > m.time
    {
      k := k - 1;
    }
    InsertAt(r, m, k);
    r' := r[..k] + [m] + r[k..];
  }

  lemma InsertAt(r: seq<Msg>, m: Msg, k: nat)
    requires SortedByTime(r) && k <= |r| && (k > 0 ==> r[k - 1].time <= m.time)
    requires forall j :: k <= j < |r| ==> r[j].time > m.time
    ensures SortedByTime(r[..k] + [m] + r[k..])
    ensures multiset(r[..k] + [m] + r[k..]) == multiset(r) + multiset{m}
  {
    var a, b := r[..k], r[k..];
    assert multiset(a + [m] + b) == multiset(r) + multiset{m} by {
      assert r == a + b;
      assert multiset(a + [m] + b) == multiset(a + [m]) + multiset(b);
    }
    InsertIsSorted(r, m, k);
  }

  lemma InsertIsSorted(r: seq<Msg>, m: Msg, k: nat)
    requires SortedByTime(r) && k <= |r| && (k > 0 ==> r[k - 1].time <= m.time)
    requires forall j :: k <= j < |r| ==> r[j].time > m.time
    ensures SortedByTime(r[..k] + [m] + r[k..])
  {
    var all := r[..k] + [m] + r[k..];
    forall i, j | 0 <= i < j < |all| ensures all[i].time <= all[j].time {
      if j <= k {
        assert all[i] == r[i] && r[i].time <= r[k - 1].time;
        assert j < k ==> all[j] == r[j];
      } else {
        assert all[j] == r[j - 1];
        assert i < k ==> all[i] == r[i];
        assert i > k ==> all[i] == r[i - 1];
      }
    }
  }

  /** Stands for the library sort: only order and permutation are promised. */
  method Sort(s: seq<Msg>) returns (r: seq<Msg>)
    ensures SortedByTime(r) && multiset(r) == multiset(s) && |r| == |s|
  {
    r := [];
    for i := 0 to |s|
      invariant SortedByTime(r) && multiset(r) == multiset(s[..i])
    {
      assert s[..i + 1] == s[..i] + [s[i]];
      r := Insert(r, s[i]);
    }
    assert s[..|s|] == s;
    assert |r| == |multiset(r)| == |multiset(s)|;
  }

  class ChatBuffer {
    var buf: map<Key, Slice>

    ghost function Arrays(): set<array<Msg>>
      reads this
    {
      set k | k in buf :: buf[k].arr
    }

    /** Every chat owns its own backing array. */
    ghost predicate Valid()
      reads this
    {
      && (forall k :: k in buf ==> buf[k].Valid() && buf[k].len <= CAP)
      && (forall k, l :: k in buf && l in buf && k != l ==> buf[k].arr != buf[l].arr)
    }

    ghost function Contents(k: Key): seq<Msg>
      requires Valid()
      reads this, Arrays()
    {
      if k in buf then buf[k].View() else []
    }

    constructor ()
      ensures Valid() && buf == map[]
    {
      buf := map[];
    }

    /** Go's append of one element: in place when there is capacity, else into a new array. */
    method Append(s: Slice, raw: Msg) returns (r: Slice)
      requires s.Valid()
      modifies s.arr
      ensures r.Valid() && r.View() == old(s.View()) + [raw] && r.len == s.len + 1
      ensures r.arr == s.arr || fresh(r.arr)
    {
      ghost var view := s.View();
      if s.off + s.len < s.arr.Length {
        s.arr[s.off + s.len] := raw;
        r := Slice(s.arr, s.off, s.len + 1);
        assert r.View() == view + [raw];
      } else {
        var grown := new Msg[2 * s.len + 1](_ => raw);
        forall i | 0 <= i < s.len { grown[i] := s.arr[s.off + i]; }
        r := Slice(grown, 0, s.len + 1);
        assert r.View() == view + [raw];
      }
    }

    method SliceOf(k: Key) returns (s: Slice)
      requires Valid()
      ensures s.Valid() && s.View() == Contents(k) && s.len <= CAP
      ensures if k in buf then s == buf[k] else fresh(s.arr)
    {
      if k in buf {
        s := buf[k];
      } else {
        var empty := new Msg[0];
        s := Slice(empty, 0, 0);
      }
    }

    /** Points the map entry of one chat at a slice whose array no other chat uses. */
    method Store(k: Key, s: Slice)
      requires Valid() && s.Valid() && s.len <= CAP
      requires forall l :: l in buf && l != k ==> buf[l].arr != s.arr
      modifies this
      ensures Valid() && buf == old(buf)[k := s]
      ensures Arrays() <= old(Arrays()) + {s.arr}
      ensures Contents(k) == s.View()
      ensures forall l :: l != k ==> Contents(l) == old(Contents(l))
    {
      buf := buf[k := s];
    }

    method AppendAndCut(s: Slice, raw: Msg) returns (ch: Slice)
      requires s.Valid() && s.len <= CAP
      modifies s.arr
      ensures ch.Valid() && ch.len <= CAP && (ch.arr == s.arr || fresh(ch.arr))
      ensures ch.View() == Newest(old(s.View()) + [raw])
    {
      ch := Append(s, raw);
      ch := Cut(ch);
    }

    /** buffer: append, then keep the newest 200. */
    method Buffer(k: Key, raw: Msg)
      requires Valid()
      modifies this, Arrays()
      ensures Valid() && fresh(Arrays() - old(Arrays()))
      ensures Contents(k) == Newest(old(Contents(k)) + [raw])
      ensures forall l :: l != k ==> Contents(l) == old(Contents(l))
    {
      var ch := SliceOf(k);
      ch := AppendAndCut(ch, raw);
      Store(k, ch);
    }

    method NonEmptyChats(email: string) returns (out: map<string, Slice>)
      requires Valid()
      ensures forall c :: c in out <==> Contents(Key(email, c)) != []
      ensures forall c :: c in out ==> Key(email, c) in buf && out[c] == buf[Key(email, c)]
    {
      var chats := set k | k in buf && k.email == email && buf[k].len > 0 :: k.chat;
      assert forall c :: c in chats ==> Key(email, c) in buf;
      out := map c | c in chats :: buf[Key(email, c)];
      forall c ensures c in out <==> Contents(Key(email, c)) != [] {
        var k := Key(email, c);
        assert k.chat == c;
      }
    }

    /** pop: hands over the non-empty slices of one user and forgets all of that user's chats. */
    method Pop(email: string) returns (out: map<string, Slice>)
      requires Valid()
      modifies this
      ensures Valid() && Arrays() <= old(Arrays())
      ensures forall c :: c in out <==> old(Contents(Key(email, c))) != []
      ensures forall c :: c in out ==> out[c].Valid() && out[c].View() == old(Contents(Key(email, c)))
      ensures forall c :: c in out ==> out[c].arr in old(Arrays()) && out[c].arr !in Arrays()
      ensures forall k :: Contents(k) == if k.email == email then [] else old(Contents(k))
    {
      out := NonEmptyChats(email);
      Drop(email);
    }

    method Drop(email: string)
      requires Valid()
      modifies this
      ensures Valid() && Arrays() <= old(Arrays())
      ensures forall k :: Contents(k) == if k.email == email then [] else old(Contents(k))
      ensures forall k :: k in buf <==> k in old(buf) && k.email != email
      ensures forall k :: k in buf ==> buf[k] == old(buf)[k]
    {
      buf := map k | k in buf && k.email != email :: buf[k];
    }

    /** The deduplicating append loop of replay. */
    method AppendUnseen(s: Slice, raws: seq<Msg>) returns (merged: Slice, added: nat)
      requires s.Valid()
      modifies s.arr
      ensures merged.Valid() && (merged.arr == s.arr || fresh(merged.arr))
      ensures merged.View() == old(s.View()) + Unseen(Ids(old(s.View())), raws)
      ensures merged.len == s.len + added
      ensures added == 0 ==> unchanged(s.arr)
    {
      ghost var before := s.View();
      merged, added := s, 0;
      var seen := Ids(s.arr[s.off..s.off + s.len]);
      assert raws[0..] == raws;
      for n := 0 to |raws|
        invariant merged.Valid() && (merged.arr == s.arr || fresh(merged.arr))
        invariant merged.len == s.len + added
        invariant added == 0 ==> unchanged(s.arr)
        invariant merged.View() + Unseen(seen, raws[n..]) == before + Unseen(Ids(before), raws)
      {
        assert raws[n..][0] == raws[n] && raws[n..][1..] == raws[n + 1..];
        ghost var view := merged.View();
        var raw := raws[n];
        if raw.id !in seen {
          seen := seen + {raw.id};
          merged := Append(merged, raw);
          added := added + 1;
          assert view + ([raw] + Unseen(seen, raws[n + 1..])) == merged.View() + Unseen(seen, raws[n + 1..]);
        }
      }
      assert merged.View() + [] == merged.View();
    }

    /** replay: append what is not there yet, sort by time in place, keep the newest 200. The count
        returned is that of the messages added before the cut. */
    method Replay(k: Key, raws: seq<Msg>) returns (added: nat)
      requires Valid()
      modifies this, Arrays()
      ensures Valid() && fresh(Arrays() - old(Arrays()))
      ensures added == |Unseen(Ids(old(Contents(k))), raws)|
      ensures ReplayResult(old(Contents(k)), raws, Contents(k))
      ensures forall l :: l != k ==> Contents(l) == old(Contents(l))
    {
      added := 0;
      if |raws| == 0 { return; }
      var merged := SliceOf(k);
      merged, added := ReplaySlice(merged, raws);
      if added == 0 { return; }
      Store(k, merged);
    }

    /** The appends, the sort and the cut of replay on the slice of one chat. */
    method ReplaySlice(s: Slice, raws: seq<Msg>) returns (r: Slice, added: nat)
      requires s.Valid() && s.len <= CAP
      modifies s.arr
      ensures r.Valid() && r.len <= CAP && (r.arr == s.arr || fresh(r.arr))
      ensures added == |Unseen(Ids(old(s.View())), raws)|
      ensures ReplayResult(old(s.View()), raws, r.View())
      ensures added == 0 ==> unchanged(s.arr)
    {
      ghost var before := s.View();
      r, added := AppendUnseen(s, raws);
      if added == 0 {
        r := s;
      } else {
        r := SortInPlace(r, before, raws);
      }
    }

    method Overwrite(s: Slice, values: seq<Msg>)
      requires s.Valid() && |values| == s.len
      modifies s.arr
      ensures s.View() == values
    {
      forall i | 0 <= i < s.len { s.arr[s.off + i] := values[i]; }
    }

    /** The in-place sort of the slice followed by the cut to the newest 200. */
    method SortInPlace(s: Slice, ghost before: seq<Msg>, ghost raws: seq<Msg>) returns (r: Slice)
      requires s.Valid() && s.View() == before + Unseen(Ids(before), raws)
      modifies s.arr
      ensures r.Valid() && r.arr == s.arr && r.len <= CAP
      ensures exists merged :: Merges(before, raws, merged) && r.View() == Newest(merged)
    {
      var sorted := Sort(s.arr[s.off..s.off + s.len]);
      assert Merges(before, raws, sorted);
      Overwrite(s, sorted);
      r := Cut(s);
    }

    method Cut(s: Slice) returns (r: Slice)
      requires s.Valid()
      ensures r.Valid() && r.arr == s.arr && r.len <= CAP && r.View() == Newest(s.View())
    {
      r := if s.len > CAP then Slice(s.arr, s.off + s.len - CAP, CAP) else s;
    }
  }
}
