/** Whole runs of the message buffer: what has been put into a chat is in the buffer, in exactly one
    pop result, or was cut; and a popped slice stays as it was whatever the buffer does next. */
module ChatBufferRuns {
  import opened ChatBuffers

  /** The operations that touch one chat; `after` is the arrangement the sort happened to choose. */
  datatype Event = Push(m: Msg) | Replay(raws: seq<Msg>, after: seq<Msg>) | Pop | Drop

  /** The chat's list with the history of what went in, what was popped and what was cut. */
  datatype State = State(buf: seq<Msg>, inserted: multiset<Msg>, popped: seq<seq<Msg>>, lost: multiset<Msg>)

  const EMPTY: State := State([], multiset{}, [], multiset{})

  ghost predicate Enabled(s: State, e: Event) {
    e.Replay? ==> ReplayResult(s.buf, e.raws, e.after)
  }

  function Step(s: State, e: Event): State {
    match e
    case Push(m) =>
      var after := Newest(s.buf + [m]);
      s.(buf := after, inserted := s.inserted + multiset{m}, lost := s.lost + (multiset(s.buf + [m]) - multiset(after)))
    case Replay(raws, after) =>
      var all := s.buf + Unseen(Ids(s.buf), raws);
      s.(buf := after, inserted := s.inserted + multiset(Unseen(Ids(s.buf), raws)),
         lost := s.lost + (multiset(all) - multiset(after)))
    case Pop => s.(buf := [], popped := s.popped + [s.buf])
    case Drop => s.(buf := [], lost := s.lost + multiset(s.buf))
  }

  ghost predicate Runs(s: State, events: seq<Event>, t: State)
    decreases |events|
  {
    if events == [] then s == t
    else Enabled(s, events[0]) && Runs(Step(s, events[0]), events[1..], t)
  }

  function Total(lists: seq<seq<Msg>>): multiset<Msg> {
    if lists == [] then multiset{} else Total(lists[..|lists| - 1]) + multiset(lists[|lists| - 1])
  }

  ghost predicate Conserved(s: State) {
    && |s.buf| <= CAP
    && s.inserted == multiset(s.buf) + Total(s.popped) + s.lost
  }

  /** What enters a list is kept or lost. */
  lemma KeptOrLost(before: seq<Msg>, added: seq<Msg>, after: seq<Msg>)
    requires multiset(after) <= multiset(before + added)
    ensures multiset(before) + multiset(added) == multiset(after) + (multiset(before + added) - multiset(after))
  {
    assert multiset(before + added) == multiset(before) + multiset(added);
  }

  lemma NewestIsPart(all: seq<Msg>)
    ensures multiset(Newest(all)) <= multiset(all)
  {
    assert all == all[..|all| - |Newest(all)|] + Newest(all);
  }

  lemma Rebalance(i: multiset<Msg>, b: multiset<Msg>, p: multiset<Msg>, l: multiset<Msg>,
                  added: multiset<Msg>, after: multiset<Msg>, cut: multiset<Msg>)
    requires i == b + p + l && b + added == after + cut
    ensures i + added == after + p + (l + cut)
  {
    calc {
      i + added;
      b + p + l + added;
      (b + added) + p + l;
      after + cut + p + l;
      after + p + (l + cut);
    }
  }

  /** A step that adds messages and cuts some keeps the account. */
  lemma AddingConserves(s: State, added: seq<Msg>, after: seq<Msg>)
    requires Conserved(s) && |after| <= CAP && multiset(after) <= multiset(s.buf + added)
    ensures Conserved(State(after, s.inserted + multiset(added), s.popped,
                            s.lost + (multiset(s.buf + added) - multiset(after))))
  {
    KeptOrLost(s.buf, added, after);
    var cut := multiset(s.buf + added) - multiset(after);
    Rebalance(s.inserted, multiset(s.buf), Total(s.popped), s.lost, multiset(added), multiset(after), cut);
  }

  lemma StepConserves(s: State, e: Event)
    requires Conserved(s) && Enabled(s, e)
    ensures Conserved(Step(s, e))
  {
    match e
    case Push(m) =>
      NewestIsPart(s.buf + [m]);
      assert multiset([m]) == multiset{m};
      AddingConserves(s, [m], Newest(s.buf + [m]));
    case Replay(raws, after) =>
      ReplayKeepsNewest(s.buf, raws, after);
      AddingConserves(s, Unseen(Ids(s.buf), raws), after);
    case Pop =>
      PopConserves(s);
    case Drop =>
  }

  lemma PopConserves(s: State)
    requires Conserved(s)
    ensures Conserved(Step(s, Pop))
  {
    assert (s.popped + [s.buf])[..|s.popped|] == s.popped;
  }

  /** Main result: over any run, every message put into the chat is accounted for exactly once. */
  lemma {:induction false} RunsConserve(s: State, events: seq<Event>, t: State)
    requires Conserved(s) && Runs(s, events, t)
    ensures Conserved(t)
    decreases |events|
  {
    if events != [] {
      StepConserves(s, events[0]);
      RunsConserve(Step(s, events[0]), events[1..], t);
    }
  }

  lemma {:induction false} TotalCounts(lists: seq<seq<Msg>>, m: Msg, i: nat, j: nat)
    requires i < j < |lists| && m in lists[i] && m in lists[j]
    ensures Total(lists)[m] >= 2
  {
    var n := |lists| - 1;
    if j < n {
      TotalCounts(lists[..n], m, i, j);
    } else {
      TotalCountsOne(lists[..n], m, i);
    }
  }

  lemma {:induction false} TotalCountsOne(lists: seq<seq<Msg>>, m: Msg, i: nat)
    requires i < |lists| && m in lists[i]
    ensures Total(lists)[m] >= 1
  {
    if i < |lists| - 1 { TotalCountsOne(lists[..|lists| - 1], m, i); }
  }

  /** A message put in once comes out of at most one pop, and not while it is still buffered. */
  lemma PoppedAtMostOnce(events: seq<Event>, t: State, m: Msg, i: nat, j: nat)
    requires Runs(EMPTY, events, t) && t.inserted[m] <= 1
    requires i < j < |t.popped|
    ensures !(m in t.popped[i] && m in t.popped[j])
    ensures !(m in t.popped[i] && m in t.buf)
  {
    RunsConserve(EMPTY, events, t);
    if m in t.popped[i] { TotalCountsOne(t.popped, m, i); }
    if m in t.popped[i] && m in t.popped[j] { TotalCounts(t.popped, m, i, j); }
  }

  function Pushes(ms: seq<Msg>): seq<Event> {
    if ms == [] then [] else [Push(ms[0])] + Pushes(ms[1..])
  }

  lemma NewestOfNewest(sofar: seq<Msg>, m: Msg)
    ensures Newest(Newest(sofar) + [m]) == Newest(sofar + [m])
  {
  }

  lemma {:induction false} PushesKeepNewest(s: State, ms: seq<Msg>, sofar: seq<Msg>, t: State)
    requires s.buf == Newest(sofar) && Runs(s, Pushes(ms), t)
    ensures t.buf == Newest(sofar + ms)
    decreases |ms|
  {
    if ms == [] {
      assert sofar + ms == sofar;
    } else {
      var s' := Step(s, Push(ms[0]));
      NewestOfNewest(sofar, ms[0]);
      assert Pushes(ms)[1..] == Pushes(ms[1..]);
      PushesKeepNewest(s', ms[1..], sofar + [ms[0]], t);
      assert ms == [ms[0]] + ms[1..];
      assert sofar + [ms[0]] + ms[1..] == sofar + ms;
    }
  }

  /** After a pop or a drop the list is the last min(n, 200) pushes in order, and only the pop handed over what was
      there before. */
  lemma BetweenPops(s: State, e: Event, ms: seq<Msg>, t: State)
    requires (e == Pop || e == Drop) && Runs(Step(s, e), Pushes(ms), t)
    ensures t.buf == Newest(ms)
    ensures t.popped == s.popped + if e == Pop then [s.buf] else []
  {
    FromEmpty(Step(s, e), ms, t);
  }

  lemma FromEmpty(s: State, ms: seq<Msg>, t: State)
    requires s.buf == [] && Runs(s, Pushes(ms), t)
    ensures t.buf == Newest(ms) && t.popped == s.popped
  {
    PushesKeepNewest(s, ms, [], t);
    assert [] + ms == ms;
    PushesPopNothing(s, ms, t);
  }

  lemma {:induction false} PushesPopNothing(s: State, ms: seq<Msg>, t: State)
    requires Runs(s, Pushes(ms), t)
    ensures t.popped == s.popped
    decreases |ms|
  {
    if ms != [] {
      assert Pushes(ms)[1..] == Pushes(ms[1..]);
      PushesPopNothing(Step(s, Push(ms[0])), ms[1..], t);
    }
  }

  // ---------- Popped slices ----------

  datatype Call =
    | CallBuffer(k: Key, m: Msg)
    | CallReplay(k: Key, raws: seq<Msg>)
    | CallPop(email: string)
    | CallDrop(email: string)

  /** Pops a user's chats and then makes any calls at all: the popped slices read as at the pop,
      although the buffer appends and sorts its own backing arrays in place. */
  method PopThenCall(b: ChatBuffer, email: string, calls: seq<Call>) returns (out: map<string, Slice>)
    requires b.Valid()
    modifies b, b.Arrays()
    ensures b.Valid()
    ensures forall c :: c in out ==> out[c].Valid() && out[c].View() == old(b.Contents(Key(email, c)))
  {
    out := b.Pop(email);
    for i := 0 to |calls|
      invariant b.Valid() && fresh(b.Arrays() - old(b.Arrays()))
      invariant forall c :: c in out ==> out[c].arr !in b.Arrays() && out[c].arr in old(b.Arrays())
      invariant forall c :: c in out ==> out[c].Valid() && out[c].View() == old(b.Contents(Key(email, c)))
    {
      Make(b, calls[i]);
    }
  }

  /** Any one call; the arrays it may write are the buffer's own. */
  method Make(b: ChatBuffer, call: Call)
    requires b.Valid()
    modifies b, b.Arrays()
    ensures b.Valid() && fresh(b.Arrays() - old(b.Arrays()))
  {
    match call
    case CallBuffer(k, m) => b.Buffer(k, m);
    case CallReplay(k, raws) => var added := b.Replay(k, raws);
    case CallPop(e) => var other := b.Pop(e);
    case CallDrop(e) => b.Drop(e);
  }
}
