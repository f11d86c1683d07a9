/** Folding the new tasks extracted from one message into a single item (scanner/channel_adapter.go),
    in front of a table that keeps one row per source_ts and drops later inserts silently. */
module TaskFolding {

  datatype Subtask = Subtask(task: string, assignee: string)

  datatype Item = Item(state: string, sourceTS: string, task: string, assignee: string, subtasks: seq<Subtask>)

  /** Title normaliser: lower-casing after trimming in the program, arbitrary here. */
  type Normalizer = string -> string

  predicate Foldable(it: Item) { it.state == "new" && it.sourceTS != "" }

  /** subtaskKeySet: the normalised title of an item and of each of its subtasks. */
  function KeySet(norm: Normalizer, it: Item): set<string> {
    {norm(it.task)} + set s | s in it.subtasks :: norm(s.task)
  }

  /** Position of the item that stands for source_ts `ts`, if any. */
  function Anchor(out: seq<Item>, ts: string): (i: nat)
    ensures i <= |out|
    ensures i < |out| ==> Foldable(out[i]) && out[i].sourceTS == ts
    ensures forall j :: 0 <= j < i ==> !(Foldable(out[j]) && out[j].sourceTS == ts)
  {
    if out == [] then 0
    else if Foldable(out[0]) && out[0].sourceTS == ts then 0
    else 1 + Anchor(out[1..], ts)
  }

  /** One turn of the loop, without the bookkeeping maps. */
  function Absorb(norm: Normalizer, out: seq<Item>, it: Item): seq<Item> {
    if !Foldable(it) then out + [it]
    else
      var i := Anchor(out, it.sourceTS);
      if i == |out| then out + [it]
      else if norm(it.task) == "" || norm(it.task) in KeySet(norm, out[i]) then out
      else out[i := out[i].(subtasks := out[i].subtasks + [Subtask(it.task, it.assignee)])]
  }

  function Fold(norm: Normalizer, items: seq<Item>): seq<Item> {
    if items == [] then []
    else Absorb(norm, Fold(norm, items[..|items| - 1]), items[|items| - 1])
  }

  lemma KeySetGrows(norm: Normalizer, it: Item, s: Subtask)
    ensures KeySet(norm, it.(subtasks := it.subtasks + [s])) == KeySet(norm, it) + {norm(s.task)}
  {
    var it' := it.(subtasks := it.subtasks + [s]);
    forall k ensures k in KeySet(norm, it') <==> k in KeySet(norm, it) + {norm(s.task)} {
      if k in KeySet(norm, it) && k != norm(it.task) {
        var x :| x in it.subtasks && norm(x.task) == k;
        assert x in it'.subtasks;
      }
      assert s in it'.subtasks;
    }
  }

  ghost predicate PlacesAre(out: seq<Item>, firstIdx: map<string, nat>) {
    && (forall ts :: ts in firstIdx <==> Anchor(out, ts) < |out|)
    && (forall ts :: ts in firstIdx ==> firstIdx[ts] == Anchor(out, ts))
  }

  ghost predicate SeenAre(norm: Normalizer, out: seq<Item>, seen: map<string, set<string>>) {
    forall ts :: ts in seen && Anchor(out, ts) < |out| ==> seen[ts] == KeySet(norm, out[Anchor(out, ts)])
  }

  /** What the two bookkeeping maps say about the output so far. */
  ghost predicate Indexed(norm: Normalizer, out: seq<Item>, firstIdx: map<string, nat>,
                          seen: map<string, set<string>>) {
    firstIdx.Keys == seen.Keys && PlacesAre(out, firstIdx) && SeenAre(norm, out, seen)
  }

  lemma PlacesAppend(out: seq<Item>, it: Item, firstIdx: map<string, nat>)
    requires PlacesAre(out, firstIdx)
    ensures !Foldable(it) ==> PlacesAre(out + [it], firstIdx)
    ensures Foldable(it) && it.sourceTS !in firstIdx ==> PlacesAre(out + [it], firstIdx[it.sourceTS := |out|])
  {
    AnchorAfterAppend(out, it);
  }

  lemma SeenStays(norm: Normalizer, out: seq<Item>, it: Item, seen: map<string, set<string>>)
    requires SeenAre(norm, out, seen) && forall ts :: ts in seen ==> Anchor(out, ts) < |out|
    ensures SeenAre(norm, out + [it], seen)
  {
    AnchorAfterAppend(out, it);
  }

  lemma SeenAppend(norm: Normalizer, out: seq<Item>, it: Item, seen: map<string, set<string>>)
    requires SeenAre(norm, out + [it], seen) && Anchor(out + [it], it.sourceTS) == |out|
    ensures SeenAre(norm, out + [it], seen[it.sourceTS := KeySet(norm, it)])
  {
    assert (out + [it])[|out|] == it;
  }

  lemma IndexedAppend(norm: Normalizer, out: seq<Item>, firstIdx: map<string, nat>, seen: map<string, set<string>>,
                      it: Item)
    requires Indexed(norm, out, firstIdx, seen)
    ensures !Foldable(it) ==> Indexed(norm, out + [it], firstIdx, seen)
    ensures Foldable(it) && it.sourceTS !in firstIdx ==>
      Indexed(norm, out + [it], firstIdx[it.sourceTS := |out|], seen[it.sourceTS := KeySet(norm, it)])
  {
    PlacesAppend(out, it, firstIdx);
    SeenStays(norm, out, it, seen);
    if Foldable(it) && it.sourceTS !in firstIdx {
      AnchorAfterAppend(out, it);
      SeenAppend(norm, out, it, seen);
    }
  }

  lemma IndexedUpdate(norm: Normalizer, out: seq<Item>, firstIdx: map<string, nat>, seen: map<string, set<string>>,
                      ts: string, s: Subtask)
    requires Indexed(norm, out, firstIdx, seen) && ts in firstIdx
    ensures var i := firstIdx[ts];
            && i < |out|
            && Indexed(norm, out[i := out[i].(subtasks := out[i].subtasks + [s])], firstIdx,
                       seen[ts := seen[ts] + {norm(s.task)}])
  {
    var i := firstIdx[ts];
    PlacesStay(out, i, out[i].(subtasks := out[i].subtasks + [s]), firstIdx);
    SeenUpdated(norm, out, seen, ts, s);
  }

  lemma PlacesStay(out: seq<Item>, i: nat, it: Item, firstIdx: map<string, nat>)
    requires PlacesAre(out, firstIdx) && i < |out| && it.state == out[i].state && it.sourceTS == out[i].sourceTS
    ensures PlacesAre(out[i := it], firstIdx)
  {
    AnchorAfterUpdate(out, i, it);
  }

  lemma SeenUpdated(norm: Normalizer, out: seq<Item>, seen: map<string, set<string>>, ts: string, s: Subtask)
    requires Anchor(out, ts) < |out| && ts in seen && SeenAre(norm, out, seen)
    ensures var i := Anchor(out, ts);
      SeenAre(norm, out[i := out[i].(subtasks := out[i].subtasks + [s])], seen[ts := seen[ts] + {norm(s.task)}])
  {
    var i := Anchor(out, ts);
    var it := out[i].(subtasks := out[i].subtasks + [s]);
    KeySetGrows(norm, out[i], s);
    AnchorAfterUpdate(out, i, it);
    UpdatedKeySets(norm, out, i, it, ts);
  }

  lemma UpdatedKeySets(norm: Normalizer, out: seq<Item>, i: nat, it: Item, ts: string)
    requires i < |out| && i == Anchor(out, ts)
    ensures forall t :: Anchor(out, t) < |out| ==>
      KeySet(norm, out[i := it][Anchor(out, t)]) == KeySet(norm, if t == ts then it else out[Anchor(out, t)])
  {
  }

  /** The loop of the program: index and key-set maps per source_ts, one output slice. */
  method FoldSameMessageNewItems(norm: Normalizer, items: seq<Item>) returns (out: seq<Item>)
    ensures out == Fold(norm, items)
  {
    var firstIdx: map<string, nat> := map[];
    var seen: map<string, set<string>> := map[];
    out := [];
    for n := 0 to |items|
      invariant out == Fold(norm, items[..n])
      invariant Indexed(norm, out, firstIdx, seen)
    {
      var item := items[n];
      assert items[..n + 1][..n] == items[..n];
      assert Fold(norm, items[..n + 1]) == Absorb(norm, out, item);
      var ts := item.sourceTS;
      if !Foldable(item) {
        IndexedAppend(norm, out, firstIdx, seen, item);
        out := out + [item];
      } else if ts !in firstIdx {
        IndexedAppend(norm, out, firstIdx, seen, item);
        firstIdx := firstIdx[ts := |out|];
        seen := seen[ts := KeySet(norm, item)];
        out := out + [item];
      } else {
        var key := norm(item.task);
        if key != "" && key !in seen[ts] {
          var s := Subtask(item.task, item.assignee);
          IndexedUpdate(norm, out, firstIdx, seen, ts, s);
          var i := firstIdx[ts];
          seen := seen[ts := seen[ts] + {key}];
          out := out[i := out[i].(subtasks := out[i].subtasks + [s])];
        }
      }
    }
    assert items[..|items|] == items;
  }

  lemma {:induction false} AnchorAfterAppend(out: seq<Item>, it: Item)
    ensures forall ts :: Anchor(out, ts) < |out| ==> Anchor(out + [it], ts) == Anchor(out, ts)
    ensures forall ts :: Anchor(out, ts) == |out| ==>
              Anchor(out + [it], ts) == if Foldable(it) && it.sourceTS == ts then |out| else |out| + 1
  {
    if out != [] {
      AnchorAfterAppend(out[1..], it);
      assert (out + [it])[1..] == out[1..] + [it];
    } else {
      assert (out + [it]) == [it] && [it][1..] == [];
    }
  }

  lemma {:induction false} AnchorAfterUpdate(out: seq<Item>, i: nat, it: Item)
    requires i < |out| && it.state == out[i].state && it.sourceTS == out[i].sourceTS
    ensures forall ts :: Anchor(out[i := it], ts) == Anchor(out, ts)
  {
    if i > 0 {
      AnchorAfterUpdate(out[1..], i - 1, it);
      assert out[i := it][1..] == out[1..][i - 1 := it];
    } else {
      assert out[0 := it][1..] == out[1..];
    }
  }

  // ---------- What folding guarantees ----------

  /** Anything but a new item of a known message. */
  predicate LeftAlone(it: Item) { it.state != "new" || it.sourceTS == "" }

  /** At most one new item per source_ts. */
  ghost predicate OnePerMessage(out: seq<Item>) {
    forall i, j :: 0 <= i < j < |out| && !LeftAlone(out[i]) && !LeftAlone(out[j]) ==>
      out[i].sourceTS != out[j].sourceTS
  }

  /** The item stands for the message of `it` and shows its ask. */
  ghost predicate Carries(norm: Normalizer, x: Item, it: Item) {
    Foldable(x) && x.sourceTS == it.sourceTS && norm(it.task) in KeySet(norm, x)
  }

  /** The ask `it` is still visible in `out`, as title or subtask of its message's item. */
  ghost predicate Survives(norm: Normalizer, it: Item, out: seq<Item>) {
    exists i: nat :: i < |out| && Carries(norm, out[i], it)
  }

  function Others(items: seq<Item>): seq<Item> {
    if items == [] then []
    else Others(items[..|items| - 1]) + (if LeftAlone(items[|items| - 1]) then [items[|items| - 1]] else [])
  }

  lemma OthersOfUpdate(out: seq<Item>, i: nat, it: Item)
    requires i < |out| && it.state == out[i].state && it.sourceTS == out[i].sourceTS && Foldable(it)
    ensures Others(out[i := it]) == Others(out)
  {
    var n := |out| - 1;
    if i < n {
      OthersOfUpdate(out[..n], i, it);
      assert out[i := it][..n] == out[..n][i := it];
    } else {
      assert out[i := it][..n] == out[..n];
    }
  }

  /** Main result: one "new" item per message, every non-blank ask of an input "new" item still
      there, and all other items untouched and in order. */
  lemma FoldConserves(norm: Normalizer, items: seq<Item>)
    ensures OnePerMessage(Fold(norm, items))
    ensures forall it :: it in items && Foldable(it) && norm(it.task) != "" ==> Survives(norm, it, Fold(norm, items))
    ensures Others(Fold(norm, items)) == Others(items)
  {
    FoldKeepsOthers(norm, items);
    forall it | it in items && Foldable(it) && norm(it.task) != "" ensures Survives(norm, it, Fold(norm, items)) {
      FoldKeepsAsk(norm, items, it);
    }
  }

  lemma {:induction false} FoldKeepsOthers(norm: Normalizer, items: seq<Item>)
    ensures OnePerMessage(Fold(norm, items))
    ensures Others(Fold(norm, items)) == Others(items)
  {
    if items != [] {
      FoldKeepsOthers(norm, items[..|items| - 1]);
      AbsorbKeepsOthers(norm, Fold(norm, items[..|items| - 1]), items[|items| - 1]);
      AbsorbKeepsOnePerMessage(norm, Fold(norm, items[..|items| - 1]), items[|items| - 1]);
    }
  }

  lemma {:induction false} FoldKeepsAsk(norm: Normalizer, items: seq<Item>, it: Item)
    requires it in items && Foldable(it) && norm(it.task) != ""
    ensures Survives(norm, it, Fold(norm, items))
  {
    var front, last := items[..|items| - 1], items[|items| - 1];
    assert items == front + [last];
    if it in front {
      FoldKeepsAsk(norm, front, it);
      AbsorbKeepsAsk(norm, Fold(norm, front), last, it);
    } else {
      AbsorbRecordsAsk(norm, Fold(norm, front), it);
    }
  }

  lemma AbsorbKeepsOthers(norm: Normalizer, out: seq<Item>, it: Item)
    ensures Others(Absorb(norm, out, it)) == Others(out) + (if Foldable(it) then [] else [it])
  {
    var i := Anchor(out, it.sourceTS);
    if Foldable(it) && i < |out| {
      OthersOfUpdate(out, i, out[i].(subtasks := out[i].subtasks + [Subtask(it.task, it.assignee)]));
    } else {
      assert (out + [it])[..|out|] == out;
    }
  }

  lemma AbsorbKeepsOnePerMessage(norm: Normalizer, out: seq<Item>, it: Item)
    requires OnePerMessage(out)
    ensures OnePerMessage(Absorb(norm, out, it))
  {
  }

  lemma AbsorbRecordsAsk(norm: Normalizer, out: seq<Item>, it: Item)
    requires Foldable(it) && norm(it.task) != ""
    ensures Survives(norm, it, Absorb(norm, out, it))
  {
    var out' := Absorb(norm, out, it);
    var i := Anchor(out, it.sourceTS);
    if i < |out| {
      KeySetGrows(norm, out[i], Subtask(it.task, it.assignee));
    } else {
      assert out'[|out|] == it;
    }
    assert Foldable(out'[i]) && out'[i].sourceTS == it.sourceTS && norm(it.task) in KeySet(norm, out'[i]);
  }

  lemma AbsorbKeepsAsk(norm: Normalizer, out: seq<Item>, it: Item, x: Item)
    requires Survives(norm, x, out)
    ensures Survives(norm, x, Absorb(norm, out, it))
  {
    var out' := Absorb(norm, out, it);
    var j: nat :| j < |out| && Carries(norm, out[j], x);
    var i := Anchor(out, it.sourceTS);
    if i < |out| { KeySetGrows(norm, out[i], Subtask(it.task, it.assignee)); }
    assert Carries(norm, out'[j], x);
  }

  /** The subtasks folding added to an item whose original list was `orig` are pairwise distinct,
      non-blank, and repeat neither the title nor an original subtask. */
  ghost predicate AddedDistinct(norm: Normalizer, orig: Item, it: Item) {
    && orig.subtasks <= it.subtasks && it == orig.(subtasks := it.subtasks)
    && (forall k :: |orig.subtasks| <= k < |it.subtasks| ==>
          && norm(it.subtasks[k].task) != "" && norm(it.subtasks[k].task) != norm(it.task)
          && forall l :: 0 <= l < k ==> norm(it.subtasks[l].task) != norm(it.subtasks[k].task))
  }

  /** Which input item each output item came from. */
  ghost predicate ComesFrom(norm: Normalizer, items: seq<Item>, origin: seq<nat>, out: seq<Item>) {
    && |origin| == |out|
    && (forall i :: 0 <= i < |origin| ==> origin[i] < |items| && AddedDistinct(norm, items[origin[i]], out[i]))
    && (forall i, j :: 0 <= i < j < |origin| ==> origin[i] < origin[j])
  }

  /** No earlier new item is of the same message. */
  ghost predicate OpensMessage(items: seq<Item>, n: nat) {
    n < |items| && forall l :: 0 <= l < n && Foldable(items[l]) ==> items[l].sourceTS != items[n].sourceTS
  }

  /** Input item n, of the message of `it`, is the first there to ask for `s`, and names its assignee. */
  ghost predicate AsksFor(norm: Normalizer, items: seq<Item>, n: nat, it: Item, s: Subtask) {
    && n < |items| && Foldable(items[n]) && items[n].sourceTS == it.sourceTS
    && s.task == items[n].task && s.assignee == items[n].assignee
    && (forall l :: 0 <= l < n && Foldable(items[l]) && items[l].sourceTS == it.sourceTS ==>
          norm(items[l].task) != norm(s.task))
  }

  ghost predicate IsAsked(norm: Normalizer, items: seq<Item>, it: Item, s: Subtask) {
    exists n: nat :: AsksFor(norm, items, n, it, s)
  }

  /** What was added to `it` beyond the subtasks of `orig` was asked for in the input. */
  ghost predicate AddedAreAsked(norm: Normalizer, items: seq<Item>, orig: Item, it: Item) {
    forall k :: |orig.subtasks| <= k < |it.subtasks| ==> IsAsked(norm, items, it, it.subtasks[k])
  }

  /** A new item of the output is its message's first, and whatever was added to it was asked for. */
  ghost predicate AsAsked(norm: Normalizer, items: seq<Item>, origin: seq<nat>, out: seq<Item>) {
    && |origin| == |out|
    && (forall i :: 0 <= i < |out| ==> origin[i] < |items| && AddedAreAsked(norm, items, items[origin[i]], out[i]))
    && (forall i :: 0 <= i < |out| && Foldable(out[i]) ==> OpensMessage(items, origin[i]))
  }

  lemma AskedStays(norm: Normalizer, items: seq<Item>, more: Item, it: Item, s: Subtask)
    requires IsAsked(norm, items, it, s)
    ensures IsAsked(norm, items + [more], it, s)
  {
    var n: nat :| AsksFor(norm, items, n, it, s);
    var all := items + [more];
    assert forall l :: 0 <= l <= n ==> all[l] == items[l];
    assert AsksFor(norm, all, n, it, s);
  }

  lemma AddedStay(norm: Normalizer, items: seq<Item>, more: Item, orig: Item, it: Item)
    requires AddedAreAsked(norm, items, orig, it)
    ensures AddedAreAsked(norm, items + [more], orig, it)
  {
    forall k | |orig.subtasks| <= k < |it.subtasks| ensures IsAsked(norm, items + [more], it, it.subtasks[k]) {
      AskedStays(norm, items, more, it, it.subtasks[k]);
    }
  }

  lemma AsAskedStays(norm: Normalizer, items: seq<Item>, more: Item, origin: seq<nat>, out: seq<Item>)
    requires AsAsked(norm, items, origin, out)
    ensures AsAsked(norm, items + [more], origin, out)
  {
    var all := items + [more];
    forall i | 0 <= i < |out|
      ensures AddedAreAsked(norm, all, all[origin[i]], out[i])
      ensures Foldable(out[i]) ==> OpensMessage(all, origin[i])
    {
      assert all[origin[i]] == items[origin[i]];
      AddedStay(norm, items, more, items[origin[i]], out[i]);
    }
  }

  /** Every message with a new item has one in the output. */
  lemma {:induction false} MessageIsThere(norm: Normalizer, items: seq<Item>, it: Item)
    requires it in items && Foldable(it)
    ensures Anchor(Fold(norm, items), it.sourceTS) < |Fold(norm, items)|
  {
    var front, last := items[..|items| - 1], items[|items| - 1];
    var out := Fold(norm, front);
    assert items == front + [last];
    AnchorAfterAppend(out, last);
    if it in front { MessageIsThere(norm, front, it); }
    var i := Anchor(out, last.sourceTS);
    if i < |out| {
      AnchorAfterUpdate(out, i, out[i].(subtasks := out[i].subtasks + [Subtask(last.task, last.assignee)]));
    }
  }

  /** An ask of the input shows in the item of its message. */
  lemma AskIsAtAnchor(norm: Normalizer, items: seq<Item>, it: Item)
    requires it in items && Foldable(it) && norm(it.task) != ""
    ensures var out := Fold(norm, items);
            var i := Anchor(out, it.sourceTS);
            i < |out| && norm(it.task) in KeySet(norm, out[i])
  {
    var out := Fold(norm, items);
    FoldKeepsOthers(norm, items);
    FoldKeepsAsk(norm, items, it);
    MessageIsThere(norm, items, it);
    var j: nat :| j < |out| && Carries(norm, out[j], it);
    CarrierIsAnchor(norm, out, j, it);
  }

  lemma CarrierIsAnchor(norm: Normalizer, out: seq<Item>, j: nat, it: Item)
    requires OnePerMessage(out) && j < |out| && Carries(norm, out[j], it) && Anchor(out, it.sourceTS) < |out|
    ensures Anchor(out, it.sourceTS) == j
  {
  }

  lemma NewAskIsFirst(norm: Normalizer, front: seq<Item>, it: Item, shown: Item)
    requires Foldable(it) && norm(it.task) != "" && shown.sourceTS == it.sourceTS
    requires var out := Fold(norm, front);
             var i := Anchor(out, it.sourceTS);
             i < |out| && norm(it.task) !in KeySet(norm, out[i])
    ensures IsAsked(norm, front + [it], shown, Subtask(it.task, it.assignee))
  {
    var all, n := front + [it], |front|;
    forall l | 0 <= l < n && Foldable(all[l]) && all[l].sourceTS == it.sourceTS
      ensures norm(all[l].task) != norm(it.task)
    {
      assert all[l] == front[l];
      if norm(front[l].task) != "" { AskIsAtAnchor(norm, front, front[l]); }
    }
    assert AsksFor(norm, all, n, shown, Subtask(it.task, it.assignee));
  }

  lemma AddOneAsked(norm: Normalizer, items: seq<Item>, orig: Item, it: Item, s: Subtask)
    requires AddedAreAsked(norm, items, orig, it) && IsAsked(norm, items, it, s)
    ensures AddedAreAsked(norm, items, orig, it.(subtasks := it.subtasks + [s]))
  {
    var it' := it.(subtasks := it.subtasks + [s]);
    forall k | |orig.subtasks| <= k < |it'.subtasks| ensures IsAsked(norm, items, it', it'.subtasks[k]) {
      assert IsAsked(norm, items, it, it'.subtasks[k]);
      var n: nat :| AsksFor(norm, items, n, it, it'.subtasks[k]);
      assert AsksFor(norm, items, n, it', it'.subtasks[k]);
    }
  }

  lemma NewItemOpensMessage(norm: Normalizer, front: seq<Item>, it: Item)
    requires Foldable(it) ==> Anchor(Fold(norm, front), it.sourceTS) == |Fold(norm, front)|
    ensures Foldable(it) ==> OpensMessage(front + [it], |front|)
  {
    forall l | Foldable(it) && 0 <= l < |front| && Foldable(front[l]) ensures front[l].sourceTS != it.sourceTS {
      MessageIsThere(norm, front, front[l]);
    }
  }

  lemma AddOneDistinct(norm: Normalizer, orig: Item, it: Item, s: Subtask)
    requires AddedDistinct(norm, orig, it) && norm(s.task) != "" && norm(s.task) !in KeySet(norm, it)
    ensures AddedDistinct(norm, orig, it.(subtasks := it.subtasks + [s]))
  {
    assert forall l :: 0 <= l < |it.subtasks| ==> it.subtasks[l] in it.subtasks;
  }

  lemma ComesFromStays(norm: Normalizer, items: seq<Item>, more: Item, origin: seq<nat>, out: seq<Item>)
    requires ComesFrom(norm, items, origin, out)
    ensures ComesFrom(norm, items + [more], origin, out)
  {
  }

  lemma ComesFromAppend(norm: Normalizer, items: seq<Item>, origin: seq<nat>, out: seq<Item>, it: Item)
    requires ComesFrom(norm, items, origin, out)
    ensures ComesFrom(norm, items + [it], origin + [|items|], out + [it])
  {
    ComesFromStays(norm, items, it, origin, out);
    assert AddedDistinct(norm, it, it);
  }

  lemma ComesFromUpdate(norm: Normalizer, items: seq<Item>, origin: seq<nat>, out: seq<Item>, i: nat, s: Subtask)
    requires ComesFrom(norm, items, origin, out) && i < |out|
    requires norm(s.task) != "" && norm(s.task) !in KeySet(norm, out[i])
    ensures ComesFrom(norm, items, origin, out[i := out[i].(subtasks := out[i].subtasks + [s])])
  {
    AddOneDistinct(norm, items[origin[i]], out[i], s);
  }

  /** An item that grows the output is its own origin. */
  function OriginAfter(origin: seq<nat>, n: nat, grows: bool): seq<nat> { if grows then origin + [n] else origin }

  lemma AbsorbComesFrom(norm: Normalizer, items: seq<Item>, origin: seq<nat>, out: seq<Item>, it: Item)
    requires ComesFrom(norm, items, origin, out)
    ensures var after := Absorb(norm, out, it);
            ComesFrom(norm, items + [it], OriginAfter(origin, |items|, |after| > |out|), after)
  {
    var i := Anchor(out, it.sourceTS);
    if !Foldable(it) || i == |out| {
      ComesFromAppend(norm, items, origin, out, it);
    } else {
      ComesFromStays(norm, items, it, origin, out);
      if norm(it.task) != "" && norm(it.task) !in KeySet(norm, out[i]) {
        ComesFromUpdate(norm, items + [it], origin, out, i, Subtask(it.task, it.assignee));
      }
    }
  }

  lemma AbsorbAsAsked(norm: Normalizer, front: seq<Item>, origin: seq<nat>, it: Item, origin': seq<nat>)
    requires AsAsked(norm, front, origin, Fold(norm, front))
    requires var out := Fold(norm, front);
             origin' == OriginAfter(origin, |front|, |Absorb(norm, out, it)| > |out|)
    ensures AsAsked(norm, front + [it], origin', Absorb(norm, Fold(norm, front), it))
  {
    var out := Fold(norm, front);
    var i := Anchor(out, it.sourceTS);
    AsAskedStays(norm, front, it, origin, out);
    if !Foldable(it) || i == |out| {
      NewItemOpensMessage(norm, front, it);
    } else if norm(it.task) != "" && norm(it.task) !in KeySet(norm, out[i]) {
      NewAskIsFirst(norm, front, it, out[i]);
      AddOneAsked(norm, front + [it], front[origin[i]], out[i], Subtask(it.task, it.assignee));
    }
  }

  lemma AbsorbOrigins(norm: Normalizer, front: seq<Item>, origin: seq<nat>, it: Item) returns (origin': seq<nat>)
    requires ComesFrom(norm, front, origin, Fold(norm, front)) && AsAsked(norm, front, origin, Fold(norm, front))
    ensures ComesFrom(norm, front + [it], origin', Absorb(norm, Fold(norm, front), it))
    ensures AsAsked(norm, front + [it], origin', Absorb(norm, Fold(norm, front), it))
  {
    var out := Fold(norm, front);
    origin' := OriginAfter(origin, |front|, |Absorb(norm, out, it)| > |out|);
    AbsorbComesFrom(norm, front, origin, out, it);
    AbsorbAsAsked(norm, front, origin, it, origin');
  }

  /** Main result: item by item, the output is the first item of each message with distinct
      subtasks appended, and every non-new item as it was. Each subtask that was added is, with its assignee, what
      the first item of that message to ask for it says. */
  lemma {:induction false} FoldOnlyAppendsDistinctSubtasks(norm: Normalizer, items: seq<Item>)
    returns (origin: seq<nat>)
    ensures ComesFrom(norm, items, origin, Fold(norm, items))
    ensures AsAsked(norm, items, origin, Fold(norm, items))
  {
    origin := [];
    if items != [] {
      var front, it := items[..|items| - 1], items[|items| - 1];
      var before := FoldOnlyAppendsDistinctSubtasks(norm, front);
      origin := AbsorbOrigins(norm, front, before, it);
      assert items == front + [it];
    }
  }

  lemma AbsorbFresh(norm: Normalizer, front: seq<Item>, it: Item)
    requires OnePerMessage(front + [it])
    ensures Absorb(norm, front, it) == front + [it] && OnePerMessage(front)
  {
    var items := front + [it];
    assert forall j :: 0 <= j < |front| ==> front[j] == items[j];
    assert items[|front|] == it;
  }

  lemma {:induction false} FoldOfFolded(norm: Normalizer, items: seq<Item>)
    requires OnePerMessage(items)
    ensures Fold(norm, items) == items
  {
    if items != [] {
      var front, it := items[..|items| - 1], items[|items| - 1];
      assert items == front + [it];
      AbsorbFresh(norm, front, it);
      FoldOfFolded(norm, front);
    }
  }

  /** Folding twice is folding once. */
  lemma FoldIsIdempotent(norm: Normalizer, items: seq<Item>)
    ensures Fold(norm, Fold(norm, items)) == Fold(norm, items)
  {
    FoldConserves(norm, items);
    FoldOfFolded(norm, Fold(norm, items));
  }

  // ---------- The table behind it ----------

  /** INSERT ... ON CONFLICT(user_email, source_ts) DO NOTHING, for one user's "new" items. */
  function InsertAll(table: map<string, Item>, items: seq<Item>): map<string, Item> {
    if items == [] then table
    else
      var t := InsertAll(table, items[..|items| - 1]);
      var it := items[|items| - 1];
      if !Foldable(it) || it.sourceTS in t then t else t[it.sourceTS := it]
  }

  ghost predicate Stored(norm: Normalizer, it: Item, table: map<string, Item>) {
    it.sourceTS in table && norm(it.task) in KeySet(norm, table[it.sourceTS])
  }

  lemma {:induction false} InsertAddsOnly(table: map<string, Item>, items: seq<Item>, ts: string)
    requires ts in InsertAll(table, items) && ts !in table
    ensures exists i :: 0 <= i < |items| && Foldable(items[i]) && items[i].sourceTS == ts
  {
    if items != [] {
      var front, n := items[..|items| - 1], |items| - 1;
      if ts in InsertAll(table, front) {
        InsertAddsOnly(table, front, ts);
        var i :| 0 <= i < |front| && Foldable(front[i]) && front[i].sourceTS == ts;
        assert items[i] == front[i];
      } else {
        assert Foldable(items[n]) && items[n].sourceTS == ts;
      }
    }
  }

  lemma {:induction false} InsertKeepsItem(table: map<string, Item>, items: seq<Item>, i: nat)
    requires OnePerMessage(items) && i < |items| && Foldable(items[i]) && items[i].sourceTS !in table
    ensures items[i].sourceTS in InsertAll(table, items) && InsertAll(table, items)[items[i].sourceTS] == items[i]
  {
    var front, n := items[..|items| - 1], |items| - 1;
    assert OnePerMessage(front);
    if i < n {
      InsertKeepsItem(table, front, i);
    } else if items[n].sourceTS in InsertAll(table, front) {
      InsertAddsOnly(table, front, items[n].sourceTS);
    }
  }

  lemma {:induction false} InsertKeepsOld(table: map<string, Item>, items: seq<Item>, ts: string)
    requires ts in table
    ensures ts in InsertAll(table, items) && InsertAll(table, items)[ts] == table[ts]
  {
    if items != [] { InsertKeepsOld(table, items[..|items| - 1], ts); }
  }

  /** Main result: inserted through the unique key, a folded batch keeps a non-blank ask if and only if its
      message had no row yet, or has one that records the same ask; so within one batch no ask is lost. */
  lemma FoldedInsertKeepsAskIff(norm: Normalizer, table: map<string, Item>, items: seq<Item>, it: Item)
    requires it in items && Foldable(it) && norm(it.task) != ""
    ensures Stored(norm, it, InsertAll(table, Fold(norm, items)))
       <==> it.sourceTS !in table || norm(it.task) in KeySet(norm, table[it.sourceTS])
  {
    var out := Fold(norm, items);
    if it.sourceTS in table {
      InsertKeepsOld(table, out, it.sourceTS);
    } else {
      FoldConserves(norm, items);
      assert Survives(norm, it, out);
      var i: nat :| i < |out| && Carries(norm, out[i], it);
      InsertKeepsItem(table, out, i);
    }
  }

  /** Without folding the second ask of a message is dropped by the unique key. */
  lemma UnfoldedInsertLosesAsk(norm: Normalizer, a: Item, b: Item)
    requires Foldable(a) && Foldable(b) && a.sourceTS == b.sourceTS && norm(b.task) !in KeySet(norm, a)
    ensures !Stored(norm, b, InsertAll(map[], [a, b]))
  {
    assert [a, b][..1] == [a] && [a][..0] == [];
    assert InsertAll(map[], [a]) == map[a.sourceTS := a];
  }
}
