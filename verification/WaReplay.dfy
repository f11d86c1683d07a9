/** Regrouping of logged WhatsApp rows for replay (scanner/wa_replay.go). */
module WaReplay {
  import opened ChatBuffers

  const PER_CHAT_MAX: nat := 149

  /** raw_json as far as replay cares: it parses to a message or it does not. */
  datatype Payload = Parsed(msg: Msg) | Malformed

  datatype Row = Row(messageId: string, chat: string, payload: Payload)

  /** The parsable rows of one chat in order, flagged as replayed. */
  function Parsable(rows: seq<Row>, chat: string): seq<Msg> {
    if rows == [] then []
    else
      var r := rows[|rows| - 1];
      Parsable(rows[..|rows| - 1], chat) +
      (if r.payload.Parsed? && r.chat == chat then [r.payload.msg.(isReplay := true)] else [])
  }

  function MalformedIds(rows: seq<Row>): seq<string> {
    if rows == [] then []
    else
      var r := rows[|rows| - 1];
      MalformedIds(rows[..|rows| - 1]) + (if r.payload.Malformed? then [r.messageId] else [])
  }

  function Oldest(msgs: seq<Msg>): seq<Msg> {
    if |msgs| > PER_CHAT_MAX then msgs[..PER_CHAT_MAX] else msgs
  }

  /** Number of messages over all chats. */
  ghost function Total(byChat: map<string, seq<Msg>>): nat
    decreases |byChat|
  {
    if byChat == map[] then 0
    else
      var c :| c in byChat;
      |byChat[c]| + Total(byChat - {c})
  }

  lemma {:induction false} TotalWithout(byChat: map<string, seq<Msg>>, c: string)
    requires c in byChat
    ensures Total(byChat) == |byChat[c]| + Total(byChat - {c})
    decreases |byChat|
  {
    var d :| d in byChat && Total(byChat) == |byChat[d]| + Total(byChat - {d});
    if d != c {
      TotalWithout(byChat - {d}, c);
      TotalWithout(byChat - {c}, d);
      assert byChat - {d} - {c} == byChat - {c} - {d};
    }
  }

  lemma TotalAppend(byChat: map<string, seq<Msg>>, c: string, m: Msg)
    ensures Total(byChat[c := (if c in byChat then byChat[c] else []) + [m]]) == Total(byChat) + 1
  {
    var byChat' := byChat[c := (if c in byChat then byChat[c] else []) + [m]];
    TotalWithout(byChat', c);
    assert byChat' - {c} == byChat - {c};
    if c in byChat { TotalWithout(byChat, c); } else { assert byChat - {c} == byChat; }
  }

  ghost predicate GroupedAt(rows: seq<Row>, byChat: map<string, seq<Msg>>, c: string) {
    && (c in byChat <==> Parsable(rows, c) != [])
    && (c in byChat ==> byChat[c] == Oldest(Parsable(rows, c)))
  }

  ghost predicate Grouped(rows: seq<Row>, byChat: map<string, seq<Msg>>) {
    forall c :: GroupedAt(rows, byChat, c)
  }

  lemma OldestAppend(p: seq<Msg>, m: Msg)
    ensures Oldest(p + [m]) == if |Oldest(p)| >= PER_CHAT_MAX then Oldest(p) else Oldest(p) + [m]
  {
  }

  lemma ParsableStep(rows: seq<Row>, row: Row, c: string)
    ensures Parsable(rows + [row], c) ==
      Parsable(rows, c) + (if row.payload.Parsed? && row.chat == c then [row.payload.msg.(isReplay := true)] else [])
  {
    assert (rows + [row])[..|rows|] == rows;
  }

  lemma GroupedStep(rows: seq<Row>, byChat: map<string, seq<Msg>>, row: Row)
    requires Grouped(rows, byChat)
    ensures var kept := if row.chat in byChat then byChat[row.chat] else [];
            if row.payload.Malformed? || |kept| >= PER_CHAT_MAX then Grouped(rows + [row], byChat)
            else Grouped(rows + [row], byChat[row.chat := kept + [row.payload.msg.(isReplay := true)]])
  {
    var kept := if row.chat in byChat then byChat[row.chat] else [];
    var full := row.payload.Malformed? || |kept| >= PER_CHAT_MAX;
    var byChat' := if full then byChat else byChat[row.chat := kept + [row.payload.msg.(isReplay := true)]];
    forall c ensures GroupedAt(rows + [row], byChat', c) {
      assert GroupedAt(rows, byChat, c);
      ParsableStep(rows, row, c);
      if row.payload.Parsed? { OldestAppend(Parsable(rows, c), row.payload.msg.(isReplay := true)); }
    }
  }

  lemma MalformedStep(rows: seq<Row>, row: Row)
    ensures MalformedIds(rows + [row]) == MalformedIds(rows) + (if row.payload.Malformed? then [row.messageId] else [])
  {
    assert (rows + [row])[..|rows|] == rows;
  }

  /** Each chat keeps its oldest 149 parsable rows, malformed ids are reported, the rest is counted. */
  method GroupReplayableByChat(rows: seq<Row>)
    returns (byChat: map<string, seq<Msg>>, malformed: seq<string>, deferred: nat)
    ensures Grouped(rows, byChat)
    ensures malformed == MalformedIds(rows)
    ensures |malformed| + deferred + Total(byChat) == |rows|
    ensures forall c :: c in byChat ==> 0 < |byChat[c]| <= PER_CHAT_MAX
  {
    byChat, malformed, deferred := map[], [], 0;
    for i := 0 to |rows|
      invariant Grouped(rows[..i], byChat)
      invariant malformed == MalformedIds(rows[..i])
      invariant |malformed| + deferred + Total(byChat) == i
    {
      var row := rows[i];
      assert rows[..i + 1] == rows[..i] + [row];
      GroupedStep(rows[..i], byChat, row);
      MalformedStep(rows[..i], row);
      if row.payload.Malformed? {
        malformed := malformed + [row.messageId];
        continue;
      }
      var kept := if row.chat in byChat then byChat[row.chat] else [];
      if |kept| >= PER_CHAT_MAX {
        deferred := deferred + 1;
        continue;
      }
      var raw := row.payload.msg.(isReplay := true);
      TotalAppend(byChat, row.chat, raw);
      byChat := byChat[row.chat := kept + [raw]];
    }
    assert rows[..|rows|] == rows;
    forall c | c in byChat ensures 0 < |byChat[c]| <= PER_CHAT_MAX { assert GroupedAt(rows, byChat, c); }
  }

  lemma {:induction false} ParsableIsFlagged(rows: seq<Row>, chat: string)
    ensures forall m :: m in Parsable(rows, chat) ==> m.isReplay
  {
    if rows != [] { ParsableIsFlagged(rows[..|rows| - 1], chat); }
  }

  lemma {:induction false} AllUnseen(seen: set<string>, raws: seq<Msg>)
    requires UniqueIds(raws) && forall m :: m in raws ==> m.id !in seen
    ensures Unseen(seen, raws) == raws
    decreases raws
  {
    if raws != [] {
      var rest := raws[1..];
      assert raws == [raws[0]] + rest;
      assert forall i :: 0 <= i < |rest| ==> rest[i] == raws[i + 1];
      AllUnseen(seen + {raws[0].id}, rest);
    }
  }

  /** Main result: what a cycle keeps for a chat fits an empty buffer entirely, in time order. */
  lemma KeptFitsEmptyBuffer(rows: seq<Row>, chat: string, after: seq<Msg>)
    requires UniqueIds(Oldest(Parsable(rows, chat)))
    requires ReplayResult([], Oldest(Parsable(rows, chat)), after)
    ensures multiset(after) == multiset(Oldest(Parsable(rows, chat)))
    ensures SortedByTime(after) && forall m :: m in after ==> m.isReplay
  {
    var kept := Oldest(Parsable(rows, chat));
    IntoEmpty(kept, after);
    ParsableIsFlagged(rows, chat);
    forall m | m in after ensures m.isReplay {
      assert m in multiset(kept);
    }
  }

  lemma IntoEmpty(kept: seq<Msg>, after: seq<Msg>)
    requires UniqueIds(kept) && |kept| <= CAP && ReplayResult([], kept, after)
    ensures multiset(after) == multiset(kept) && SortedByTime(after)
  {
    assert Ids([]) == {};
    AllUnseen({}, kept);
    assert [] + kept == kept;
    ReplayKeepsNewest([], kept, after);
  }
}
