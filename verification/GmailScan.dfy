/** One Gmail scan (channels/gmail_scan.go): list, fetch, filter, deduplicate, gate, analyse in
    batches of ten, and move the inbox cursor only when nothing listed was left behind. */
module GmailScan {

  datatype Classification = Sent | Mine | Others | Other

  /** A listed mail with everything the outside world will say about it in this scan. */
  datatype Mail = Mail(
    id: string, ts: nat, getFails: bool,
    marketing: bool, selfBulk: bool, systemOrigin: bool, skipSender: bool,
    addressed: bool, inInbox: bool, emptyBody: bool,
    envelope: string, cls: Classification, noise: bool, noiseErr: bool, completes: bool)

  type Analyzer = seq<Mail> -> bool

  const BATCH_SIZE: nat := 10

  /** The collaborators of a scan: the thread hook, the analysis of a batch, whether client and
      filter are wired, whether the user was found. */
  datatype World = World(hooked: bool, analyzer: Analyzer, wired: bool, userFound: bool)

  function Ids(mails: seq<Mail>): set<string> { set m | m in mails :: m.id }

  ghost predicate DistinctIds(mails: seq<Mail>) {
    forall i, j :: 0 <= i < j < |mails| ==> mails[i].id != mails[j].id
  }

  // ---------- Which mails each stage lets through ----------

  /** The exits of processSingleEmail that mark the mail processed. */
  predicate Filtered(m: Mail) {
    || m.marketing || m.selfBulk || m.systemOrigin || m.skipSender
    || (!m.addressed && !m.inInbox) || m.emptyBody
  }

  predicate ThreadHandled(m: Mail, hooked: bool) { hooked && m.cls != Other && m.completes }

  predicate Gated(m: Mail, hooked: bool) { (m.noise && !m.noiseErr) || ThreadHandled(m, hooked) }

  /** Ids that the single-mail filters mark. */
  function FilteredIds(mails: seq<Mail>, done: set<string>): set<string> {
    if mails == [] then {}
    else
      var m := mails[|mails| - 1];
      FilteredIds(mails[..|mails| - 1], done) + (if m.id !in done && !m.getFails && Filtered(m) then {m.id} else {})
  }

  /** Neither processed before the scan nor marked while the mails in front of it were read. */
  predicate Unread(m: Mail, front: seq<Mail>, done: set<string>) { m.id !in done + FilteredIds(front, done) }

  function Fetched(mails: seq<Mail>, done: set<string>): seq<Mail> {
    if mails == [] then []
    else
      var front, m := mails[..|mails| - 1], mails[|mails| - 1];
      Fetched(front, done) + (if Unread(m, front, done) && !m.getFails && !Filtered(m) then [m] else [])
  }

  predicate AllFetched(mails: seq<Mail>, done: set<string>) {
    mails == [] ||
      var front, m := mails[..|mails| - 1], mails[|mails| - 1];
      AllFetched(front, done) && (Unread(m, front, done) ==> !m.getFails)
  }

  /** The newest internal date among the mails fetched in this scan, 0 if none. */
  function NewestFetched(mails: seq<Mail>, done: set<string>): nat {
    if mails == [] then 0
    else
      var front, m := mails[..|mails| - 1], mails[|mails| - 1];
      var rest := NewestFetched(front, done);
      if Unread(m, front, done) && !m.getFails && m.ts > rest then m.ts else rest
  }

  function Envelopes(mails: seq<Mail>): set<string> { set m | m in mails && m.envelope != "" :: m.envelope }

  function Deduped(mails: seq<Mail>): seq<Mail> {
    if mails == [] then []
    else
      var front, m := mails[..|mails| - 1], mails[|mails| - 1];
      Deduped(front) + (if m.envelope == "" || m.envelope !in Envelopes(Deduped(front)) then [m] else [])
  }

  /** Ids that deduplication marks: mails whose envelope was met before. */
  function Again(mails: seq<Mail>): set<string> {
    if mails == [] then {}
    else
      var front, m := mails[..|mails| - 1], mails[|mails| - 1];
      Again(front) + (if m.envelope == "" || m.envelope !in Envelopes(Deduped(front)) then {} else {m.id})
  }

  /** Ids that the gate in front of the analysis marks. */
  function GatedIds(mails: seq<Mail>, hooked: bool): set<string> {
    if mails == [] then {}
    else
      var m := mails[|mails| - 1];
      GatedIds(mails[..|mails| - 1], hooked) + (if Gated(m, hooked) then {m.id} else {})
  }

  function Ungated(mails: seq<Mail>, hooked: bool): seq<Mail> {
    if mails == [] then []
    else
      var m := mails[|mails| - 1];
      Ungated(mails[..|mails| - 1], hooked) + (if Gated(m, hooked) then [] else [m])
  }

  /** The batch needs no analysis or its analysis succeeds. */
  predicate BatchOk(batch: seq<Mail>, w: World) {
    Ungated(batch, w.hooked) == [] || w.analyzer(Ungated(batch, w.hooked))
  }

  predicate BatchesOk(mails: seq<Mail>, w: World) {
    mails == [] ||
      if |mails| <= BATCH_SIZE then BatchOk(mails, w)
      else BatchOk(mails[..BATCH_SIZE], w) && BatchesOk(mails[BATCH_SIZE..], w)
  }

  /** Ids that a batch marks: all of it, or what the gate marks when the analysis of the rest fails. */
  function BatchMarks(batch: seq<Mail>, w: World): set<string> {
    if BatchOk(batch, w) then Ids(batch) else GatedIds(batch, w.hooked)
  }

  function AllMarks(mails: seq<Mail>, w: World): set<string> {
    if mails == [] then {}
    else if |mails| <= BATCH_SIZE then BatchMarks(mails, w)
    else BatchMarks(mails[..BATCH_SIZE], w) + AllMarks(mails[BATCH_SIZE..], w)
  }

  /** Ids that a scan marks. */
  function ScanMarks(listed: seq<Mail>, done: set<string>, w: World): set<string> {
    var raw := Fetched(listed, done);
    FilteredIds(listed, done) + if w.wired && w.userFound then Again(raw) + AllMarks(Deduped(raw), w) else {}
  }

  /** Listing, fetching and analysis all went through. */
  predicate ScanClean(listed: seq<Mail>, fetchOK: bool, done: set<string>, w: World) {
    var raw := Fetched(listed, done);
    && fetchOK && AllFetched(listed, done)
    && (raw == [] || (w.wired && w.userFound && BatchesOk(Deduped(raw), w)))
  }

  lemma IdsAppend(mails: seq<Mail>, m: Mail)
    ensures Ids(mails + [m]) == Ids(mails) + {m.id}
  {
    assert forall x :: x in mails + [m] <==> x in mails || x == m;
  }

  lemma DistinctTail(front: seq<Mail>, m: Mail)
    requires DistinctIds(front + [m])
    ensures DistinctIds(front) && m.id !in Ids(front)
  {
    var all := front + [m];
    assert forall i :: 0 <= i < |front| ==> all[i] == front[i];
    assert all[|front|] == m;
  }

  lemma DistinctAppend(front: seq<Mail>, m: Mail)
    requires DistinctIds(front) && m.id !in Ids(front)
    ensures DistinctIds(front + [m])
  {
    assert forall x :: x in front ==> x.id in Ids(front);
  }

  lemma EnvelopesAppend(mails: seq<Mail>, m: Mail)
    ensures Envelopes(mails + [m]) == Envelopes(mails) + if m.envelope == "" then {} else {m.envelope}
  {
    assert forall x :: x in mails + [m] <==> x in mails || x == m;
  }

  /** Deduplication hands on or marks every mail. */
  lemma {:induction false} DedupedIds(mails: seq<Mail>)
    ensures Again(mails) + Ids(Deduped(mails)) == Ids(mails)
  {
    if mails != [] {
      var front, m := mails[..|mails| - 1], mails[|mails| - 1];
      assert mails == front + [m];
      DedupedIds(front);
      IdsAppend(front, m);
      IdsAppend(Deduped(front), m);
    }
  }

  /** It does both to none if no mail is named twice. */
  lemma {:induction false} DedupedApart(mails: seq<Mail>)
    requires DistinctIds(mails)
    ensures DistinctIds(Deduped(mails)) && Again(mails) !! Ids(Deduped(mails))
  {
    if mails != [] {
      var front, m := mails[..|mails| - 1], mails[|mails| - 1];
      assert mails == front + [m];
      DistinctTail(front, m);
      DedupedApart(front);
      DedupedIds(front);
      DistinctAppend(Deduped(front), m);
      IdsAppend(Deduped(front), m);
    }
  }

  /** Deduplication keeps one mail of every envelope. */
  lemma {:induction false} DedupedKeepsEnvelopes(mails: seq<Mail>)
    ensures Envelopes(Deduped(mails)) == Envelopes(mails)
  {
    if mails != [] {
      var front, m := mails[..|mails| - 1], mails[|mails| - 1];
      assert mails == front + [m];
      DedupedKeepsEnvelopes(front);
      EnvelopesAppend(front, m);
      EnvelopesAppend(Deduped(front), m);
    }
  }

  /** The gate passes or marks every mail. */
  lemma {:induction false} UngatedIds(mails: seq<Mail>, hooked: bool)
    ensures GatedIds(mails, hooked) + Ids(Ungated(mails, hooked)) == Ids(mails)
  {
    if mails != [] {
      var front, m := mails[..|mails| - 1], mails[|mails| - 1];
      assert mails == front + [m];
      UngatedIds(front, hooked);
      IdsAppend(front, m);
      IdsAppend(Ungated(front, hooked), m);
    }
  }

  /** What passes the gate, in terms of the mail: a noise verdict without an error and a completed thread do not. */
  lemma {:induction false} UngatedIff(mails: seq<Mail>, hooked: bool, m: Mail)
    ensures m in Ungated(mails, hooked) <==>
      m in mails && (m.noiseErr || !m.noise) && !(hooked && m.completes && m.cls in {Sent, Mine, Others})
    ensures m in mails && m !in Ungated(mails, hooked) ==> m.id in GatedIds(mails, hooked)
  {
    if mails != [] {
      var front, last := mails[..|mails| - 1], mails[|mails| - 1];
      assert mails == front + [last];
      UngatedIff(front, hooked, m);
    }
  }

  /** It does both to none if no mail is named twice. */
  lemma {:induction false} UngatedApart(mails: seq<Mail>, hooked: bool)
    requires DistinctIds(mails)
    ensures DistinctIds(Ungated(mails, hooked)) && GatedIds(mails, hooked) !! Ids(Ungated(mails, hooked))
  {
    if mails != [] {
      var front, m := mails[..|mails| - 1], mails[|mails| - 1];
      assert mails == front + [m];
      DistinctTail(front, m);
      UngatedApart(front, hooked);
      UngatedIds(front, hooked);
      DistinctAppend(Ungated(front, hooked), m);
      IdsAppend(Ungated(front, hooked), m);
    }
  }

  // ---------- Mails that a listing names twice ----------

  /** The first of its envelope, or without one. */
  predicate Fresh(mails: seq<Mail>, i: nat)
    requires i < |mails|
  {
    mails[i].envelope == "" || mails[i].envelope !in Envelopes(mails[..i])
  }

  ghost predicate NamedFresh(mails: seq<Mail>, id: string) {
    exists i: nat :: i < |mails| && mails[i].id == id && Fresh(mails, i)
  }

  ghost predicate NamedStale(mails: seq<Mail>, id: string) {
    exists i: nat :: i < |mails| && mails[i].id == id && !Fresh(mails, i)
  }

  lemma NamedAppend(front: seq<Mail>, m: Mail, id: string)
    ensures var isNew := m.envelope == "" || m.envelope !in Envelopes(front);
      && (NamedFresh(front + [m], id) <==> NamedFresh(front, id) || (m.id == id && isNew))
      && (NamedStale(front + [m], id) <==> NamedStale(front, id) || (m.id == id && !isNew))
  {
    var all := front + [m];
    assert all[..|front|] == front && all[|front|] == m;
    forall i: nat | i < |front| ensures all[i] == front[i] && (Fresh(all, i) <==> Fresh(front, i)) {
      assert all[..i] == front[..i];
    }
    if NamedFresh(front, id) {
      var i: nat :| i < |front| && front[i].id == id && Fresh(front, i);
      assert Fresh(all, i);
    }
    if NamedStale(front, id) {
      var i: nat :| i < |front| && front[i].id == id && !Fresh(front, i);
      assert !Fresh(all, i);
    }
    assert Fresh(all, |front|) <==> m.envelope == "" || m.envelope !in Envelopes(front);
  }

  lemma {:induction false} DedupByPlace(mails: seq<Mail>, id: string)
    ensures id in Ids(Deduped(mails)) <==> NamedFresh(mails, id)
    ensures id in Again(mails) <==> NamedStale(mails, id)
  {
    if mails != [] {
      var front, m := mails[..|mails| - 1], mails[|mails| - 1];
      assert mails == front + [m];
      DedupByPlace(front, id);
      DedupedKeepsEnvelopes(front);
      NamedAppend(front, m, id);
      IdsAppend(Deduped(front), m);
    }
  }

  /** A mail has one text, hence one envelope. */
  ghost predicate OneText(mails: seq<Mail>) {
    forall i, j :: 0 <= i < |mails| && 0 <= j < |mails| && mails[i].id == mails[j].id ==>
      mails[i].envelope == mails[j].envelope
  }

  /** The list names the mail again after the place where its envelope was new. */
  ghost predicate NamedAgain(mails: seq<Mail>, id: string) {
    exists i: nat, j: nat :: i < j < |mails| && mails[i].id == id && mails[j].id == id
                             && mails[i].envelope != "" && Fresh(mails, i)
  }

  lemma NamedAgainIs(mails: seq<Mail>, id: string, i: nat, j: nat)
    requires OneText(mails) && i < |mails| && j < |mails| && mails[i].id == id && mails[j].id == id
    requires Fresh(mails, i)
    ensures !Fresh(mails, j) ==> mails[i].envelope != "" && i < j
    ensures mails[i].envelope != "" && i < j ==> !Fresh(mails, j)
  {
    assert mails[i].envelope == mails[j].envelope;
    assert forall k: nat :: k < i ==> mails[..i][k] == mails[k];
    assert i < j ==> mails[..j][i] == mails[i];
  }

  /** Exactly when: a mail handed to the analysis has been marked processed already if and only if the list names
      it again after the place where its envelope was new. */
  lemma MarkedBeforeAnalysisIff(mails: seq<Mail>, id: string)
    requires OneText(mails)
    ensures id in Ids(Deduped(mails)) && id in Again(mails) <==> NamedAgain(mails, id)
  {
    DedupByPlace(mails, id);
    if NamedFresh(mails, id) && NamedStale(mails, id) {
      var i: nat :| i < |mails| && mails[i].id == id && Fresh(mails, i);
      var j: nat :| j < |mails| && mails[j].id == id && !Fresh(mails, j);
      NamedAgainIs(mails, id, i, j);
    }
    if NamedAgain(mails, id) {
      var i: nat, j: nat :| i < j < |mails| && mails[i].id == id && mails[j].id == id
                            && mails[i].envelope != "" && Fresh(mails, i);
      NamedAgainIs(mails, id, i, j);
    }
  }

  // ---------- The scan ----------

  datatype FetchResult = Failed | Dropped(ts: nat) | Kept(ts: nat)

  class Scanner {
    var processed: set<string>
    var cursor: nat
    var lastSuccess: nat

    constructor ()
      ensures processed == {} && cursor == 0 && lastSuccess == 0
    {
      processed, cursor, lastSuccess := {}, 0, 0;
    }

    method MarkAsProcessed(id: string)
      modifies this`processed
      ensures processed == old(processed) + {id}
    {
      processed := processed + {id};
    }

    method ProcessSingleEmail(m: Mail) returns (r: FetchResult)
      modifies this`processed
      ensures r.Failed? <==> m.getFails
      ensures r.Dropped? <==> !m.getFails && Filtered(m)
      ensures r.Dropped? <==>
        && !m.getFails
        && (|| m.marketing || m.selfBulk || m.systemOrigin || m.skipSender
            || !(m.addressed || m.inInbox) || m.emptyBody)
      ensures !r.Failed? ==> r.ts == m.ts
      ensures processed == old(processed) + if r.Dropped? then {m.id} else {}
    {
      if m.getFails { return Failed; }
      if m.marketing || m.selfBulk || m.systemOrigin {
        MarkAsProcessed(m.id);
        return Dropped(m.ts);
      }
      if m.skipSender {
        MarkAsProcessed(m.id);
        return Dropped(m.ts);
      }
      if !m.addressed && !m.inInbox {
        MarkAsProcessed(m.id);
        return Dropped(m.ts);
      }
      if m.emptyBody {
        MarkAsProcessed(m.id);
        return Dropped(m.ts);
      }
      return Kept(m.ts);
    }

    /** parseNewEmails: skips what is processed, fetches the rest; ok means every fetch succeeded. */
    method ParseNewEmails(messages: seq<Mail>) returns (raw: seq<Mail>, maxTS: nat, ok: bool)
      modifies this`processed
      ensures raw == Fetched(messages, old(processed))
      ensures processed == old(processed) + FilteredIds(messages, old(processed))
      ensures ok == AllFetched(messages, old(processed))
      ensures maxTS == NewestFetched(messages, old(processed))
    {
      raw, maxTS, ok := [], 0, true;
      ghost var done := processed;
      for i := 0 to |messages|
        invariant raw == Fetched(messages[..i], done)
        invariant processed == done + FilteredIds(messages[..i], done)
        invariant ok == AllFetched(messages[..i], done)
        invariant maxTS == NewestFetched(messages[..i], done)
      {
        var m := messages[i];
        assert messages[..i + 1][..i] == messages[..i];
        assert m.id in processed <==> !Unread(m, messages[..i], done);
        if m.id in processed {
          continue;
        }
        var r := ProcessSingleEmail(m);
        if r.Failed? {
          ok := false;
          continue;
        }
        if r.ts > maxTS {
          maxTS := r.ts;
        }
        if r.Kept? {
          raw := raw + [m];
        }
      }
      assert messages[..|messages|] == messages;
    }

    /** deduplicateEnvelopes: one mail per envelope goes on, the others are marked. */
    method DeduplicateEnvelopes(raw: seq<Mail>) returns (result: seq<Mail>)
      modifies this`processed
      ensures result == Deduped(raw) && processed == old(processed) + Again(raw)
      ensures DistinctIds(raw) ==> processed == old(processed) + (Ids(raw) - Ids(result))
    {
      var seen: set<string> := {};
      result := [];
      for i := 0 to |raw|
        invariant result == Deduped(raw[..i]) && seen == Envelopes(result)
        invariant processed == old(processed) + Again(raw[..i])
      {
        var m := raw[i];
        assert raw[..i + 1][..i] == raw[..i];
        EnvelopesAppend(result, m);
        if m.envelope == "" {
          result := result + [m];
        } else if m.envelope !in seen {
          seen := seen + {m.envelope};
          result := result + [m];
        } else {
          MarkAsProcessed(m.id);
        }
      }
      assert raw[..|raw|] == raw;
      DedupedIds(raw);
      if DistinctIds(raw) { DedupedApart(raw); }
    }

    /** filterGmailBatch: noise and thread completions are marked, the rest goes to analysis. */
    method FilterGmailBatch(batch: seq<Mail>, hooked: bool) returns (result: seq<Mail>)
      modifies this`processed
      ensures result == Ungated(batch, hooked) && processed == old(processed) + GatedIds(batch, hooked)
      ensures forall m :: m in result <==>
        && m in batch && (m.noiseErr || !m.noise)
        && !(hooked && m.completes && m.cls in {Sent, Mine, Others})
      ensures forall m :: m in batch && m !in result ==> m.id in processed
      ensures DistinctIds(batch) ==> processed == old(processed) + (Ids(batch) - Ids(result))
    {
      result := [];
      for i := 0 to |batch|
        invariant result == Ungated(batch[..i], hooked)
        invariant processed == old(processed) + GatedIds(batch[..i], hooked)
      {
        var m := batch[i];
        assert batch[..i + 1][..i] == batch[..i];
        if !m.noiseErr && m.noise {
          MarkAsProcessed(m.id);
          continue;
        }
        if ThreadHandled(m, hooked) {
          MarkAsProcessed(m.id);
          continue;
        }
        result := result + [m];
      }
      assert batch[..|batch|] == batch;
      UngatedIds(batch, hooked);
      forall m { UngatedIff(batch, hooked, m); }
      if DistinctIds(batch) { UngatedApart(batch, hooked); }
    }

    /** processBatch: when the analysis fails, exactly the mails sent to it stay unmarked. */
    method ProcessBatch(batch: seq<Mail>, w: World) returns (ok: bool)
      modifies this`processed
      ensures ok <==> BatchOk(batch, w)
      ensures processed == old(processed) + BatchMarks(batch, w)
      ensures processed <= old(processed) + Ids(batch)
      ensures DistinctIds(batch) && Ids(batch) !! old(processed) ==> (ok <==> Ids(batch) <= processed)
      ensures DistinctIds(batch) && !ok ==> processed == old(processed) + (Ids(batch) - Ids(Ungated(batch, w.hooked)))
    {
      UngatedIds(batch, w.hooked);
      if DistinctIds(batch) { UngatedApart(batch, w.hooked); }
      var filtered := FilterGmailBatch(batch, w.hooked);
      if |filtered| == 0 { return true; }
      if !w.analyzer(filtered) {
        assert filtered[0] in filtered && filtered[0].id in Ids(filtered);
        return false;
      }
      MarkAll(filtered);
      return true;
    }

    method MarkAll(mails: seq<Mail>)
      modifies this`processed
      ensures processed == old(processed) + Ids(mails)
    {
      for i := 0 to |mails|
        invariant processed == old(processed) + Ids(mails[..i])
      {
        assert mails[..i + 1] == mails[..i] + [mails[i]];
        IdsAppend(mails[..i], mails[i]);
        MarkAsProcessed(mails[i].id);
      }
      assert mails[..|mails|] == mails;
    }

    /** analyzeAndSaveEmails: ok means every batch went through, and then every fetched mail is processed. */
    method AnalyzeAndSaveEmails(raw: seq<Mail>, w: World) returns (ok: bool)
      modifies this`processed
      ensures ok <==> w.wired && w.userFound && BatchesOk(Deduped(raw), w)
      ensures processed == old(processed) +
        if w.wired && w.userFound then Again(raw) + AllMarks(Deduped(raw), w) else {}
      ensures old(processed) <= processed <= old(processed) + Ids(raw)
      ensures ok ==> Ids(raw) <= processed
      ensures w.wired && w.userFound ==> Again(raw) <= processed
      ensures raw != [] && DistinctIds(raw) && Ids(raw) !! old(processed) ==> (ok <==> Ids(raw) <= processed)
    {
      if !w.wired || !w.userFound {
        assert raw != [] ==> raw[0].id in Ids(raw);
        return false;
      }
      DedupedIds(raw);
      if DistinctIds(raw) { DedupedApart(raw); }
      var result := DeduplicateEnvelopes(raw);
      ok := AnalyzeBatches(result, w);
    }

    method AnalyzeBatches(result: seq<Mail>, w: World) returns (ok: bool)
      modifies this`processed
      ensures ok <==> BatchesOk(result, w)
      ensures processed == old(processed) + AllMarks(result, w)
      ensures old(processed) <= processed <= old(processed) + Ids(result)
      ensures ok ==> Ids(result) <= processed
      ensures DistinctIds(result) && Ids(result) !! old(processed) ==> (ok <==> Ids(result) <= processed)
    {
      ok := true;
      var i := 0;
      ghost var allOk := BatchesOk(result, w);
      while i < |result|
        invariant i <= |result|
        invariant allOk <==> ok && BatchesOk(result[i..], w)
        invariant processed + AllMarks(result[i..], w) == old(processed) + AllMarks(result, w)
        invariant BatchedSoFar(result, i, old(processed), processed, ok)
      {
        var end := i + BATCH_SIZE;
        if end > |result| { end := |result|; }
        OneBatchMore(result, i, end, w);
        ghost var mid := processed;
        var batchOK := ProcessBatch(result[i..end], w);
        BatchedMore(result, i, end, old(processed), mid, processed, ok, batchOK);
        if !batchOK {
          ok := false;
        }
        i := end;
      }
      assert result[..|result|] == result;
    }

    /** ScanGmail, after the listing: `fetchOK` is false when the listing was cut short by an error. The listing may
        name a mail twice, and the two reads may go differently. */
    method ScanGmail(listed: seq<Mail>, fetchOK: bool, w: World, now: nat)
      modifies this
      ensures var clean := ScanClean(listed, fetchOK, old(processed), w);
        && lastSuccess == (if clean then now else old(lastSuccess))
        && cursor == (if clean && NewestFetched(listed, old(processed)) > 0
                      then NewestFetched(listed, old(processed)) else old(cursor))
        && (clean ==> Ids(listed) <= processed)
        && (DistinctIds(listed) ==> (clean <==> fetchOK && Ids(listed) <= processed))
      ensures processed == old(processed) + ScanMarks(listed, old(processed), w)
      ensures old(processed) <= processed <= old(processed) + Ids(listed)
      ensures FilteredIds(listed, old(processed)) <= processed
      ensures w.wired && w.userFound ==> Again(Fetched(listed, old(processed))) <= processed
      ensures forall id :: AlwaysFails(listed, id) && id !in old(processed) ==> id !in processed
    {
      if |listed| == 0 {
        if fetchOK { lastSuccess := now; }
        return;
      }
      ghost var done := processed;
      var rawMsgs, maxTS, parseOK := ParseNewEmails(listed);
      ghost var mid := processed;
      var analyzeOK := true;
      if |rawMsgs| > 0 {
        analyzeOK := AnalyzeAndSaveEmails(rawMsgs, w);
      }
      CleanMeansProcessed(listed, fetchOK, w, done, mid, processed, analyzeOK);
      ScanStaysInside(listed, done, mid, processed);
      if !fetchOK || !parseOK || !analyzeOK {
        return;
      }
      if maxTS > 0 {
        cursor := maxTS;
      }
      lastSuccess := now;
    }
  }

  /** The two halves of a scan put together: `mid` is what is processed after the fetch stage. */
  lemma CleanMeansProcessed(listed: seq<Mail>, fetchOK: bool, w: World, done: set<string>, mid: set<string>,
                            after: set<string>, analyzeOK: bool)
    requires mid == done + FilteredIds(listed, done)
    requires var raw := Fetched(listed, done);
      && (analyzeOK <==> raw == [] || (w.wired && w.userFound && BatchesOk(Deduped(raw), w)))
      && mid <= after <= mid + Ids(raw) && (analyzeOK ==> Ids(raw) <= after)
      && (DistinctIds(raw) && Ids(raw) !! mid ==> (analyzeOK <==> Ids(raw) <= after))
    ensures var clean := ScanClean(listed, fetchOK, done, w);
      && (clean <==> fetchOK && AllFetched(listed, done) && analyzeOK)
      && (clean ==> Ids(listed) <= after)
      && (DistinctIds(listed) ==> (clean <==> fetchOK && Ids(listed) <= after))
  {
    FetchCoverage(listed, done);
  }

  lemma ScanStaysInside(listed: seq<Mail>, done: set<string>, mid: set<string>, after: set<string>)
    requires mid == done + FilteredIds(listed, done) && mid <= after <= mid + Ids(Fetched(listed, done))
    ensures done <= after <= done + Ids(listed) && FilteredIds(listed, done) <= after
    ensures forall id :: AlwaysFails(listed, id) && id !in done ==> id !in after
  {
    FetchedAreNew(listed, done);
    FilteredAreListed(listed, done);
    FailingStay(listed, done);
  }

  /** Every read of this id fails. */
  ghost predicate AlwaysFails(listed: seq<Mail>, id: string) {
    forall m :: m in listed && m.id == id ==> m.getFails
  }

  /** What the first i mails have come to; `ok` means no batch failed. */
  ghost predicate BatchedSoFar(mails: seq<Mail>, i: nat, before: set<string>, after: set<string>, ok: bool)
    requires i <= |mails|
  {
    && before <= after <= before + Ids(mails[..i])
    && (ok ==> Ids(mails[..i]) <= after)
    && (DistinctIds(mails) && Ids(mails) !! before ==> (ok <==> Ids(mails[..i]) <= after))
  }

  lemma BatchedMore(mails: seq<Mail>, i: nat, end: nat, before: set<string>, mid: set<string>, after: set<string>,
                    ok: bool, batchOK: bool)
    requires i <= end <= |mails| && BatchedSoFar(mails, i, before, mid, ok)
    requires mid <= after <= mid + Ids(mails[i..end]) && (batchOK ==> Ids(mails[i..end]) <= after)
    requires DistinctIds(mails[i..end]) && Ids(mails[i..end]) !! mid ==> (batchOK <==> Ids(mails[i..end]) <= after)
    ensures BatchedSoFar(mails, end, before, after, ok && batchOK)
  {
    SliceIds(mails, i, end);
  }

  lemma OneBatchMore(mails: seq<Mail>, i: nat, end: nat, w: World)
    requires i < end <= |mails| && end == if i + BATCH_SIZE > |mails| then |mails| else i + BATCH_SIZE
    ensures BatchesOk(mails[i..], w) <==> BatchOk(mails[i..end], w) && BatchesOk(mails[end..], w)
    ensures AllMarks(mails[i..], w) == BatchMarks(mails[i..end], w) + AllMarks(mails[end..], w)
  {
    var rest := mails[i..];
    if |rest| <= BATCH_SIZE {
      assert rest == mails[i..end] && mails[end..] == [];
    } else {
      assert rest[..BATCH_SIZE] == mails[i..end] && rest[BATCH_SIZE..] == mails[end..];
    }
  }

  lemma SliceIds(mails: seq<Mail>, i: nat, end: nat)
    requires i <= end <= |mails|
    ensures Ids(mails[..end]) == Ids(mails[..i]) + Ids(mails[i..end])
    ensures DistinctIds(mails) ==> Ids(mails[..i]) !! Ids(mails[i..end]) && DistinctIds(mails[i..end])
    ensures Ids(mails[i..end]) <= Ids(mails)
  {
    assert mails[..end] == mails[..i] + mails[i..end];
    assert forall x :: x in mails[..end] <==> x in mails[..i] || x in mails[i..end];
    assert forall x :: x in mails[i..end] ==> x in mails;
  }

  /** What is handed on was not processed before; with distinct ids it was not marked in this scan either. */
  lemma {:induction false} FetchedAreNew(listed: seq<Mail>, done: set<string>)
    ensures Ids(Fetched(listed, done)) <= Ids(listed) && Ids(Fetched(listed, done)) !! done
    ensures DistinctIds(listed) ==>
              DistinctIds(Fetched(listed, done)) && Ids(Fetched(listed, done)) !! FilteredIds(listed, done)
  {
    if listed != [] {
      var front, m := listed[..|listed| - 1], listed[|listed| - 1];
      assert listed == front + [m];
      FetchedAreNew(front, done);
      FilteredAreListed(front, done);
      IdsAppend(front, m);
      IdsAppend(Fetched(front, done), m);
      DistinctAppendIf(Fetched(front, done), m);
      if DistinctIds(listed) { DistinctTail(front, m); }
    }
  }

  /** What the fetch stage leaves: unless a fetch failed, everything listed is processed, filtered or handed on;
      with distinct ids, only then. */
  lemma {:induction false} FetchCoverage(listed: seq<Mail>, done: set<string>)
    ensures Ids(Fetched(listed, done)) <= Ids(listed) && Ids(Fetched(listed, done)) !! done
    ensures DistinctIds(listed) ==>
              DistinctIds(Fetched(listed, done)) && Ids(Fetched(listed, done)) !! done + FilteredIds(listed, done)
    ensures var dealt := done + FilteredIds(listed, done) + Ids(Fetched(listed, done));
      && (AllFetched(listed, done) ==> Ids(listed) <= dealt)
      && (DistinctIds(listed) && Ids(listed) <= dealt ==> AllFetched(listed, done))
  {
    FetchedAreNew(listed, done);
    if listed != [] {
      var front, m := listed[..|listed| - 1], listed[|listed| - 1];
      assert listed == front + [m];
      FetchCoverage(front, done);
      FilteredAreListed(front, done);
      IdsAppend(front, m);
      IdsAppend(Fetched(front, done), m);
      if DistinctIds(listed) { DistinctTail(front, m); }
    }
  }

  /** A mail that cannot be loaded is neither filtered nor handed on. */
  lemma {:induction false} FailingStays(listed: seq<Mail>, done: set<string>, id: string)
    requires AlwaysFails(listed, id) && id !in done
    ensures id !in FilteredIds(listed, done) && id !in Ids(Fetched(listed, done))
  {
    if listed != [] {
      var front, last := listed[..|listed| - 1], listed[|listed| - 1];
      assert last in listed && forall m :: m in front ==> m in listed;
      FailingStays(front, done, id);
      IdsAppend(Fetched(front, done), last);
    }
  }

  lemma FailingStay(listed: seq<Mail>, done: set<string>)
    ensures forall id :: AlwaysFails(listed, id) && id !in done ==>
              id !in FilteredIds(listed, done) && id !in Ids(Fetched(listed, done))
  {
    forall id | AlwaysFails(listed, id) && id !in done
      ensures id !in FilteredIds(listed, done) && id !in Ids(Fetched(listed, done))
    {
      FailingStays(listed, done, id);
    }
  }

  lemma DistinctAppendIf(front: seq<Mail>, m: Mail)
    ensures DistinctIds(front) && m.id !in Ids(front) ==> DistinctIds(front + [m])
  {
    if DistinctIds(front) && m.id !in Ids(front) { DistinctAppend(front, m); }
  }

  /** The cursor never moves back as long as the listing honours its `after:` bound. */
  lemma {:induction false} NewestIsListed(listed: seq<Mail>, done: set<string>, since: int)
    requires forall m :: m in listed ==> m.ts >= since
    ensures NewestFetched(listed, done) > 0 ==> NewestFetched(listed, done) >= since
    ensures forall i :: 0 <= i < |listed| && Unread(listed[i], listed[..i], done) && !listed[i].getFails ==>
              listed[i].ts <= NewestFetched(listed, done)
  {
    if listed != [] {
      var front, m := listed[..|listed| - 1], listed[|listed| - 1];
      assert m in listed && forall x :: x in front ==> x in listed;
      NewestIsListed(front, done, since);
      forall i | 0 <= i < |listed| && Unread(listed[i], listed[..i], done) && !listed[i].getFails
        ensures listed[i].ts <= NewestFetched(listed, done)
      {
        if i < |front| { assert front[i] == listed[i] && front[..i] == listed[..i]; }
      }
    }
  }

  lemma PrefixLacks(mails: seq<Mail>, i: nat)
    requires DistinctIds(mails) && i < |mails|
    ensures mails[i].id !in Ids(mails[..i])
  {
  }

  lemma {:induction false} FilteredAreListed(mails: seq<Mail>, done: set<string>)
    ensures FilteredIds(mails, done) <= Ids(mails)
  {
    if mails != [] {
      FilteredAreListed(mails[..|mails| - 1], done);
      assert mails == mails[..|mails| - 1] + [mails[|mails| - 1]];
      IdsAppend(mails[..|mails| - 1], mails[|mails| - 1]);
    }
  }

  // ---------- The listing ----------

  const LIST_CAP: nat := 1000

  function Joined(pages: seq<seq<Mail>>): seq<Mail> {
    if pages == [] then [] else Joined(pages[..|pages| - 1]) + pages[|pages| - 1]
  }

  lemma {:induction false} JoinedGrows(pages: seq<seq<Mail>>, n: nat)
    requires n <= |pages|
    ensures |Joined(pages[..n])| <= |Joined(pages)|
  {
    if n == |pages| {
      assert pages[..n] == pages;
    } else {
      assert pages[..|pages| - 1][..n] == pages[..n];
      JoinedGrows(pages[..|pages| - 1], n);
    }
  }

  /** fetchRecentEmails: reads the first n pages. It reports success although pages are left exactly if the pages
      before the last one hold a thousand mails or more. */
  method FetchRecentEmails(pages: seq<seq<Mail>>, failsAt: nat) returns (all: seq<Mail>, ok: bool, n: nat)
    requires pages != []
    ensures n <= |pages| && all == Joined(pages[..n])
    ensures ok ==> 0 < n <= failsAt && (n == |pages| <==> |Joined(pages[..|pages| - 1])| < LIST_CAP)
    ensures !ok ==> n == failsAt < |pages| && (n > 0 ==> |all| < LIST_CAP)
  {
    all, n := [], 0;
    while true
      invariant n < |pages| && n <= failsAt && all == Joined(pages[..n])
      invariant |all| < LIST_CAP
      decreases |pages| - n
    {
      if n == failsAt { return all, false, n; }
      assert pages[..n + 1][..n] == pages[..n];
      all := all + pages[n];
      n := n + 1;
      if n == |pages| {
        break;
      }
      if |all| >= LIST_CAP {
        assert pages[..|pages| - 1][..n] == pages[..n];
        JoinedGrows(pages[..|pages| - 1], n);
        break;
      }
    }
    ok := true;
  }
}
