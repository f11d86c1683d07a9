/** Why a Gmail scan marks a mail processed (channels/gmail_scan.go), in terms of the mail and of what the outside
    world answered about it: nothing is marked that was not filtered, gated or analysed. */
module GmailMarks {
  import opened GmailScan

  /** Loaded, and dropped by one of the single-mail filters. */
  predicate TookFilterExit(m: Mail) {
    && !m.getFails
    && (|| m.marketing || m.selfBulk || m.systemOrigin || m.skipSender
        || (!m.addressed && !m.inInbox) || m.emptyBody)
  }

  /** Loaded, and handed on by all of them. */
  predicate Passed(m: Mail) { !m.getFails && !TookFilterExit(m) }

  /** An earlier mail of the list that was handed on has the same envelope. */
  ghost predicate RepeatsEnvelope(mails: seq<Mail>, m: Mail) {
    m.envelope != "" && exists i, j :: 0 <= i < j < |mails| && mails[j] == m && mails[i].envelope == m.envelope
  }

  /** The k-th ten of a list. */
  function Batch(mails: seq<Mail>, k: nat): seq<Mail> {
    if 10 * k >= |mails| then [] else if 10 * k + 10 > |mails| then mails[10 * k..] else mails[10 * k..10 * k + 10]
  }

  /** The mail went into an analysis that was accepted. */
  ghost predicate Analysed(mails: seq<Mail>, w: World, m: Mail) {
    exists k: nat :: m in Ungated(Batch(mails, k), w.hooked) && w.analyzer(Ungated(Batch(mails, k), w.hooked))
  }

  // ---------- The stages ----------

  lemma {:induction false} FilteredIff(mails: seq<Mail>, done: set<string>, id: string)
    ensures id in FilteredIds(mails, done) <==>
              id !in done && exists m :: m in mails && m.id == id && TookFilterExit(m)
  {
    if mails != [] {
      var front, last := mails[..|mails| - 1], mails[|mails| - 1];
      assert mails == front + [last];
      FilteredIff(front, done, id);
      if m :| m in front && m.id == id && TookFilterExit(m) { assert m in mails; }
      assert last in mails;
    }
  }

  /** With distinct ids the fetch stage hands on exactly the unprocessed mails that pass, in order. */
  lemma {:induction false} FetchedIff(mails: seq<Mail>, done: set<string>, m: Mail)
    requires DistinctIds(mails)
    ensures m in Fetched(mails, done) <==> m in mails && m.id !in done && Passed(m)
  {
    if mails != [] {
      var front, last := mails[..|mails| - 1], mails[|mails| - 1];
      assert mails == front + [last];
      DistinctTail(front, last);
      FetchedIff(front, done, m);
      FilteredIff(front, done, last.id);
      assert forall x :: x in front ==> x.id in Ids(front);
    }
  }

  lemma SameId(mails: seq<Mail>, m: Mail, x: Mail)
    requires DistinctIds(mails) && m in mails && x in mails && m.id == x.id
    ensures m == x
  {
    var i :| 0 <= i < |mails| && mails[i] == m;
    var j :| 0 <= j < |mails| && mails[j] == x;
    OnePlace(mails, i, j);
  }

  lemma OnePlace(mails: seq<Mail>, i: nat, j: nat)
    requires DistinctIds(mails) && i < |mails| && j < |mails| && mails[i].id == mails[j].id
    ensures i == j
  {
  }

  lemma AgainIff(mails: seq<Mail>, m: Mail)
    requires DistinctIds(mails) && m in mails
    ensures m.id in Again(mails) <==> RepeatsEnvelope(mails, m)
    ensures m in Deduped(mails) <==> !RepeatsEnvelope(mails, m)
  {
    DedupByPlace(mails, m.id);
    DedupedAreMails(mails);
    var j: nat :| j < |mails| && mails[j] == m;
    forall i: nat | i < |mails| && mails[i].id == m.id ensures i == j {
      OnePlace(mails, i, j);
    }
    StaleIff(mails, j);
    if m.id in Ids(Deduped(mails)) {
      var x :| x in Deduped(mails) && x.id == m.id;
      SameId(mails, m, x);
    }
  }

  lemma StaleIff(mails: seq<Mail>, j: nat)
    requires j < |mails| && forall i: nat :: i < |mails| && mails[i] == mails[j] ==> i == j
    ensures !Fresh(mails, j) <==> RepeatsEnvelope(mails, mails[j])
  {
    assert forall i: nat :: i < j ==> mails[..j][i] == mails[i];
    if !Fresh(mails, j) {
      var x :| x in mails[..j] && x.envelope == mails[j].envelope;
      var i: nat :| i < j && mails[..j][i] == x;
      assert mails[i].envelope == mails[j].envelope;
    }
  }

  lemma {:induction false} DedupedAreMails(mails: seq<Mail>)
    ensures forall m :: m in Deduped(mails) ==> m in mails
  {
    if mails != [] {
      var front, last := mails[..|mails| - 1], mails[|mails| - 1];
      assert mails == front + [last];
      DedupedAreMails(front);
    }
  }

  /** A mail of a list without repeats is marked with its batch if and only if the gate marks it or its analysis is
      accepted. */
  lemma BatchMarkIff(batch: seq<Mail>, w: World, m: Mail)
    requires DistinctIds(batch) && m in batch
    ensures m.id in BatchMarks(batch, w) <==>
              StoppedByGate(m, w) || (m in Ungated(batch, w.hooked) && w.analyzer(Ungated(batch, w.hooked)))
  {
    UngatedIff(batch, w.hooked, m);
    UngatedApart(batch, w.hooked);
    assert m in Ungated(batch, w.hooked) ==> m.id in Ids(Ungated(batch, w.hooked));
    assert m.id in Ids(batch);
  }

  /** Answered noise without an error, or a mail that completes a thread somebody listens to. */
  predicate StoppedByGate(m: Mail, w: World) {
    (m.noise && !m.noiseErr) || (w.hooked && m.cls != Other && m.completes)
  }

  lemma {:induction false} AllMarksIff(mails: seq<Mail>, w: World, m: Mail)
    requires DistinctIds(mails) && m in mails
    ensures m.id in AllMarks(mails, w) <==> StoppedByGate(m, w) || Analysed(mails, w, m)
    decreases |mails|
  {
    var first, rest := Batch(mails, 0), if |mails| <= 10 then [] else mails[10..];
    MarksSplit(mails, w);
    SplitIsDistinct(first, rest);
    BatchesShift(mails, w, m);
    if m in first {
      BatchMarkIff(first, w, m);
      NotMarkedElsewhere(rest, w, m);
      NotAnalysedElsewhere(rest, w, m);
    } else {
      AllMarksIff(rest, w, m);
      BatchMarksAreIts(first, w);
      UngatedIff(first, w.hooked, m);
    }
  }

  lemma MarksSplit(mails: seq<Mail>, w: World)
    requires mails != []
    ensures var first, rest := Batch(mails, 0), if |mails| <= 10 then [] else mails[10..];
      mails == first + rest && AllMarks(mails, w) == BatchMarks(first, w) + AllMarks(rest, w)
  {
    if |mails| <= 10 { assert Batch(mails, 0) == mails; }
  }

  lemma SplitIsDistinct(a: seq<Mail>, b: seq<Mail>)
    requires DistinctIds(a + b)
    ensures DistinctIds(a) && DistinctIds(b) && Ids(a) !! Ids(b)
  {
    var all := a + b;
    assert forall i :: 0 <= i < |a| ==> all[i] == a[i];
    assert forall i :: 0 <= i < |b| ==> all[|a| + i] == b[i];
  }

  lemma BatchShift(mails: seq<Mail>, k: nat)
    ensures Batch(mails, k + 1) == Batch(if |mails| <= 10 then [] else mails[10..], k)
  {
    if |mails| > 10 {
      var rest := mails[10..];
      assert 10 * (k + 1) < |mails| ==> rest[10 * k..] == mails[10 * (k + 1)..];
      assert 10 * (k + 1) + 10 <= |mails| ==>
          rest[10 * k..10 * k + 10] == mails[10 * (k + 1)..10 * (k + 1) + 10];
    }
  }

  /** The batches of a list are its first ten and the batches of the rest. */
  lemma BatchesShift(mails: seq<Mail>, w: World, m: Mail)
    ensures var rest := if |mails| <= 10 then [] else mails[10..];
      Analysed(mails, w, m) <==>
        (m in Ungated(Batch(mails, 0), w.hooked) && w.analyzer(Ungated(Batch(mails, 0), w.hooked)))
        || Analysed(rest, w, m)
  {
    var rest := if |mails| <= 10 then [] else mails[10..];
    forall k: nat ensures Batch(mails, k + 1) == Batch(rest, k) { BatchShift(mails, k); }
    if k: nat :| m in Ungated(Batch(mails, k), w.hooked) && w.analyzer(Ungated(Batch(mails, k), w.hooked)) {
      if k > 0 { assert Batch(mails, (k - 1) + 1) == Batch(rest, k - 1); }
    }
    if k: nat :| m in Ungated(Batch(rest, k), w.hooked) && w.analyzer(Ungated(Batch(rest, k), w.hooked)) {
      assert Batch(mails, k + 1) == Batch(rest, k);
    }
  }

  lemma BatchMarksAreIts(batch: seq<Mail>, w: World)
    ensures BatchMarks(batch, w) <= Ids(batch)
  {
    UngatedIds(batch, w.hooked);
  }

  lemma {:induction false} AllMarksAreIts(mails: seq<Mail>, w: World)
    ensures AllMarks(mails, w) <= Ids(mails)
    decreases |mails|
  {
    if |mails| <= BATCH_SIZE {
      BatchMarksAreIts(mails, w);
    } else {
      BatchMarksAreIts(mails[..BATCH_SIZE], w);
      AllMarksAreIts(mails[BATCH_SIZE..], w);
      assert forall x :: x in mails[..BATCH_SIZE] || x in mails[BATCH_SIZE..] ==> x in mails;
    }
  }

  lemma NotMarkedElsewhere(rest: seq<Mail>, w: World, m: Mail)
    requires m.id !in Ids(rest)
    ensures m.id !in AllMarks(rest, w)
  {
    AllMarksAreIts(rest, w);
  }

  lemma NotAnalysedElsewhere(rest: seq<Mail>, w: World, m: Mail)
    requires m.id !in Ids(rest)
    ensures !Analysed(rest, w, m)
  {
    forall k: nat ensures m !in Ungated(Batch(rest, k), w.hooked) {
      UngatedIff(Batch(rest, k), w.hooked, m);
      assert forall x :: x in Batch(rest, k) ==> x in rest;
      assert m in rest ==> m.id in Ids(rest);
    }
  }

  // ---------- The scan ----------

  /** Main result: with every mail listed once, a scan marks a mail if and only if it took one of the named filter
      exits or, passed by them and with client, filter and user at hand, repeats the envelope of an earlier mail, was
      answered noise without an error, completes a thread, or was in a batch whose analysis was accepted. */
  lemma MarkedIff(listed: seq<Mail>, done: set<string>, w: World, m: Mail)
    requires DistinctIds(listed) && m in listed && m.id !in done
    ensures var raw := Fetched(listed, done);
      m.id in ScanMarks(listed, done, w) <==>
        || TookFilterExit(m)
        || (&& Passed(m) && w.wired && w.userFound
            && (RepeatsEnvelope(raw, m) || StoppedByGate(m, w) || Analysed(Deduped(raw), w, m)))
  {
    var raw := Fetched(listed, done);
    FilteredIsExit(listed, done, m);
    FetchedIff(listed, done, m);
    FetchedAreNew(listed, done);
    if m in raw {
      RawMarkIff(raw, w, m);
    } else {
      RawIsOther(listed, done, w, m);
    }
  }

  lemma FilteredIsExit(listed: seq<Mail>, done: set<string>, m: Mail)
    requires DistinctIds(listed) && m in listed && m.id !in done
    ensures m.id in FilteredIds(listed, done) <==> TookFilterExit(m)
  {
    FilteredIff(listed, done, m.id);
    if x :| x in listed && x.id == m.id && TookFilterExit(x) { SameId(listed, m, x); }
  }

  lemma RawMarkIff(raw: seq<Mail>, w: World, m: Mail)
    requires DistinctIds(raw) && m in raw
    ensures m.id in Again(raw) + AllMarks(Deduped(raw), w) <==>
              RepeatsEnvelope(raw, m) || StoppedByGate(m, w) || Analysed(Deduped(raw), w, m)
  {
    AgainIff(raw, m);
    DedupedApart(raw);
    if m in Deduped(raw) {
      AllMarksIff(Deduped(raw), w, m);
    }
  }

  lemma RawIsOther(listed: seq<Mail>, done: set<string>, w: World, m: Mail)
    requires DistinctIds(listed) && m in listed && m !in Fetched(listed, done)
    ensures m.id !in Again(Fetched(listed, done)) + AllMarks(Deduped(Fetched(listed, done)), w)
  {
    var raw := Fetched(listed, done);
    forall x | x in raw ensures x.id != m.id {
      FetchedIff(listed, done, x);
      if x.id == m.id { SameId(listed, m, x); }
    }
    DedupedIds(raw);
    AllMarksAreIts(Deduped(raw), w);
  }
}
