/** What CloseJSONArray recovers from a truncated JSON array of objects. Arrays are described as
    printed: each object with the whitespace before it, a comma directly after each object but the
    last (RFC 8259 section 5), whitespace before the closing bracket. */
module TruncatedArray {
  import opened TruncationRepair

  datatype Item = Item(ws: string, obj: string)

  predicate JsonWs(s: string) { forall i :: 0 <= i < |s| ==> s[i] in " \t\n\r" }

  /** An object as text: anything at all between its own braces. */
  predicate ValidItem(it: Item) {
    JsonWs(it.ws) && |it.obj| >= 2 && it.obj[0] == '{' && it.obj[|it.obj| - 1] == '}'
  }

  predicate AllValid(items: seq<Item>) { forall i :: 0 <= i < |items| ==> ValidItem(items[i]) }

  function Body(items: seq<Item>): string {
    if |items| == 0 then ""
    else
      var last := items[|items| - 1];
      Body(items[..|items| - 1]) + (if |items| == 1 then "" else ",") + last.ws + last.obj
  }

  function Render(items: seq<Item>, tail: string): string { "[" + Body(items) + tail + "]" }

  /** Index just past the m-th object of the printed array. */
  function End(items: seq<Item>, m: nat): nat
    requires m <= |items|
  {
    1 + |Body(items[..m])|
  }

  /** `out` prints the first few objects exactly as the original array did. */
  ghost predicate PrintsPrefix(items: seq<Item>, out: string) {
    exists m: nat, t: string :: m <= |items| && JsonWs(t) && out == Render(items[..m], t)
  }

  predicate InnerBrace(obj: string, j: int) { 0 <= j < |obj| - 1 && obj[j] == '}' }

  /** The arrays that survive every cut: no brace closes inside the first object, and no brace
      followed by a comma occurs inside a later one. */
  ghost predicate CutSafe(items: seq<Item>) {
    && (|items| > 0 ==> forall j :: !InnerBrace(items[0].obj, j))
    && (forall q, j :: 0 < q < |items| ==> !OccursAt(items[q].obj, "},", j))
  }

  // ---------- Layout of a printed array ----------

  lemma {:induction false} BodyPrefix(items: seq<Item>, m: nat)
    requires m <= |items|
    ensures Body(items[..m]) <= Body(items)
    ensures 0 < m < |items| ==> |Body(items[..m])| < |Body(items)| && Body(items)[|Body(items[..m])|] == ','
  {
    if m == |items| {
      assert items[..m] == items;
    } else {
      var front := items[..|items| - 1];
      assert front[..m] == items[..m];
      BodyPrefix(front, m);
      if m == |front| { assert front[..m] == front; }
    }
  }

  lemma BodyEndsInBrace(items: seq<Item>)
    requires AllValid(items) && |items| > 0
    ensures |Body(items)| >= 2 && Body(items)[|Body(items)| - 1] == '}'
  {
  }

  /** Facts about the text up to and just after object m, seen from the whole print. */
  lemma Layout(items: seq<Item>, tail: string, m: nat)
    requires AllValid(items) && m <= |items|
    ensures var r := Render(items, tail);
            && End(items, m) + |tail| < |r| && r[..End(items, m)] == "[" + Body(items[..m])
            && (m > 0 ==> r[End(items, m) - 1] == '}')
            && (0 < m < |items| ==> r[End(items, m)] == ',')
  {
    BodyPrefix(items, m);
    var r := Render(items, tail);
    assert r == "[" + (Body(items) + (tail + "]"));
    assert r[..End(items, m)] == "[" + Body(items)[..|Body(items[..m])|];
    if m > 0 {
      BodyEndsInBrace(items[..m]);
      assert r[End(items, m) - 1] == r[..End(items, m)][End(items, m) - 1];
    }
  }

  lemma EndsGrow(items: seq<Item>, a: nat, b: nat)
    requires AllValid(items) && a < b <= |items|
    ensures End(items, a) + 2 <= End(items, b)
    ensures a > 0 ==> End(items, a) + 3 <= End(items, b)
    decreases b - a
  {
    assert items[..b][..b - 1] == items[..b - 1];
    if a < b - 1 { EndsGrow(items, a, b - 1); }
  }

  /** After the last object there is only whitespace and the bracket. */
  lemma AfterLast(items: seq<Item>, tail: string, i: nat)
    requires JsonWs(tail) && 1 + |Body(items)| <= i < |Render(items, tail)|
    ensures Render(items, tail)[i] in " \t\n\r]"
  {
    var r := Render(items, tail);
    if i < |r| - 1 {
      assert r[i] == tail[i - 1 - |Body(items)|];
    }
  }

  // ---------- Where braces can be ----------

  lemma CommaBraceAt(s: string, c: int)
    requires OccursAt(s, "},", c)
    ensures s[c] == '}' && s[c + 1] == ','
  {
    assert s[c..c + 2][0] == s[c] && s[c..c + 2][1] == s[c + 1];
  }

  lemma CommaBraceOccurs(s: string, c: nat)
    requires c + 1 < |s| && s[c] == '}' && s[c + 1] == ','
    ensures OccursAt(s, "},", c)
  {
    assert s[c..c + 2] == [s[c], s[c + 1]];
  }

  /** The piece printed for the last object contributes no brace followed by a comma. */
  lemma LastPieceHasNone(items: seq<Item>, p: nat)
    requires AllValid(items) && CutSafe(items) && |items| > 0
    requires |Body(items[..|items| - 1])| <= p && p + 1 < |Body(items)|
    ensures !(Body(items)[p] == '}' && Body(items)[p + 1] == ',')
  {
    var b, f, last := Body(items), Body(items[..|items| - 1]), items[|items| - 1];
    var sep := if |items| == 1 then "" else ",";
    var start := |f| + |sep| + |last.ws|;
    assert b == f + sep + last.ws + last.obj;
    if p < |f| + |sep| {
      assert b[p] == ',';
    } else if p < start {
      assert b[p] == last.ws[p - |f| - |sep|];
    } else {
      var j := p - start;
      assert b[p] == last.obj[j] && b[p + 1] == last.obj[j + 1];
      if last.obj[j] == '}' && last.obj[j + 1] == ',' { CommaBraceOccurs(last.obj, j); }
      assert |items| == 1 ==> !InnerBrace(items[0].obj, j);
      assert |items| > 1 ==> !OccursAt(items[|items| - 1].obj, "},", j);
    }
  }

  lemma {:induction false} CommaBraceSits(items: seq<Item>, p: nat) returns (m: nat)
    requires AllValid(items) && CutSafe(items) && OccursAt(Body(items), "},", p)
    ensures 0 < m < |items| && p == |Body(items[..m])| - 1
  {
    m := 0;
    var b := Body(items);
    var front := items[..|items| - 1];
    var f := Body(front);
    CommaBraceAt(b, p);
    BodyPrefix(items, |items| - 1);
    if |f| <= p { LastPieceHasNone(items, p); }
    if p + 2 <= |f| {
      assert f[p] == b[p] && f[p + 1] == b[p + 1];
      CommaBraceOccurs(f, p);
      m := CommaBraceSits(front, p);
      assert front[..m] == items[..m];
    } else {
      m := |items| - 1;
    }
  }

  lemma FirstBraceSits(items: seq<Item>, p: nat)
    requires AllValid(items) && CutSafe(items) && |items| > 0
    requires p < |Body(items[..1])| && Body(items[..1])[p] == '}'
    ensures p == |Body(items[..1])| - 1
  {
    var it := items[0];
    assert Body(items[..1]) == it.ws + it.obj by { assert items[..1][..0] == []; }
    assert forall x :: 0 <= x < |it.ws| ==> Body(items[..1])[x] == it.ws[x];
    var j := p - |it.ws|;
    assert !InnerBrace(items[0].obj, j);
  }

  // ---------- Cuts of a safe array ----------

  /** Every cut of a safe array is repaired to a print of its first m objects; at most one object
      that was already complete is given up. */
  lemma {:induction false} CutKeepsWholeItems(items: seq<Item>, tail: string, k: nat) returns (m: nat)
    requires AllValid(items) && JsonWs(tail) && CutSafe(items)
    requires 1 <= k <= |Render(items, tail)|
    ensures m <= |items|
    ensures CloseJSONArray(Render(items, tail)[..k]) == Render(items[..m], if m == 0 then "" else "\n")
    ensures m + 2 <= |items| ==> k < End(items, m + 2)
  {
    m := CutIsWhole(items, tail, k);
  }

  /** The cut at k is repaired to the print of the first m objects. */
  ghost predicate Whole(items: seq<Item>, tail: string, k: nat, m: nat)
    requires k <= |Render(items, tail)|
  {
    && m <= |items|
    && CloseJSONArray(Render(items, tail)[..k]) == Render(items[..m], if m == 0 then "" else "\n")
    && (m + 2 <= |items| ==> k < End(items, m + 2))
  }

  lemma {:induction false} CutIsWhole(items: seq<Item>, tail: string, k: nat) returns (m: nat)
    requires AllValid(items) && JsonWs(tail) && CutSafe(items)
    requires 1 <= k <= |Render(items, tail)|
    ensures Whole(items, tail, k, m)
  {
    if LastIndex(Render(items, tail)[..k], "},") >= 0 {
      m := CutAtComma(items, tail, k);
    } else {
      m := CutWithoutComma(items, tail, k);
    }
  }

  lemma CommaInCut(items: seq<Item>, tail: string, k: nat, m: nat)
    requires AllValid(items) && k <= |Render(items, tail)|
    requires 0 < m < |items| && End(items, m) + 1 <= k
    ensures OccursAt(Render(items, tail)[..k], "},", End(items, m) - 1)
  {
    Layout(items, tail, m);
    CommaBraceOccurs(Render(items, tail)[..k], End(items, m) - 1);
  }

  lemma ClosedAfter(t: string, c: nat)
    requires c < |t| && (LastIndex(t, "},") == c || (LastIndex(t, "},") < 0 && LastIndex(t, "}") == c))
    ensures CloseJSONArray(t) == t[..c + 1] + "\n]"
  {
  }

  /** The last brace-comma of a cut ends a whole object. */
  lemma CommaEndsItem(items: seq<Item>, tail: string, k: nat, c: nat) returns (m: nat)
    requires AllValid(items) && JsonWs(tail) && CutSafe(items)
    requires k <= |Render(items, tail)| && OccursAt(Render(items, tail)[..k], "},", c)
    ensures 0 < m < |items| && c + 1 == End(items, m)
  {
    var r, b := Render(items, tail), Body(items);
    CommaBraceAt(r[..k], c);
    assert r == "[" + (b + (tail + "]"));
    forall i | 1 + |b| <= i < |r| ensures r[i] != ',' { AfterLast(items, tail, i); }
    assert c >= 1 && b[c - 1] == '}' && b[c] == ',';
    CommaBraceOccurs(b, c - 1);
    m := CommaBraceSits(items, c - 1);
  }

  lemma CutAtComma(items: seq<Item>, tail: string, k: nat) returns (m: nat)
    requires AllValid(items) && JsonWs(tail) && CutSafe(items)
    requires 1 <= k <= |Render(items, tail)| && LastIndex(Render(items, tail)[..k], "},") >= 0
    ensures Whole(items, tail, k, m)
  {
    var r := Render(items, tail);
    var t := r[..k];
    var c := LastIndex(t, "},");
    m := CommaEndsItem(items, tail, k, c);
    Layout(items, tail, m);
    ClosedAfter(t, c);
    assert t[..c + 1] == r[..End(items, m)];
    if m + 2 <= |items| { NextCommaIsCut(items, tail, k, m); }
  }

  lemma NextCommaIsCut(items: seq<Item>, tail: string, k: nat, m: nat)
    requires AllValid(items) && k <= |Render(items, tail)| && m + 2 <= |items|
    requires LastIndex(Render(items, tail)[..k], "},") < End(items, m)
    ensures k < End(items, m + 2)
  {
    EndsGrow(items, m + 1, m + 2);
    EndsGrow(items, m, m + 1);
    if End(items, m + 2) <= k { CommaInCut(items, tail, k, m + 1); }
  }

  lemma WithinFirst(items: seq<Item>, tail: string, k: nat)
    requires AllValid(items) && k <= |Render(items, tail)|
    requires LastIndex(Render(items, tail)[..k], "},") < 0
    ensures |items| >= 2 ==> k <= End(items, 1) && k < End(items, 2)
    ensures |items| >= 3 ==> k < End(items, 3)
  {
    if |items| >= 2 {
      if End(items, 1) < k { CommaInCut(items, tail, k, 1); }
      EndsGrow(items, 1, 2);
      if |items| >= 3 { EndsGrow(items, 2, 3); }
    }
  }

  lemma CutWithoutComma(items: seq<Item>, tail: string, k: nat) returns (m: nat)
    requires AllValid(items) && JsonWs(tail) && CutSafe(items)
    requires 1 <= k <= |Render(items, tail)| && LastIndex(Render(items, tail)[..k], "},") < 0
    ensures m <= 1 && m <= |items|
    ensures CloseJSONArray(Render(items, tail)[..k]) == Render(items[..m], if m == 0 then "" else "\n")
    ensures m + 2 <= |items| ==> k < End(items, m + 2)
  {
    var t := Render(items, tail)[..k];
    var brace := LastIndex(t, "}");
    WithinFirst(items, tail, k);
    if brace < 0 {
      m := 0;
    } else {
      m := 1;
      assert t[brace] == t[brace..brace + 1][0] == '}';
      LoneBrace(items, tail, k, brace);
      ClosedAfter(t, brace);
    }
  }

  lemma LoneBrace(items: seq<Item>, tail: string, k: nat, i: nat)
    requires AllValid(items) && JsonWs(tail) && CutSafe(items)
    requires i < k <= |Render(items, tail)| && Render(items, tail)[i] == '}'
    requires |items| >= 2 ==> k <= End(items, 1)
    ensures |items| >= 1 && Render(items, tail)[..k][..i + 1] + "\n]" == Render(items[..1], "\n")
  {
    var r := Render(items, tail);
    forall x | 1 + |Body(items)| <= x < |r| ensures r[x] != '}' { AfterLast(items, tail, x); }
    if |items| == 1 { assert items[..1] == items; }
    assert |items| >= 1;
    Layout(items, tail, 1);
    assert r[..End(items, 1)][i] == '}';
    FirstBraceSits(items, i - 1);
    assert r[..k][..i + 1] == r[..End(items, 1)];
  }

  // ---------- Cuts of an unsafe array ----------

  /** A result that stops strictly inside object q prints no prefix of the list. */
  lemma {:induction false} InsideAnObjectIsNoPrefix(items: seq<Item>, tail: string, q: nat, i: nat)
    requires AllValid(items) && q < |items|
    requires End(items, q) <= i && i + 1 < End(items, q + 1) && i < |Render(items, tail)|
    requires Render(items, tail)[i] == '}'
    ensures !PrintsPrefix(items, Render(items, tail)[..i + 1] + "\n]")
  {
    var out := Render(items, tail)[..i + 1] + "\n]";
    forall m: nat, t: string | m <= |items| && JsonWs(t) ensures out != Render(items[..m], t) {
      var r := Render(items[..m], t);
      if m <= q {
        if m < q { EndsGrow(items, m, q); }
        if i < |r| { AfterLast(items[..m], t, i); }
        assert out[i] == '}';
      } else {
        if q + 1 < m { EndsGrow(items, q + 1, m); }
        assert items[..m][..m] == items[..m];
        Layout(items[..m], t, m);
        assert out[i + 1] == '\n';
        assert |r| >= End(items, m) + 1;
      }
    }
  }

  lemma ObjectStart(items: seq<Item>, tail: string, q: nat) returns (s: nat)
    requires AllValid(items) && q < |items|
    ensures End(items, q) <= s && s + |items[q].obj| == End(items, q + 1) < |Render(items, tail)|
    ensures Render(items, tail)[s..s + |items[q].obj|] == items[q].obj
  {
    Layout(items, tail, q + 1);
    var before := "[" + BodyUpTo(items, q);
    s := |before|;
    PartOfPrefix(Render(items, tail), before, items[q].obj);
  }

  /** What is printed between the bracket and the object q. */
  function BodyUpTo(items: seq<Item>, q: nat): (s: string)
    requires q < |items|
    ensures Body(items[..q + 1]) == s + items[q].obj && |s| >= |Body(items[..q])|
  {
    assert items[..q + 1][..q] == items[..q];
    Body(items[..q]) + (if q == 0 then "" else ",") + items[q].ws
  }

  lemma PartOfPrefix(s: string, before: string, part: string)
    requires before + part <= s
    ensures s[|before|..|before| + |part|] == part
  {
    assert s[|before|..|before| + |part|] == (before + part)[|before|..];
  }

  lemma LastIndexIs(s: string, sub: string, i: nat)
    requires OccursAt(s, sub, i) && i + |sub| == |s|
    ensures LastIndex(s, sub) == i
  {
  }

  /** A brace-comma inside a later object: cutting right after it leaves half an object. */
  lemma UnsafeLater(items: seq<Item>, tail: string, q: nat, j: nat) returns (k: nat)
    requires AllValid(items) && 0 < q < |items| && OccursAt(items[q].obj, "},", j)
    ensures 1 <= k <= |Render(items, tail)|
    ensures !PrintsPrefix(items, CloseJSONArray(Render(items, tail)[..k]))
  {
    var s := ObjectStart(items, tail, q);
    var r := Render(items, tail);
    var i := s + j;
    var obj := items[q].obj;
    CommaBraceAt(obj, j);
    assert r[i] == r[s..s + |obj|][j] && r[i + 1] == r[s..s + |obj|][j + 1];
    k := i + 2;
    CommaBraceOccurs(r[..k], i);
    LastIndexIs(r[..k], "},", i);
    ClosedAfter(r[..k], i);
    assert r[..k][..i + 1] == r[..i + 1];
    InsideAnObjectIsNoPrefix(items, tail, q, i);
  }

  /** The first inner brace of the first object. */
  lemma UnsafeFirst(items: seq<Item>, tail: string, j: nat) returns (k: nat)
    requires AllValid(items) && 0 < |items| && InnerBrace(items[0].obj, j)
    ensures 1 <= k <= |Render(items, tail)|
    ensures !PrintsPrefix(items, CloseJSONArray(Render(items, tail)[..k]))
    decreases j
  {
    if j' :| 0 <= j' < j && InnerBrace(items[0].obj, j') {
      k := UnsafeFirst(items, tail, j');
    } else {
      k := UnsafeFirstBrace(items, tail, j);
    }
  }

  lemma UnsafeFirstBrace(items: seq<Item>, tail: string, j: nat) returns (k: nat)
    requires AllValid(items) && 0 < |items| && InnerBrace(items[0].obj, j)
    requires forall j' :: 0 <= j' < j ==> !InnerBrace(items[0].obj, j')
    ensures 1 <= k <= |Render(items, tail)|
    ensures !PrintsPrefix(items, CloseJSONArray(Render(items, tail)[..k]))
  {
    var s := ObjectStart(items, tail, 0);
    var r := Render(items, tail);
    var obj := items[0].obj;
    var i := s + j;
    k := i + 1;
    var t := r[..k];
    assert r[i] == r[s..s + |obj|][j] == '}';
    LoneBraceIsLast(t, i);
    NoCommaBrace(items, tail, s, j);
    ClosedAfter(t, i);
    assert t[..i + 1] == r[..i + 1];
    InsideAnObjectIsNoPrefix(items, tail, 0, i);
  }

  lemma LoneBraceIsLast(t: string, i: nat)
    requires i + 1 == |t| && t[i] == '}'
    ensures LastIndex(t, "}") == i
  {
    assert t[i..i + 1] == "}";
    LastIndexIs(t, "}", i);
  }

  lemma NoCommaBrace(items: seq<Item>, tail: string, s: nat, j: nat)
    requires AllValid(items) && 0 < |items| && j < |items[0].obj| - 1
    requires s + |items[0].obj| == End(items, 1) < |Render(items, tail)|
    requires Render(items, tail)[s..s + |items[0].obj|] == items[0].obj
    requires forall j' :: 0 <= j' < j ==> !InnerBrace(items[0].obj, j')
    ensures LastIndex(Render(items, tail)[..s + j + 1], "},") < 0
  {
    var t := Render(items, tail)[..s + j + 1];
    forall p ensures !OccursAt(t, "},", p) {
      if 0 <= p && p + 2 <= |t| {
        FirstObjectStarts(items, tail, s, p);
        assert t[p..p + 2][0] == t[p] == Render(items, tail)[p];
        assert s <= p ==> !InnerBrace(items[0].obj, p - s);
      }
    }
  }

  /** The text before the end of the first object: a bracket, white space, the object. */
  lemma FirstObjectStarts(items: seq<Item>, tail: string, s: nat, p: nat)
    requires AllValid(items) && 0 < |items|
    requires s + |items[0].obj| == End(items, 1) < |Render(items, tail)| && p < End(items, 1)
    ensures p < s ==> Render(items, tail)[p] != '}'
    ensures s <= p ==> Render(items, tail)[p] == items[0].obj[p - s]
  {
    var it, r := items[0], Render(items, tail);
    Layout(items, tail, 1);
    assert Body(items[..1]) == it.ws + it.obj by { assert items[..1][..0] == []; }
    var front := "[" + it.ws + it.obj;
    assert r[..End(items, 1)] == front;
    assert r[p] == r[..End(items, 1)][p];
    assert 1 <= p < s ==> front[p] == it.ws[p - 1];
  }

  // ---------- The exact condition ----------

  ghost predicate EveryCutPrintsPrefix(items: seq<Item>, tail: string) {
    forall k :: 1 <= k <= |Render(items, tail)| ==> PrintsPrefix(items, CloseJSONArray(Render(items, tail)[..k]))
  }

  /** Main result: truncation is repaired to a printed prefix of the list, wherever it happened,
      exactly for the cut-safe lists; objects without an inner closing brace are all cut-safe. */
  lemma RepairedCutsPrintPrefixIff(items: seq<Item>, tail: string)
    requires AllValid(items) && JsonWs(tail)
    ensures EveryCutPrintsPrefix(items, tail) <==> CutSafe(items)
  {
    if CutSafe(items) {
      forall k | 1 <= k <= |Render(items, tail)|
        ensures PrintsPrefix(items, CloseJSONArray(Render(items, tail)[..k]))
      {
        var m := CutKeepsWholeItems(items, tail, k);
        assert JsonWs("\n") && JsonWs("");
      }
    } else if |items| > 0 && exists j :: InnerBrace(items[0].obj, j) {
      var j :| InnerBrace(items[0].obj, j);
      var k := UnsafeFirst(items, tail, j);
    } else {
      var q, j :| 0 < q < |items| && OccursAt(items[q].obj, "},", j);
      var k := UnsafeLater(items, tail, q, j);
    }
  }

  /** The property fails of the code on a string value that contains a brace and a comma. */
  lemma StringWithBraceIsCutWrong() returns (items: seq<Item>)
    ensures AllValid(items) && !EveryCutPrintsPrefix(items, "")
    ensures items == [Item("", "{}"), Item("", "{\"a\":\"},\"}")]
  {
    items := [Item("", "{}"), Item("", "{\"a\":\"},\"}")];
    assert items[1].obj[6..8] == "},";
    assert OccursAt(items[1].obj, "},", 6);
    var k := UnsafeLater(items, "", 1, 6);
  }

  // ---------- From the whole report ----------

  lemma TrimmedCut(r: string, k: nat) returns (k': nat)
    requires 1 <= k <= |r| && !IsSpace(r[0])
    ensures 1 <= k' <= k && TrimSpace(r[..k]) == r[..k']
  {
    var t := r[..k];
    assert TrimLeft(t) == t;
    k' := |TrimRight(t)|;
    TrimRightKeepsHead(t);
  }

  lemma {:induction false} TrimRightKeepsHead(t: string)
    requires t != "" && !IsSpace(t[0])
    ensures TrimRight(t) != ""
  {
    if IsSpace(t[|t| - 1]) { TrimRightKeepsHead(t[..|t| - 1]); }
  }

  /** A report cut inside an open `json` fence is delivered with that fence holding the first m
      objects, printed as the model printed them. */
  lemma TruncatedReportIsRepaired(before: string, items: seq<Item>, tail: string, k: nat) returns (m: nat)
    requires AllValid(items) && JsonWs(tail) && CutSafe(items) && 1 <= k <= |Render(items, tail)|
    requires var text := before + FENCE + "json\n" + Render(items, tail)[..k];
             CountFences(text) % 2 == 1 && LastIndex(text, FENCE) == |before|
    ensures m <= |items|
    ensures RepairTruncatedOutput(before + FENCE + "json\n" + Render(items, tail)[..k])
         == before + "```json\n" + Render(items[..m], if m == 0 then "" else "\n") + "\n```" + NOTICE
  {
    var r := Render(items, tail);
    var k1 := TrimmedCut(r, k);
    OpenFenceIsClosed(before, r[..k]);
    m := CutKeepsWholeItems(items, tail, k1);
  }

  /** What follows an open fence at the end of a report is closed as an array, if it starts like one. */
  lemma OpenFenceIsClosed(before: string, cut: string)
    requires cut != "" && cut[0] == '['
    requires var text := before + FENCE + "json\n" + cut;
             CountFences(text) % 2 == 1 && LastIndex(text, FENCE) == |before|
    ensures RepairTruncatedOutput(before + FENCE + "json\n" + cut)
         == before + "```json\n" + CloseJSONArray(TrimSpace(cut)) + "\n```" + NOTICE
  {
    var text := before + FENCE + "json\n" + cut;
    assert text[|before| + 3..] == "json\n" + cut;
    assert text[..|before|] == before;
    TagIsPeeled(cut);
    TrimmedHead(cut);
    RewrittenAt(text, |before|, TrimSpace(cut));
  }

  lemma TrimmedHead(cut: string)
    requires cut != "" && cut[0] == '['
    ensures "[" <= TrimSpace(cut)
  {
    var k := TrimmedCut(cut, |cut|);
    assert cut[..|cut|] == cut;
  }

  lemma RewrittenAt(text: string, at: nat, content: string)
    requires CountFences(text) % 2 == 1 && LastIndex(text, FENCE) == at && at + 3 <= |text|
    requires content == TrimSpace(TrimJsonTag(TrimSpace(text[at + 3..]))) && "[" <= content
    ensures RepairTruncatedOutput(text) == text[..at] + "```json\n" + CloseJSONArray(content) + "\n```" + NOTICE
  {
  }

  lemma TagIsPeeled(cut: string)
    requires cut != "" && cut[0] == '['
    ensures TrimSpace(TrimJsonTag(TrimSpace("json\n" + cut))) == TrimSpace(cut)
  {
    var rest := "json\n" + cut;
    assert TrimLeft(rest) == rest;
    TrimRightKeepsHead(cut);
    TrimRightAppends("json\n", cut);
    var c := TrimRight(cut);
    assert TrimSpace(rest) == "json\n" + c;
    assert TrimJsonTag("json\n" + c) == "\n" + c;
    assert ("\n" + c)[1..] == c && TrimLeft("\n" + c) == c;
    TrimRightIdempotent(cut);
    assert TrimLeft(cut) == cut;
  }

  lemma {:induction false} TrimRightAppends(a: string, b: string)
    requires TrimRight(b) != ""
    ensures TrimRight(a + b) == a + TrimRight(b)
  {
    if IsSpace(b[|b| - 1]) {
      assert (a + b)[..|a + b| - 1] == a + b[..|b| - 1];
      TrimRightAppends(a, b[..|b| - 1]);
    }
  }

  lemma {:induction false} TrimRightIdempotent(s: string)
    ensures TrimRight(TrimRight(s)) == TrimRight(s)
  {
    if s != "" && IsSpace(s[|s| - 1]) { TrimRightIdempotent(s[..|s| - 1]); }
  }
}
