/** Repair of a report that hit the output token limit (ai/report.go): an open code fence is
    closed and a half-written JSON array is cut back to its last complete item. */
module TruncationRepair {

  const FENCE: string := "```"
  const NOTICE: string := "\n\n> ⚠️ 보고서가 출력 토큰 한도에 도달해 일부 내용이 잘렸습니다."

  // ---------- Go's string helpers ----------

  /** Non-overlapping fences, counted from the left. */
  function CountFences(s: string): nat {
    if |s| < 3 then 0
    else if s[..3] == FENCE then 1 + CountFences(s[3..])
    else CountFences(s[1..])
  }

  predicate OccursAt(s: string, sub: string, i: int) {
    0 <= i && i + |sub| <= |s| && s[i..i + |sub|] == sub
  }

  ghost predicate FenceFree(s: string) { forall j :: !OccursAt(s, FENCE, j) }

  /** The last occurrence of `sub` that starts before `end`, or -1. */
  function LastIndexBefore(s: string, sub: string, end: nat): (i: int)
    ensures -1 <= i < end
    ensures i >= 0 ==> OccursAt(s, sub, i)
    ensures forall j :: i < j < end ==> !OccursAt(s, sub, j)
  {
    if end == 0 then -1
    else if OccursAt(s, sub, end - 1) then end - 1
    else LastIndexBefore(s, sub, end - 1)
  }

  function LastIndex(s: string, sub: string): (i: int)
    ensures i == -1 || OccursAt(s, sub, i)
    ensures forall j :: i < j ==> !OccursAt(s, sub, j)
  {
    LastIndexBefore(s, sub, |s| + 1)
  }

  predicate IsSpace(c: char) {
    || '\t' <= c <= '\r' || c == ' ' || c == '\U{0085}' || c == '\U{00A0}' || c == '\U{1680}'
    || '\U{2000}' <= c <= '\U{200A}' || c == '\U{2028}' || c == '\U{2029}' || c == '\U{202F}'
    || c == '\U{205F}' || c == '\U{3000}'
  }

  function TrimLeft(s: string): string {
    if s != "" && IsSpace(s[0]) then TrimLeft(s[1..]) else s
  }

  function TrimRight(s: string): (r: string)
    ensures r <= s
  {
    if s != "" && IsSpace(s[|s| - 1]) then TrimRight(s[..|s| - 1]) else s
  }

  function TrimSpace(s: string): string { TrimRight(TrimLeft(s)) }

  function TrimJsonTag(s: string): string { if "json" <= s then s[4..] else s }

  // ---------- The two functions under study ----------

  /** Cuts a partially written array back to its last complete item and closes it. */
  function CloseJSONArray(content: string): string {
    var comma := LastIndex(content, "},");
    var idx := if comma < 0 then LastIndex(content, "}") else comma;
    if idx < 0 then "[]" else content[..idx + 1] + "\n]"
  }

  function RepairTruncatedOutput(text: string): string {
    if CountFences(text) % 2 == 0 then text + NOTICE
    else
      CountedFenceOccurs(text);
      var lastFence := LastIndex(text, FENCE);
      var content := TrimSpace(TrimJsonTag(TrimSpace(text[lastFence + 3..])));
      if "[" <= content then
        text[..lastFence] + "```json\n" + CloseJSONArray(content) + "\n```" + NOTICE
      else text + "\n```" + NOTICE
  }

  // ---------- Fences of the output are always balanced ----------

  lemma {:induction false} CountedFenceOccurs(s: string)
    requires CountFences(s) > 0
    ensures LastIndex(s, FENCE) >= 0
  {
    if s[..3] == FENCE {
      assert OccursAt(s, FENCE, 0);
    } else {
      CountedFenceOccurs(s[1..]);
      var i := LastIndex(s[1..], FENCE);
      assert s[1..][i..i + 3] == s[i + 1..i + 4];
      assert OccursAt(s, FENCE, i + 1);
    }
  }

  /** A text that goes on with something other than a backtick starts a fresh count. */
  lemma {:induction false} CountConcat(a: string, b: string)
    requires b != "" && b[0] != '`'
    ensures CountFences(a + b) == CountFences(a) + CountFences(b)
  {
    if a == "" {
      assert a + b == b;
    } else if |a| >= 3 && a[..3] == FENCE {
      assert (a + b)[..3] == a[..3] && (a + b)[3..] == a[3..] + b;
      CountConcat(a[3..], b);
    } else {
      assert (a + b)[1..] == a[1..] + b;
      CountConcat(a[1..], b);
      assert |a| >= 3 ==> (a + b)[..3] == a[..3];
      assert |a| < 3 && |a + b| >= 3 ==> (a + b)[..3][|a|] == b[0] && FENCE[|a|] == '`';
    }
  }

  lemma {:induction false} NoFenceCountsZero(s: string)
    requires FenceFree(s)
    ensures CountFences(s) == 0
  {
    if |s| >= 3 {
      assert !OccursAt(s, FENCE, 0);
      forall j ensures !OccursAt(s[1..], FENCE, j) {
        if OccursAt(s[1..], FENCE, j) {
          assert s[1..][j..j + 3] == s[j + 1..j + 4];
          assert OccursAt(s, FENCE, j + 1);
        }
      }
      NoFenceCountsZero(s[1..]);
    }
  }

  lemma SliceOfSlice(s: string, from: nat, to: nat, a: nat, b: nat)
    requires a <= b && from + b <= to <= |s|
    ensures s[from..to][a..b] == s[from + a..from + b]
  {
    assert forall i :: 0 <= i < b - a ==> s[from..to][a..b][i] == s[from + a..from + b][i];
  }

  lemma SubstringHasNoFence(s: string, from: nat, to: nat)
    requires from <= to <= |s|
    requires forall j :: from <= j ==> !OccursAt(s, FENCE, j)
    ensures FenceFree(s[from..to])
  {
    forall j ensures !OccursAt(s[from..to], FENCE, j) {
      if OccursAt(s[from..to], FENCE, j) {
        SliceOfSlice(s, from, to, j, j + 3);
        assert OccursAt(s, FENCE, from + j);
      }
    }
  }

  /** Everything counted lies at or before the last fence, however long its run of backticks is. */
  lemma CountStopsAtLastFence(text: string)
    requires CountFences(text) > 0
    ensures LastIndex(text, FENCE) >= 0
    ensures CountFences(text[..LastIndex(text, FENCE) + 3]) == CountFences(text)
    ensures FenceFree(text[LastIndex(text, FENCE) + 3..])
  {
    CountedFenceOccurs(text);
    var i := LastIndex(text, FENCE);
    var rest := text[i + 3..];
    SubstringHasNoFence(text, i + 3, |text|);
    assert text[i + 3..|text|] == rest;
    NoFenceCountsZero(rest);
    assert text == text[..i + 3] + rest;
    if rest == "" {
      assert text[..i + 3] == text;
    } else {
      assert !OccursAt(text, FENCE, i + 1);
      assert text[i + 1..i + 4] == text[i..i + 3][1..] + [rest[0]];
      assert FENCE == FENCE[1..] + ['`'];
      CountConcat(text[..i + 3], rest);
    }
  }

  lemma {:induction false} TrimLeftIsSuffix(s: string) returns (k: nat)
    ensures k <= |s| && TrimLeft(s) == s[k..]
  {
    k := 0;
    if s != "" && IsSpace(s[0]) {
      var k' := TrimLeftIsSuffix(s[1..]);
      k := k' + 1;
    }
  }

  lemma TrimIsSubstring(s: string) returns (from: nat, to: nat)
    ensures from <= to <= |s| && TrimSpace(s) == s[from..to]
  {
    from := TrimLeftIsSuffix(s);
    to := from + |TrimSpace(s)|;
    assert TrimSpace(s) == s[from..][..|TrimSpace(s)|];
  }

  /** Text without a fence stays without one when whitespace or a tag is trimmed off. */
  lemma TrimKeepsFenceFree(s: string)
    requires FenceFree(s)
    ensures FenceFree(TrimSpace(s))
  {
    var from, to := TrimIsSubstring(s);
    SubstringHasNoFence(s, from, to);
  }

  lemma ContentIsFenceFree(rest: string)
    requires FenceFree(rest)
    ensures FenceFree(TrimSpace(TrimJsonTag(TrimSpace(rest))))
  {
    TrimKeepsFenceFree(rest);
    var t := TrimSpace(rest);
    if "json" <= t { SubstringHasNoFence(t, 4, |t|); assert t[4..|t|] == t[4..]; }
    TrimKeepsFenceFree(TrimJsonTag(t));
  }

  lemma ClosedArrayCountsZero(content: string)
    requires FenceFree(content)
    ensures CountFences(CloseJSONArray(content)) == 0
  {
    var comma := LastIndex(content, "},");
    var idx := if comma < 0 then LastIndex(content, "}") else comma;
    if idx >= 0 {
      SubstringHasNoFence(content, 0, idx + 1);
      assert content[0..idx + 1] == content[..idx + 1];
      NoFenceCountsZero(content[..idx + 1]);
      CountConcat(content[..idx + 1], "\n]");
    }
  }

  lemma NoBacktickCountsZero(s: string)
    requires '`' !in s
    ensures CountFences(s) == 0
  {
    forall j ensures !OccursAt(s, FENCE, j) {
      assert 0 <= j && j + 3 <= |s| ==> s[j..j + 3][0] in s;
    }
    NoFenceCountsZero(s);
  }

  lemma NoticeCountsZero()
    ensures CountFences(NOTICE) == 0 && NOTICE[0] == '\n'
  {
    NoBacktickCountsZero(NOTICE);
  }

  lemma ClosingFenceCountsOne()
    ensures CountFences("\n```") == 1
  {
    assert "\n```"[1..] == FENCE;
    assert FENCE[..3] == FENCE && FENCE[3..] == "";
    assert CountFences(FENCE) == 1;
  }

  lemma CountThree(a: string, b: string, c: string)
    requires b != "" && b[0] != '`' && c != "" && c[0] != '`'
    ensures CountFences(a + b + c) == CountFences(a) + CountFences(b) + CountFences(c)
  {
    CountConcat(a, b);
    CountConcat(a + b, c);
  }

  lemma CountFive(a: string, b: string, c: string, d: string, e: string)
    requires b != "" && b[0] != '`' && c != "" && c[0] != '`'
    requires d != "" && d[0] != '`' && e != "" && e[0] != '`'
    ensures CountFences(a + b + c + d + e)
         == CountFences(a) + CountFences(b) + CountFences(c) + CountFences(d) + CountFences(e)
  {
    CountThree(a, b, c);
    CountThree(a + b + c, d, e);
  }

  lemma TagCountsZero()
    ensures CountFences("json\n") == 0
  {
    NoBacktickCountsZero("json\n");
  }

  lemma RewrittenBlockCount(head: string, closed: string)
    requires "[" <= closed && CountFences(closed) == 0
    ensures CountFences(head + "json\n" + closed + "\n```" + NOTICE) == CountFences(head) + 1
  {
    var tag, close, notice := "json\n", "\n```", NOTICE;
    assert CountFences(notice) == 0 && notice[0] == '\n' by { NoticeCountsZero(); }
    assert CountFences(close) == 1 by { ClosingFenceCountsOne(); }
    assert CountFences(tag) == 0 by { TagCountsZero(); }
    CountFive(head, tag, closed, close, notice);
  }

  lemma ClosedStartsWithBracket(content: string)
    requires "[" <= content
    ensures "[" <= CloseJSONArray(content)
  {
    var comma := LastIndex(content, "},");
    var idx := if comma < 0 then LastIndex(content, "}") else comma;
    assert idx >= 0 ==> content[..idx + 1][0] == '[';
  }

  /** What the last fence opens, trimmed and without its language tag. */
  function Opened(text: string): string
    requires LastIndex(text, FENCE) >= 0
  {
    TrimSpace(TrimJsonTag(TrimSpace(text[LastIndex(text, FENCE) + 3..])))
  }

  lemma BalancedRewriting(text: string)
    requires CountFences(text) % 2 == 1 && LastIndex(text, FENCE) >= 0 && "[" <= Opened(text)
    ensures CountFences(text[..LastIndex(text, FENCE)] + "```json\n" + CloseJSONArray(Opened(text)) + "\n```" + NOTICE)
         == CountFences(text) + 1
  {
    CountStopsAtLastFence(text);
    var i := LastIndex(text, FENCE);
    ContentIsFenceFree(text[i + 3..]);
    ClosedArrayCountsZero(Opened(text));
    ClosedStartsWithBracket(Opened(text));
    RewrittenBlockCount(text[..i + 3], CloseJSONArray(Opened(text)));
    SameRewriting(text, i, CloseJSONArray(Opened(text)));
  }

  lemma BalancedAppending(text: string)
    ensures CountFences(text + NOTICE) == CountFences(text)
    ensures CountFences(text + "\n```" + NOTICE) == CountFences(text) + 1
  {
    var close, notice := "\n```", NOTICE;
    assert CountFences(notice) == 0 && notice[0] == '\n' by { NoticeCountsZero(); }
    assert CountFences(close) == 1 by { ClosingFenceCountsOne(); }
    CountConcat(text, notice);
    CountThree(text, close, notice);
  }

  lemma OddHasFence(text: string)
    requires CountFences(text) % 2 == 1
    ensures LastIndex(text, FENCE) >= 0
  {
    CountStopsAtLastFence(text);
  }

  /** Main result: whatever the model wrote, the report that is delivered has no open fence. */
  lemma RepairedFencesAreBalanced(text: string)
    ensures CountFences(RepairTruncatedOutput(text)) % 2 == 0
  {
    var n, out := CountFences(text), RepairTruncatedOutput(text);
    assert CountFences(out) == n + n % 2 by {
      if n % 2 == 0 {
        assert out == text + NOTICE;
        BalancedAppending(text);
      } else {
        OddHasFence(text);
        if "[" <= Opened(text) { BalancedRewriting(text); } else { BalancedAppending(text); }
      }
    }
  }

  // ---------- What the output keeps of the report ----------

  predicate EndsWith(s: string, tail: string) { |tail| <= |s| && s[|s| - |tail|..] == tail }

  /** An odd number of fences, and the last one opens something that starts like an array. */
  predicate OpensArray(text: string) {
    CountFences(text) % 2 == 1 && (OddHasFence(text); "[" <= Opened(text))
  }

  /** Main result: the reader is told of the cut, and loses nothing else: the delivered report ends with the notice
      and starts with the whole text, or, if its last fence opens an array, with the text up to that fence, tagged as
      JSON, and a part of the array that ends with a brace, or none. */
  lemma RepairKeepsReport(text: string) returns (cut: string)
    ensures EndsWith(RepairTruncatedOutput(text), NOTICE)
    ensures !OpensArray(text) ==> text <= RepairTruncatedOutput(text)
    ensures OpensArray(text) ==>
      && LastIndex(text, FENCE) >= 0 && cut <= Opened(text) && (cut != "" ==> EndsWith(cut, "}"))
      && text[..LastIndex(text, FENCE)] + "```json\n" + (if cut == "" then "[]" else cut + "\n]")
         <= RepairTruncatedOutput(text)
  {
    var out := RepairTruncatedOutput(text);
    cut := "";
    if OpensArray(text) {
      OddHasFence(text);
      cut := ClosedKeeps(Opened(text));
      RewrittenKeeps(text[..LastIndex(text, FENCE)] + "```json\n", CloseJSONArray(Opened(text)));
    } else {
      AppendedKeeps(text);
    }
  }

  lemma AppendedKeeps(text: string)
    ensures EndsWith(text + NOTICE, NOTICE) && text <= text + NOTICE
    ensures EndsWith(text + "\n```" + NOTICE, NOTICE) && text <= text + "\n```" + NOTICE
  {
  }

  lemma RewrittenKeeps(head: string, closed: string)
    ensures EndsWith(head + closed + "\n```" + NOTICE, NOTICE) && head + closed <= head + closed + "\n```" + NOTICE
  {
  }

  lemma ClosedKeeps(content: string) returns (cut: string)
    ensures cut <= content && CloseJSONArray(content) == if cut == "" then "[]" else cut + "\n]"
    ensures cut != "" ==> EndsWith(cut, "}")
  {
    var comma := LastIndex(content, "},");
    var idx := if comma < 0 then LastIndex(content, "}") else comma;
    cut := if idx < 0 then "" else content[..idx + 1];
    if comma >= 0 {
      assert content[comma..comma + 2][0] == '}';
    } else if idx >= 0 {
      assert content[idx..idx + 1][0] == '}';
    }
  }

  /** The rewritten text keeps the opening fence in place and tags it `json`. */
  lemma SameRewriting(text: string, i: nat, closed: string)
    requires OccursAt(text, FENCE, i)
    ensures text[..i] + "```json\n" + closed + "\n```" + NOTICE
         == text[..i + 3] + "json\n" + closed + "\n```" + NOTICE
  {
    assert text[..i + 3] == text[..i] + FENCE;
    assert "```json\n" == FENCE + "json\n";
    assert text[..i] + "```json\n" == text[..i + 3] + "json\n";
  }
}
