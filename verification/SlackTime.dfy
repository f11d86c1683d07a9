/** Slack timestamps: message ids such as "1789546445.856419" that double as instants. The scanners
    compare them as strings; the window is computed on the parsed instant (channels/slack.go,
    scanner/scanner_slack.go). Instants are microseconds since the epoch. */
module SlackTime {

  type Micros = int

  const SECOND: Micros := 1_000_000
  const DAY: Micros := 24 * 3600 * SECOND
  const DEFAULT_LOOKBACK: Micros := DAY
  const CATCH_UP_CAP: Micros := 29 * DAY

  // ---------- String order and parsed order ----------

  predicate Digit(c: char) { '0' <= c <= '9' }

  predicate Digits(s: string) { forall i :: 0 <= i < |s| ==> Digit(s[i]) }

  /** Ten digits of seconds, a dot, six digits of microseconds. */
  predicate WellFormed(ts: string) {
    |ts| == 17 && ts[10] == '.' && Digits(ts[..10]) && Digits(ts[11..])
  }

  /** Go's `<` on strings. */
  predicate Less(a: string, b: string) {
    if b == "" then false
    else if a == "" then true
    else if a[0] != b[0] then a[0] < b[0]
    else Less(a[1..], b[1..])
  }

  function Pow10(n: nat): (p: nat)
    ensures p > 0
  {
    if n == 0 then 1 else 10 * Pow10(n - 1)
  }

  function DigitValue(c: char): nat
    requires Digit(c)
  {
    c as int - '0' as int
  }

  function Number(s: string): (v: nat)
    requires Digits(s)
    ensures v < Pow10(|s|)
  {
    if s == "" then 0 else 10 * Number(s[..|s| - 1]) + DigitValue(s[|s| - 1])
  }

  /** The number of leading digits, what a "%d" verb consumes. */
  function DigitRun(s: string): nat {
    if s == "" || !Digit(s[0]) then 0 else 1 + DigitRun(s[1..])
  }

  lemma {:induction false} DigitRunIs(s: string)
    ensures DigitRun(s) <= |s| && Digits(s[..DigitRun(s)])
    ensures DigitRun(s) < |s| ==> !Digit(s[DigitRun(s)])
  {
    if s != "" && Digit(s[0]) {
      var n := DigitRun(s[1..]);
      DigitRunIs(s[1..]);
      assert s[..n + 1] == [s[0]] + s[1..][..n];
    }
  }

  /** Sscanf "%d.%d" on unsigned numbers: the fraction is read as a count of microseconds. */
  function ParseSlackTimestamp(ts: string): Micros {
    DigitRunIs(ts);
    var n := DigitRun(ts);
    var sec := Number(ts[..n]);
    if n == 0 || n == |ts| || ts[n] != '.' then sec * SECOND
    else
      var frac := ts[n + 1..];
      DigitRunIs(frac);
      sec * SECOND + Number(frac[..DigitRun(frac)])
  }

  lemma TakeAndDrop(s: string, n: nat)
    requires 0 < n <= |s|
    ensures s[..n][1..] == s[1..][..n - 1] && s[1..][n - 1..] == s[n..] && s[..n][0] == s[0]
  {
    assert forall i :: 0 <= i < n - 1 ==> s[..n][1..][i] == s[1..][..n - 1][i];
    assert forall i :: 0 <= i < |s| - n ==> s[1..][n - 1..][i] == s[n..][i];
  }

  /** Strings that agree in layout compare block by block. */
  lemma {:induction false} LessSplits(a: string, b: string, n: nat)
    requires n <= |a| && n <= |b|
    ensures Less(a, b) <==> Less(a[..n], b[..n]) || (a[..n] == b[..n] && Less(a[n..], b[n..]))
  {
    if n > 0 {
      LessSplits(a[1..], b[1..], n - 1);
      TakeAndDrop(a, n);
      TakeAndDrop(b, n);
      assert a[..n] == [a[0]] + a[1..][..n - 1] && b[..n] == [b[0]] + b[1..][..n - 1];
    } else {
      assert a[..0] == "" && b[..0] == "" && a[0..] == a && b[0..] == b;
    }
  }

  lemma LessOne(x: char, y: char)
    ensures Less([x], [y]) <==> x < y
  {
    assert [x][1..] == "" && [y][1..] == "";
  }

  /** Digit strings of the same length compare like the numbers they denote. */
  lemma {:induction false} LessIsNumberOrder(a: string, b: string)
    requires Digits(a) && Digits(b) && |a| == |b|
    ensures Less(a, b) <==> Number(a) < Number(b)
    ensures a == b <==> Number(a) == Number(b)
  {
    if a != "" {
      var n := |a| - 1;
      LessIsNumberOrder(a[..n], b[..n]);
      LessSplits(a, b, n);
      LessOne(a[n], b[n]);
      assert a[n..] == [a[n]] && b[n..] == [b[n]];
      assert a == a[..n] + [a[n]] && b == b[..n] + [b[n]];
      assert a[n] < b[n] <==> DigitValue(a[n]) < DigitValue(b[n]);
      assert a[n] == b[n] <==> DigitValue(a[n]) == DigitValue(b[n]);
    }
  }

  lemma ParsedValue(ts: string)
    requires WellFormed(ts)
    ensures ParseSlackTimestamp(ts) == Number(ts[..10]) * SECOND + Number(ts[11..])
  {
    DigitRunStops(ts, 10);
    var frac := ts[11..];
    DigitRunStops(frac, 6);
    assert frac[..6] == frac;
  }

  lemma {:induction false} DigitRunStops(s: string, n: nat)
    requires n <= |s| && Digits(s[..n]) && (n < |s| ==> !Digit(s[n]))
    ensures DigitRun(s) == n
  {
    if n > 0 {
      assert s[..n][0] == s[0];
      assert s[1..][..n - 1] == s[..n][1..];
      DigitRunStops(s[1..], n - 1);
    }
  }

  lemma Pow10Six()
    ensures Pow10(6) == SECOND
  {
    assert Pow10(6) == 10 * Pow10(5) == 100 * Pow10(4) == 1000 * Pow10(3);
    assert Pow10(3) == 10 * Pow10(2) == 100 * Pow10(1) == 1000 * Pow10(0);
  }

  /** Main result: comparing well-formed ids as strings is comparing the instants they denote. The
      missing cursor "" is below every id, as instant 0 is below every positive instant. */
  lemma StringOrderIsTimeOrder(a: string, b: string)
    requires WellFormed(a) && WellFormed(b)
    ensures Less(a, b) <==> ParseSlackTimestamp(a) < ParseSlackTimestamp(b)
    ensures a == b <==> ParseSlackTimestamp(a) == ParseSlackTimestamp(b)
    ensures Less("", a) && !Less(a, "")
  {
    ParsedValue(a);
    ParsedValue(b);
    LessSplits(a, b, 10);
    LessIsNumberOrder(a[..10], b[..10]);
    LessSplits(a[10..], b[10..], 1);
    assert a[10..][..1] == "." && b[10..][..1] == ".";
    assert a[10..][1..] == a[11..] && b[10..][1..] == b[11..];
    assert !Less(".", ".");
    LessIsNumberOrder(a[11..], b[11..]);
    Pow10Six();
    assert a == a[..10] + "." + a[11..] && b == b[..10] + "." + b[11..];
    FieldOrder(Number(a[..10]), Number(a[11..]), Number(b[..10]), Number(b[11..]));
  }

  lemma FieldOrder(s1: nat, u1: nat, s2: nat, u2: nat)
    requires u1 < SECOND && u2 < SECOND
    ensures s1 * SECOND + u1 < s2 * SECOND + u2 <==> s1 < s2 || (s1 == s2 && u1 < u2)
    ensures s1 * SECOND + u1 == s2 * SECOND + u2 <==> s1 == s2 && u1 == u2
  {
  }

  // ---------- Cursors and the scan window ----------

  /** A cursor as an instant; NONE stands for the empty string. */
  type Ts = nat
  const NONE: Ts := 0

  /** The oldest instant a scan processes (slackScanWindow). */
  function SlackScanWindow(minTS: Ts, now: Micros): Micros {
    var def := now - DEFAULT_LOOKBACK;
    if minTS == NONE then def
    else if minTS < SECOND || minTS > def then def
    else if minTS < now - CATCH_UP_CAP then now - CATCH_UP_CAP
    else minTS
  }

  /** The window never narrows below a day nor widens past the cap, and it starts at or before the
      cursor unless the cursor itself is older than the cap or there is none. */
  lemma WindowBounds(minTS: Ts, now: Micros)
    ensures now - CATCH_UP_CAP <= SlackScanWindow(minTS, now) <= now - DEFAULT_LOOKBACK
    ensures minTS >= SECOND ==>
      (SlackScanWindow(minTS, now) <= minTS <==> minTS >= now - CATCH_UP_CAP)
  {
  }

  /** It is no wider than that takes: it starts at the latest such instant, and without a cursor a day back. */
  lemma WindowIsNoWider(minTS: Ts, now: Micros, t: Micros)
    requires now - 29 * DAY <= t <= now - DAY && (t <= minTS || t == now - 29 * DAY)
    ensures t <= SlackScanWindow(minTS, now)
    ensures minTS < SECOND ==> SlackScanWindow(minTS, now) == now - DAY
  {
  }

  /** getMinLastTS: "" as soon as one user has no cursor, else the smallest of them. */
  method GetMinLastTS(cursors: seq<Ts>) returns (min: Ts)
    ensures min == NONE <==> cursors == [] || NONE in cursors
    ensures min != NONE ==> min in cursors
    ensures forall i :: 0 <= i < |cursors| && min != NONE ==> min <= cursors[i]
    ensures min == MinCursor(cursors)
  {
    min := NONE;
    for i := 0 to |cursors|
      invariant NONE !in cursors[..i]
      invariant min == NONE <==> i == 0
      invariant min != NONE ==> min in cursors[..i] && forall j :: 0 <= j < i ==> min <= cursors[j]
    {
      if cursors[i] == NONE {
        MinCursorIs(cursors, NONE);
        return NONE;
      }
      if min == NONE || cursors[i] < min {
        min := cursors[i];
      }
    }
    assert cursors[..|cursors|] == cursors;
    MinCursorIs(cursors, min);
  }

  /** The same minimum as a function, for use in specifications. */
  function MinCursor(cursors: seq<Ts>): Ts {
    if cursors == [] then NONE
    else if |cursors| == 1 then cursors[0]
    else
      var m := MinCursor(cursors[1..]);
      if cursors[0] < m then cursors[0] else m
  }

  lemma {:induction false} MinCursorIs(cursors: seq<Ts>, m: Ts)
    requires cursors != [] ==> m in cursors && forall i :: 0 <= i < |cursors| ==> m <= cursors[i]
    requires cursors == [] ==> m == NONE
    ensures MinCursor(cursors) == m
  {
    if |cursors| > 1 {
      MinCursorLeast(cursors);
      var i :| 0 <= i < |cursors| && cursors[i] == m;
    }
  }

  lemma {:induction false} MinCursorLeast(cursors: seq<Ts>)
    requires cursors != []
    ensures MinCursor(cursors) in cursors
    ensures forall i :: 0 <= i < |cursors| ==> MinCursor(cursors) <= cursors[i]
  {
    if |cursors| > 1 {
      MinCursorLeast(cursors[1..]);
      forall i | 0 <= i < |cursors| ensures MinCursor(cursors) <= cursors[i] {
        if i > 0 { assert cursors[i] == cursors[1..][i - 1]; }
      }
    }
  }

  /** Whenever every user has a cursor no older than the cap, the scan starts early enough for all. */
  lemma WindowCoversEveryUser(cursors: seq<Ts>, now: Micros, i: nat)
    requires i < |cursors|
    requires forall j :: 0 <= j < |cursors| ==> cursors[j] >= SECOND && cursors[j] >= now - CATCH_UP_CAP
    ensures SlackScanWindow(MinCursor(cursors), now) <= cursors[i]
  {
    MinCursorLeast(cursors);
    var j :| 0 <= j < |cursors| && cursors[j] == MinCursor(cursors);
    assert MinCursor(cursors) <= cursors[i];
  }
}
