/** The indexer-lag banner: whether the circle's mirrored data is stale enough to warn about,
    how loudly, and the texts shown. `nowMs` stands for `Date.now()`. */
module IndexerLag {
  import opened Wrappers
  import opened JsSemantics

  const Ellipsis: char := '\U{2026}'

  // ---------------------------------------------------------------- whitespace collapsing

  /** The characters of `s` that are not white space, in order. */
  function NonSpace(s: string): (r: string)
    ensures |r| <= |s|
  {
    if s == [] then [] else (if IsJsSpace(s[0]) then [] else [s[0]]) + NonSpace(s[1..])
  }

  lemma {:induction false} NonSpaceConcat(a: string, b: string)
    ensures NonSpace(a + b) == NonSpace(a) + NonSpace(b)
  {
    if a != [] {
      assert (a + b)[1..] == a[1..] + b;
      NonSpaceConcat(a[1..], b);
    } else {
      assert a + b == b;
    }
  }

  lemma {:induction false} NonSpaceEmptyIff(s: string)
    ensures NonSpace(s) == [] <==> AllSpace(s)
  {
    if s != [] {
      NonSpaceEmptyIff(s[1..]);
      assert AllSpace(s) <==> IsJsSpace(s[0]) && AllSpace(s[1..]) by {
        if IsJsSpace(s[0]) && AllSpace(s[1..]) {
          forall i | 0 <= i < |s| ensures IsJsSpace(s[i]) {
            if i > 0 { assert s[i] == s[1..][i - 1]; }
          }
        }
      }
    }
  }

  /** No white space but the plain space, and never two spaces in a row. */
  predicate SingleSpaced(t: string) {
    (forall i :: 0 <= i < |t| && IsJsSpace(t[i]) ==> t[i] == ' ')
    && (forall i :: 0 < i < |t| && t[i - 1] == ' ' ==> t[i] != ' ')
  }

  /** `s.replaceAll(/\s+/g, " ")`: every maximal run of white space becomes one space. */
  function CollapseSpace(s: string): (r: string)
    ensures SingleSpaced(r)
    ensures r != [] <==> s != []
    ensures r != [] ==> (r[0] == ' ' <==> IsJsSpace(s[0]))
    decreases |s|
  {
    if s == [] then []
    else if IsJsSpace(s[0]) then
      var rest := TrimStart(s);
      var tail := CollapseSpace(rest);
      assert forall i :: 0 < i < |tail| + 1 ==> (" " + tail)[i] == tail[i - 1];
      " " + tail
    else
      var tail := CollapseSpace(s[1..]);
      assert forall i :: 0 < i < |tail| + 1 ==> ([s[0]] + tail)[i] == tail[i - 1];
      [s[0]] + tail
  }

  /** Collapsing works piece by piece: a cut after a non-space character changes nothing. */
  lemma {:induction false} CollapseConcat(x: string, y: string)
    requires x != [] ==> !IsJsSpace(x[|x| - 1])
    ensures CollapseSpace(x + y) == CollapseSpace(x) + CollapseSpace(y)
    decreases |x|
  {
    if x == [] {
      assert x + y == y;
    } else if !IsJsSpace(x[0]) {
      assert (x + y)[1..] == x[1..] + y;
      CollapseConcat(x[1..], y);
    } else {
      var k := LeadingSpace(x);
      assert x == x[..k] + x[k..];
      assert x + y == x[..k] + (x[k..] + y);
      LeadingSpacePadded(x[..k], x[k..] + y);
      assert TrimStart(x + y) == x[k..] + y;
      CollapseConcat(x[k..], y);
    }
  }

  /** A run of white space between two non-space characters becomes exactly one space there. */
  lemma CollapseSpaceRun(x: string, w: string, y: string)
    requires w != [] && AllSpace(w)
    requires x != [] ==> !IsJsSpace(x[|x| - 1])
    requires y != [] ==> !IsJsSpace(y[0])
    ensures CollapseSpace(x + w + y) == CollapseSpace(x) + " " + CollapseSpace(y)
  {
    assert x + w + y == x + (w + y);
    CollapseConcat(x, w + y);
    TrimStartPadded(w, y);
  }

  lemma NonSpaceOfAllSpace(s: string)
    requires AllSpace(s)
    ensures NonSpace(s) == []
  {
    NonSpaceEmptyIff(s);
  }

  /** Collapsing keeps every non-space character, in order. */
  lemma {:induction false} CollapseKeepsContent(s: string)
    ensures NonSpace(CollapseSpace(s)) == NonSpace(s)
    decreases |s|
  {
    if s == [] {
    } else if IsJsSpace(s[0]) {
      var rest := TrimStart(s);
      CollapseKeepsContent(rest);
      var k := |s| - |rest|;
      assert s == s[..k] + rest;
      NonSpaceConcat(s[..k], rest);
      NonSpaceOfAllSpace(s[..k]);
      NonSpaceConcat(" ", CollapseSpace(rest));
    } else {
      CollapseKeepsContent(s[1..]);
      NonSpaceConcat([s[0]], CollapseSpace(s[1..]));
    }
  }

  /** A cleaned text: single-spaced and neither starting nor ending with a space. */
  predicate IsClean(t: string) {
    SingleSpaced(t) && (t != [] ==> t[0] != ' ' && t[|t| - 1] != ' ')
  }

  lemma SlicePreservesSingleSpaced(t: string, i: nat, j: nat)
    requires SingleSpaced(t) && i <= j <= |t|
    ensures SingleSpaced(t[i..j])
  {
    var u := t[i..j];
    assert forall k :: 0 <= k < |u| ==> u[k] == t[i + k];
  }

  /** Trimming removes white space only. */
  lemma NonSpaceOfTrim(c: string)
    ensures NonSpace(Trim(c)) == NonSpace(c)
  {
    var r := Trim(c);
    var k := LeadingSpace(c);
    var front, back := c[..k], c[k + |r|..];
    assert c == front + r + back;
    NonSpaceConcat(front + r, back);
    NonSpaceConcat(front, r);
    NonSpaceOfAllSpace(front);
    NonSpaceOfAllSpace(back);
  }

  /** `input.replaceAll(/\s+/g, " ").trim()`: single-spaced, no space at either end, and the
      non-space characters of the input, in order. */
  function Clean(s: string): (r: string)
    ensures IsClean(r)
    ensures NonSpace(r) == NonSpace(s)
  {
    TrimOfCollapsed(s);
    Trim(CollapseSpace(s))
  }

  lemma TrimOfCollapsed(s: string)
    ensures IsClean(Trim(CollapseSpace(s)))
    ensures NonSpace(Trim(CollapseSpace(s))) == NonSpace(s)
  {
    var c := CollapseSpace(s);
    var r := Trim(c);
    SlicePreservesSingleSpaced(c, LeadingSpace(c), LeadingSpace(c) + |r|);
    assert SingleSpaced(r);
    NonSpaceOfTrim(c);
    CollapseKeepsContent(s);
  }

  /** The cleaned text is empty exactly when the input is white space only. */
  lemma CleanEmptyIff(s: string)
    ensures Clean(s) == [] <==> AllSpace(s)
  {
    NonSpaceEmptyIff(s);
    NonSpaceEmptyIff(Clean(s));
    if Clean(s) != [] {
      assert !IsJsSpace(Clean(s)[0]);
      assert !AllSpace(Clean(s));
    }
  }

  lemma {:induction false} CollapseOfSingleSpaced(t: string)
    requires SingleSpaced(t)
    ensures CollapseSpace(t) == t
    decreases |t|
  {
    if t != [] {
      SlicePreservesSingleSpaced(t, 1, |t|);
      CollapseOfSingleSpaced(t[1..]);
      if IsJsSpace(t[0]) {
        assert t[1..] != [] ==> !IsJsSpace(t[1..][0]) by {
          if |t| > 1 { assert t[1] == t[1..][0]; }
        }
        TrimStartPadded([t[0]], t[1..]);
        assert [t[0]] + t[1..] == t;
      }
    }
  }

  /** Cleaning a cleaned text changes nothing. */
  lemma CleanOfClean(t: string)
    requires IsClean(t)
    ensures Clean(t) == t
  {
    CollapseOfSingleSpaced(t);
    if t != [] {
      TrimPadded([], t, []);
      assert [] + t + [] == t;
    }
  }

  lemma CleanIdempotent(s: string)
    ensures Clean(Clean(s)) == Clean(s)
  {
    CleanOfClean(Clean(s));
  }

  // ---------------------------------------------------------------- safeShort

  /** `s.slice(0, end)`: a negative end counts from the back. */
  function SliceTo(s: string, end: int): (r: string)
    ensures r <= s
    ensures 0 <= end <= |s| ==> |r| == end
    ensures end > |s| ==> r == s
    ensures end < 0 ==> |r| == if |s| + end > 0 then |s| + end else 0
  {
    if end < 0 then s[..if |s| + end > 0 then |s| + end else 0]
    else s[..if end < |s| then end else |s|]
  }

  /** `safeShort`: the cleaned text, cut to `maxLen` characters with an ellipsis when longer. */
  function SafeShort(input: string, maxLen: nat): (r: string)
    ensures maxLen >= 1 ==> |r| <= maxLen
    ensures |Clean(input)| <= maxLen ==> r == Clean(input)
    ensures |Clean(input)| > maxLen >= 1 ==> r == Clean(input)[..maxLen - 1] + [Ellipsis]
  {
    var clean := Clean(input);
    if |clean| <= maxLen then clean else SliceTo(clean, maxLen - 1) + [Ellipsis]
  }

  /** The short text is empty exactly when the input is white space only. */
  lemma SafeShortEmptyIff(input: string, maxLen: nat)
    ensures SafeShort(input, maxLen) == [] <==> AllSpace(input)
  {
    CleanEmptyIff(input);
  }

  /** A clean text cut short and marked with the ellipsis is still clean. */
  lemma TruncatedIsClean(t: string, n: nat)
    requires IsClean(t) && n <= |t|
    ensures IsClean(t[..n] + [Ellipsis])
  {
    var p := t[..n];
    var r := p + [Ellipsis];
    SlicePreservesSingleSpaced(t, 0, n);
    assert forall i :: 0 <= i < |p| ==> r[i] == p[i];
    assert r[|r| - 1] == Ellipsis;
    if |p| > 0 {
      assert r[0] == t[0];
    }
  }

  /** Shortening a shortened text changes nothing. */
  lemma SafeShortIdempotent(input: string, maxLen: nat)
    requires maxLen >= 1
    ensures SafeShort(SafeShort(input, maxLen), maxLen) == SafeShort(input, maxLen)
  {
    var clean := Clean(input);
    if |clean| > maxLen {
      TruncatedIsClean(clean, maxLen - 1);
    }
    CleanOfClean(SafeShort(input, maxLen));
  }

  // ---------------------------------------------------------------- ages

  /** `secondsAgo`: whole seconds since a parsed timestamp, never negative; None when the field
      is unset or does not parse. */
  function SecondsAgo(iso: TimeField, nowMs: int): (r: Option<int>)
    ensures r.Some? <==> iso.Set? && iso.parsedMs.Some?
    ensures r.Some? ==> r.value >= 0
    ensures r.Some? ==> var elapsed := if nowMs < iso.parsedMs.value then 0 else nowMs - iso.parsedMs.value;
      r.value * 1000 <= elapsed < r.value * 1000 + 1000
  {
    match iso
    case Set(Some(ms)) =>
      var s := (nowMs - ms) / 1000;
      Some(if s < 0 then 0 else s)
    case _ => None
  }

  lemma DivDiv(s: nat)
    ensures s / 60 / 60 == s / 3600
    ensures s / 60 % 60 == s % 3600 / 60
  {
    var h, rest := s / 3600, s % 3600;
    assert s == h * 3600 + rest;
    var m, sec := rest / 60, rest % 60;
    assert s == (h * 60 + m) * 60 + sec;
    assert s / 60 == h * 60 + m;
  }

  /** `fmtAgo`: seconds below a minute, then whole minutes below an hour, then hours and the
      minutes past the hour. Negative input reads as 0. */
  function FmtAgo(seconds: int): (r: string)
    ensures var s := if seconds < 0 then 0 else seconds;
      && (s < 60 ==> r == NatToDecimal(s) + "s ago")
      && (60 <= s < 3600 ==> r == NatToDecimal(s / 60) + "m ago")
      && (3600 <= s ==> r == NatToDecimal(s / 3600) + "h " + NatToDecimal(s % 3600 / 60) + "m ago")
  {
    var s := if seconds < 0 then 0 else seconds;
    var m := s / 60;
    DivDiv(s);
    if m < 1 then NatToDecimal(s) + "s ago"
    else
      var h := m / 60;
      if h < 1 then NatToDecimal(m) + "m ago"
      else NatToDecimal(h) + "h " + NatToDecimal(m % 60) + "m ago"
  }

  /** The figures shown account for the age to the minute: the minutes form names the whole
      minutes, the long form a number of hours and a minute count below 60 that together fall
      short of the age by less than a minute. */
  lemma FmtAgoAccurate(s: nat)
    ensures 60 <= s < 3600 ==>
      exists m: nat :: (1 <= m < 60 && m * 60 <= s < m * 60 + 60
                        && FmtAgo(s) == NatToDecimal(m) + "m ago")
    ensures 3600 <= s ==>
      exists h: nat, m: nat :: (1 <= h && m < 60 && h * 3600 + m * 60 <= s < h * 3600 + m * 60 + 60
                                && FmtAgo(s) == NatToDecimal(h) + "h " + NatToDecimal(m) + "m ago")
  {
    if 3600 <= s {
      var h, m := s / 3600, s % 3600 / 60;
      assert h * 3600 + m * 60 <= s < h * 3600 + m * 60 + 60;
      assert FmtAgo(s) == NatToDecimal(h) + "h " + NatToDecimal(m) + "m ago";
    } else if 60 <= s {
      var m := s / 60;
      assert m * 60 <= s < m * 60 + 60;
      assert FmtAgo(s) == NatToDecimal(m) + "m ago";
    }
  }

  // ---------------------------------------------------------------- the staleness decision

  /** The indexer-health fields of a mirrored circle. */
  datatype IndexerMeta = IndexerMeta(
    lastIndexedAt: TimeField,
    lastIndexerAttemptAt: TimeField,
    lastIndexerError: Option<string>)

  /** What the banner shows. */
  datatype Banner = Banner(critical: bool, title: string, ageText: string, errText: Option<string>)

  datatype Level = Fresh | Warning | Critical

  const WarnSec: int := 5 * 60
  const CritSec: int := 15 * 60
  const ErrMaxLen: nat := 120

  /** `hasError`: there is an error text with a character that is not white space. */
  function HasError(c: IndexerMeta): (r: bool)
    ensures r <==> c.lastIndexerError.Some? && !AllSpace(c.lastIndexerError.value)
  {
    if c.lastIndexerError.None? then false
    else
      TrimEmptyIff(c.lastIndexerError.value);
      |Trim(c.lastIndexerError.value)| > 0
  }

  /** Whether the last successful indexing time is set and parses. */
  predicate HasLastSuccess(c: IndexerMeta) {
    c.lastIndexedAt.Set? && c.lastIndexedAt.parsedMs.Some?
  }

  /** `isStale`: five minutes or more since the last success when there is one, otherwise an
      error. */
  function IsStale(c: IndexerMeta, nowMs: int): (r: bool)
    ensures HasLastSuccess(c) ==> (r <==> nowMs - c.lastIndexedAt.parsedMs.value >= 300_000)
    ensures !HasLastSuccess(c) ==> (r <==> HasError(c))
  {
    var lastOkSec := SecondsAgo(c.lastIndexedAt, nowMs);
    if lastOkSec.Some? then lastOkSec.value >= WarnSec else HasError(c)
  }

  /** `critical`: as `isStale`, with fifteen minutes for five; critical data is always stale. */
  function IsCritical(c: IndexerMeta, nowMs: int): (r: bool)
    ensures HasLastSuccess(c) ==> (r <==> nowMs - c.lastIndexedAt.parsedMs.value >= 900_000)
    ensures !HasLastSuccess(c) ==> (r <==> HasError(c))
    ensures r ==> IsStale(c, nowMs)
  {
    var lastOkSec := SecondsAgo(c.lastIndexedAt, nowMs);
    if lastOkSec.Some? then lastOkSec.value >= CritSec else HasError(c)
  }

  /** `ageText`: the last-success age, else the last-attempt age, else "unknown". */
  function AgeText(c: IndexerMeta, nowMs: int): (r: string)
    ensures SecondsAgo(c.lastIndexedAt, nowMs).Some? ==>
      r == "Last sync: " + FmtAgo(SecondsAgo(c.lastIndexedAt, nowMs).value)
    ensures SecondsAgo(c.lastIndexedAt, nowMs).None? && SecondsAgo(c.lastIndexerAttemptAt, nowMs).Some? ==>
      r == "Last attempt: " + FmtAgo(SecondsAgo(c.lastIndexerAttemptAt, nowMs).value)
    ensures SecondsAgo(c.lastIndexedAt, nowMs).None? && SecondsAgo(c.lastIndexerAttemptAt, nowMs).None? ==>
      r == "Sync status unknown"
  {
    var lastOkSec := SecondsAgo(c.lastIndexedAt, nowMs);
    var lastAttemptSec := SecondsAgo(c.lastIndexerAttemptAt, nowMs);
    if lastOkSec.Some? then "Last sync: " + FmtAgo(lastOkSec.value)
    else if lastAttemptSec.Some? then "Last attempt: " + FmtAgo(lastAttemptSec.value)
    else "Sync status unknown"
  }

  /** An error that is not blank still shows as text after cleaning. */
  lemma ErrTextNotEmpty(c: IndexerMeta)
    ensures HasError(c) ==> SafeShort(c.lastIndexerError.value, ErrMaxLen) != []
  {
    if HasError(c) {
      TrimEmptyIff(c.lastIndexerError.value);
      SafeShortEmptyIff(c.lastIndexerError.value, ErrMaxLen);
    }
  }

  /** The banner for a circle, or None when there is no circle or its data is fresh. */
  function IndexerLagBanner(circle: Option<IndexerMeta>, nowMs: int): (r: Option<Banner>)
    ensures circle.None? ==> r.None?
    ensures circle.Some? ==> (r.Some? <==> IsStale(circle.value, nowMs))
    ensures r.Some? ==> r.value.critical == IsCritical(circle.value, nowMs)
    ensures r.Some? ==> (r.value.title == "Chain sync delayed" <==> r.value.critical)
    ensures r.Some? ==> (!r.value.critical <==> r.value.title == "Sync delayed")
    ensures r.Some? ==> r.value.ageText == AgeText(circle.value, nowMs)
    ensures r.Some? ==> (r.value.errText.Some? <==> HasError(circle.value))
    ensures r.Some? && r.value.errText.Some? ==>
      0 < |r.value.errText.value| <= ErrMaxLen
      && r.value.errText.value == SafeShort(circle.value.lastIndexerError.value, ErrMaxLen)
  {
    if circle.None? then None
    else
      var c := circle.value;
      if !IsStale(c, nowMs) then None
      else
        var critical := IsCritical(c, nowMs);
        var title := if critical then "Chain sync delayed" else "Sync delayed";
        var errText := if HasError(c) then Some(SafeShort(c.lastIndexerError.value, ErrMaxLen)) else None;
        ErrTextNotEmpty(c);
        Some(Banner(critical, title, AgeText(c, nowMs), errText))
  }

  /** The three staleness levels: no banner, a warning, a critical banner. */
  function LevelOf(circle: Option<IndexerMeta>, nowMs: int): (r: Level)
    ensures r == Fresh <==> circle.None? || !IsStale(circle.value, nowMs)
    ensures r == Critical <==> circle.Some? && IsCritical(circle.value, nowMs)
  {
    match IndexerLagBanner(circle, nowMs)
    case None => Fresh
    case Some(b) => if b.critical then Critical else Warning
  }

  /** By the last successful indexing time: fresh below 5 minutes, a warning from 5 minutes,
      critical from 15 minutes, whatever the error and attempt fields say. */
  lemma LevelByLastSuccess(c: IndexerMeta, ms: int, nowMs: int)
    requires c.lastIndexedAt == Set(Some(ms))
    ensures LevelOf(Some(c), nowMs) ==
      if nowMs - ms < 300_000 then Fresh else if nowMs - ms < 900_000 then Warning else Critical
  {
  }

  /** Without a last-success time the banner shows exactly when there is an error, and then it
      is critical. */
  lemma LevelWithoutLastSuccess(c: IndexerMeta, nowMs: int)
    requires SecondsAgo(c.lastIndexedAt, nowMs).None?
    ensures LevelOf(Some(c), nowMs) == if HasError(c) then Critical else Fresh
  {
  }
}
