/**
 * The shared helpers: duration and clock formatting, grouping of sessions by
 * project, and the overlap of a session with a time range.
 */
module Utils {
  import opened TimeTypes
  import opened TextFormat

  /** JavaScript's `%`, which truncates toward zero (Dafny's `%` is Euclidean). */
  function JsRem(a: int, b: int): int
    requires b > 0
  {
    if a >= 0 then a % b else -((-a) % b)
  }

  // ---------------------------------------------------------------- formatHMS

  /** The hour, minute and second numbers that formatHMS prints:
      `Math.floor` division by a positive divisor is Dafny's `/`. */
  function HMSParts(ms: int): (int, int, int) {
    var s := ms / 1000;
    (s / 3600, JsRem(s, 3600) / 60, JsRem(s, 60))
  }

  /** "hh:mm:ss", each field zero-padded to at least two characters. */
  function FormatHMS(ms: int): string {
    var p := HMSParts(ms);
    Pad2(p.0) + ":" + Pad2(p.1) + ":" + Pad2(p.2)
  }

  /** For a non-negative duration the three fields split the whole seconds. */
  lemma {:induction false} FormatHMSSplit(ms: int)
    requires ms >= 0
    ensures var p := HMSParts(ms);
      p.0 >= 0 && 0 <= p.1 < 60 && 0 <= p.2 < 60 &&
      p.0 * 3600 + p.1 * 60 + p.2 == ms / 1000
  {
    var s := ms / 1000;
    var h, r := s / 3600, s % 3600;
    var m, q := r / 60, r % 60;
    assert s == 3600 * h + r;
    assert r == 60 * m + q;
    assert s == 60 * (60 * h + m) + q;
    assert s % 60 == q;
  }

  /** `r` has the shape "h…h:mm:ss" (a colon three and six characters from
      the end, digits elsewhere, at least two hour digits) and its fields
      read back as `secs` whole seconds. */
  predicate ReadsAsSeconds(r: string, secs: int) {
    |r| >= 8 && r[|r| - 3] == ':' && r[|r| - 6] == ':' &&
    AllDigits(r[..|r| - 6]) && AllDigits(r[|r| - 5..|r| - 3]) && AllDigits(r[|r| - 2..]) &&
    ParseNat(r[..|r| - 6]) * 3600 + ParseNat(r[|r| - 5..|r| - 3]) * 60 + ParseNat(r[|r| - 2..]) == secs
  }

  /** The text of formatHMS reads back as the whole seconds of the duration. */
  lemma {:induction false} FormatHMSRoundTrip(ms: int)
    requires ms >= 0
    ensures ReadsAsSeconds(FormatHMS(ms), ms / 1000)
  {
    FormatHMSSplit(ms);
    var p := HMSParts(ms);
    var h, m, sec := p.0, p.1, p.2;
    FieldsReadBack(h, m, sec);
    assert FormatHMS(ms) == Pad2(h) + ":" + Pad2(m) + ":" + Pad2(sec);
    assert h * 3600 + m * 60 + sec == ms / 1000;
  }

  lemma {:induction false} FieldsReadBack(h: nat, m: nat, sec: nat)
    requires m < 60 && sec < 60
    ensures ReadsAsSeconds(Pad2(h) + ":" + Pad2(m) + ":" + Pad2(sec), h * 3600 + m * 60 + sec)
  {
    Pad2RoundTrip(h);
    Pad2RoundTrip(m);
    Pad2RoundTrip(sec);
    ColonFields(Pad2(h), Pad2(m), Pad2(sec));
  }

  lemma {:induction false} ColonFields(a: string, b: string, c: string)
    requires |a| >= 2 && |b| == 2 && |c| == 2
    requires AllDigits(a) && AllDigits(b) && AllDigits(c)
    ensures ReadsAsSeconds(a + ":" + b + ":" + c, ParseNat(a) * 3600 + ParseNat(b) * 60 + ParseNat(c))
  {
    var p1 := a + ":";
    var p2 := p1 + b;
    var p3 := p2 + ":";
    var r := p3 + c;
    assert r[|r| - 2..] == c;
    assert r[..|r| - 2] == p3;
    assert r[|r| - 3] == ':';
    assert r[..|r| - 3] == p2 by {
      assert p3[..|p2|] == p2;
    }
    assert r[|r| - 5..|r| - 3] == b by {
      assert p2[|p1|..] == b;
    }
    assert r[|r| - 6] == ':';
    assert r[..|r| - 6] == a by {
      assert p2[..|p1|] == p1;
      assert p1[..|a|] == a;
    }
  }

  // ----------------------------------------------------------------- formatHM

  /** The rounded minutes and the hour and minute numbers that formatHM
      prints. `Math.round(x)` is `floor(x + 1/2)`, so on integer milliseconds
      it is `floor((ms + 30000) / 60000)`. */
  function HMParts(ms: int): (int, int, int) {
    var mins := (ms + 30000) / 60000;
    (mins, mins / 60, JsRem(mins, 60))
  }

  /** "{h}h {m}m" when the hour is positive, "{m}m" otherwise. */
  function FormatHM(ms: int): string {
    var p := HMParts(ms);
    if p.1 > 0 then IntToString(p.1) + "h " + IntToString(p.2) + "m" else IntToString(p.2) + "m"
  }

  /** formatHM rounds to the nearest minute, halves upward, then splits the
      minutes into hours and minutes below 60. */
  lemma {:induction false} FormatHMRounds(ms: int)
    requires ms >= 0
    ensures var p := HMParts(ms);
      ms - 30000 < p.0 * 60000 <= ms + 30000 &&
      p.1 >= 0 && 0 <= p.2 < 60 && p.1 * 60 + p.2 == p.0
  {
    var p := HMParts(ms);
    assert (ms + 30000) == 60000 * p.0 + (ms + 30000) % 60000;
  }

  /** Anything under half a minute shows as "0m". */
  lemma {:induction false} FormatHMUnderHalfMinute(ms: int)
    requires 0 <= ms < 30000
    ensures FormatHM(ms) == "0m"
  {
    assert HMParts(ms) == (0, 0, 0);
    assert NatToString(0) == "0";
  }

  /** The position of the first occurrence of `c` in `s`. */
  function IndexOf(s: string, c: char): (r: Option<nat>)
    ensures r.Some? ==> r.value < |s| && s[r.value] == c && c !in s[..r.value]
    ensures r.None? ==> c !in s
  {
    if s == [] then None
    else if s[0] == c then Some(0)
    else match IndexOf(s[1..], c)
      case None => None
      case Some(k) => Some(k + 1)
  }

  /** A decimal field as `toString()` prints it: digits, with no leading
      zero unless the field is "0". */
  predicate Canonical(s: string) {
    |s| >= 1 && AllDigits(s) && (|s| > 1 ==> s[0] != '0')
  }

  /** Reads formatHM's text back into its hour and minute fields: either
      "{h}h {m}m" with h at least 1, or "{m}m"; both fields canonical and the
      minutes below 60. Any other text is refused. */
  function ParseHM(s: string): Option<(int, int)> {
    if |s| < 2 || s[|s| - 1] != 'm' then None else ParseHMBody(s[..|s| - 1])
  }

  /** "{h}h {m}" or "{m}", without the final 'm'. */
  function ParseHMBody(body: string): Option<(int, int)> {
    match IndexOf(body, 'h')
    case None =>
      if Canonical(body) && ParseNat(body) < 60 then Some((0, ParseNat(body))) else None
    case Some(k) =>
      if k + 1 < |body| && body[k + 1] == ' ' && Canonical(body[..k]) && Canonical(body[k + 2..]) &&
         ParseNat(body[..k]) >= 1 && ParseNat(body[k + 2..]) < 60
      then Some((ParseNat(body[..k]), ParseNat(body[k + 2..])))
      else None
  }

  lemma {:induction false} DigitsHaveNoH(s: string)
    requires AllDigits(s)
    ensures 'h' !in s
  {
    assert forall i :: 0 <= i < |s| ==> s[i] != 'h';
  }

  lemma {:induction false} IndexOfAfter(a: string, b: string, c: char)
    requires c !in a && |b| > 0 && b[0] == c
    ensures IndexOf(a + b, c) == Some(|a|)
  {
    if a != [] {
      assert (a + b)[1..] == a[1..] + b;
      IndexOfAfter(a[1..], b, c);
    }
  }

  /** The text of formatHM reads back as its hour and minute fields, and it
      has an hour field exactly when the rounded duration is an hour or more. */
  lemma {:induction false} FormatHMRoundTrip(ms: int)
    requires ms >= 0
    ensures ParseHM(FormatHM(ms)) == Some((HMParts(ms).1, HMParts(ms).2))
    ensures 'h' in FormatHM(ms) <==> HMParts(ms).0 >= 60
  {
    FormatHMRounds(ms);
    var p := HMParts(ms);
    var h, m := p.1, p.2;
    ParseNatToString(h);
    ParseNatToString(m);
    if h > 0 {
      var r := NatToString(h) + "h " + NatToString(m) + "m";
      assert FormatHM(ms) == r;
      HourMinuteFields(NatToString(h), NatToString(m));
      assert r[|NatToString(h)|] == 'h';
    } else {
      assert FormatHM(ms) == NatToString(m) + "m";
      MinuteField(NatToString(m));
      DigitsHaveNoH(NatToString(m));
    }
  }

  lemma {:induction false} HourMinuteFields(hs: string, ms: string)
    requires Canonical(hs) && Canonical(ms) && ParseNat(hs) >= 1 && ParseNat(ms) < 60
    ensures ParseHM(hs + "h " + ms + "m") == Some((ParseNat(hs), ParseNat(ms)))
  {
    HourMinuteBody(hs, ms);
    ReadHourMinute(hs + "h " + ms, hs, ms);
  }

  /** Where the pieces of "{h}h {m}" sit. */
  lemma {:induction false} HourMinuteBody(hs: string, ms: string)
    requires AllDigits(hs)
    ensures var body := hs + "h " + ms;
      IndexOf(body, 'h') == Some(|hs|) && |hs| + 1 < |body| && body[|hs| + 1] == ' ' &&
      body[..|hs|] == hs && body[|hs| + 2..] == ms
  {
    DigitsHaveNoH(hs);
    var body := hs + "h " + ms;
    assert body == hs + ("h " + ms);
    IndexOfAfter(hs, "h " + ms, 'h');
  }

  lemma {:induction false} ReadHourMinute(body: string, hs: string, ms: string)
    requires Canonical(hs) && Canonical(ms) && ParseNat(hs) >= 1 && ParseNat(ms) < 60 && |body| >= 1
    requires IndexOf(body, 'h') == Some(|hs|) && |hs| + 1 < |body| && body[|hs| + 1] == ' '
    requires body[..|hs|] == hs && body[|hs| + 2..] == ms
    ensures ParseHM(body + "m") == Some((ParseNat(hs), ParseNat(ms)))
  {
    var s := body + "m";
    assert s[..|s| - 1] == body;
  }

  lemma {:induction false} MinuteField(ms: string)
    requires Canonical(ms) && ParseNat(ms) < 60
    ensures ParseHM(ms + "m") == Some((0, ParseNat(ms)))
  {
    DigitsHaveNoH(ms);
    var s := ms + "m";
    assert s[..|s| - 1] == ms;
  }

  /** A number with a non-zero leading digit is at least 1. */
  lemma {:induction false} LeadingNonZero(s: string)
    requires |s| >= 1 && AllDigits(s) && s[0] != '0'
    ensures ParseNat(s) >= 1
    decreases |s|
  {
    if |s| > 1 {
      var init := s[..|s| - 1];
      assert init[0] == s[0];
      LeadingNonZero(init);
    }
  }

  /** Canonical fields are exactly the texts `toString()` prints. */
  lemma {:induction false} CanonicalIsNatToString(s: string)
    requires Canonical(s)
    ensures s == NatToString(ParseNat(s))
    decreases |s|
  {
    var c := s[|s| - 1];
    assert DigitChar(DigitValue(c)) == c;
    if |s| > 1 {
      var init := s[..|s| - 1];
      assert init[0] == s[0];
      LeadingNonZero(init);
      CanonicalIsNatToString(init);
      var n := ParseNat(s);
      assert n == ParseNat(init) * 10 + DigitValue(c);
      assert n / 10 == ParseNat(init) && n % 10 == DigitValue(c);
      assert s == init + [c];
    }
  }

  /** A text that reads as (h, m) is the text formatHM prints for them. */
  lemma {:induction false} ParseHMText(s: string, h: nat, m: nat)
    requires ParseHM(s) == Some((h, m))
    ensures s == if h > 0 then NatToString(h) + "h " + NatToString(m) + "m" else NatToString(m) + "m"
  {
    var body := s[..|s| - 1];
    assert s == body + "m";
    match IndexOf(body, 'h')
    case None =>
      CanonicalIsNatToString(body);
    case Some(k) =>
      var hs, ms := body[..k], body[k + 2..];
      CanonicalIsNatToString(hs);
      CanonicalIsNatToString(ms);
      assert body == hs + "h " + ms;
  }

  /** formatHM's text is the only text that reads back as its hour and
      minute fields. */
  lemma {:induction false} FormatHMOnlyReading(ms: int, s: string)
    requires ms >= 0
    requires ParseHM(s) == ParseHM(FormatHM(ms))
    ensures s == FormatHM(ms)
  {
    FormatHMRounds(ms);
    FormatHMRoundTrip(ms);
    var p := HMParts(ms);
    ParseHMText(s, p.1, p.2);
  }

  // --------------------------------------------------------------- formatHHMM

  /** "HH:MM" of a clock reading (hours and minutes of a Date). */
  function FormatHHMM(hours: int, minutes: int): string
    requires 0 <= hours < 24 && 0 <= minutes < 60
  {
    Pad2(hours) + ":" + Pad2(minutes)
  }

  /** `r` is an "HH:MM" text whose fields read as the given numbers. */
  predicate ReadsAsClock(r: string, hours: int, minutes: int) {
    |r| == 5 && r[2] == ':' && AllDigits(r[..2]) && AllDigits(r[3..]) &&
    ParseNat(r[..2]) == hours && ParseNat(r[3..]) == minutes
  }

  /** Five characters, a colon in the middle, and both fields read back. */
  lemma {:induction false} FormatHHMMRoundTrip(hours: int, minutes: int)
    requires 0 <= hours < 24 && 0 <= minutes < 60
    ensures ReadsAsClock(FormatHHMM(hours, minutes), hours, minutes)
  {
    Pad2RoundTrip(hours);
    Pad2RoundTrip(minutes);
    ClockFields(Pad2(hours), Pad2(minutes));
  }

  lemma {:induction false} ClockFields(a: string, b: string)
    requires |a| == 2 && |b| == 2 && AllDigits(a) && AllDigits(b)
    ensures ReadsAsClock(a + ":" + b, ParseNat(a), ParseNat(b))
  {
    var r := a + ":" + b;
    assert r[..2] == a && r[3..] == b;
  }

  // ----------------------------------------------------------- groupByProject

  /** The project ids of `ss` in order of first appearance: the key order of
      the record groupByProject builds. */
  function ProjectOrder(ss: seq<Session>): seq<string> {
    if ss == [] then []
    else
      var ks := ProjectOrder(ss[..|ss| - 1]);
      var p := ss[|ss| - 1].project;
      if p in ks then ks else ks + [p]
  }

  /** The sessions of project `id`, in input order. */
  function SessionsOf(ss: seq<Session>, id: string): seq<Session> {
    if ss == [] then []
    else SessionsOf(ss[..|ss| - 1], id) + (if ss[|ss| - 1].project == id then [ss[|ss| - 1]] else [])
  }

  /** The keys are distinct, and are exactly the projects that occur. */
  lemma {:induction false} ProjectOrderKeys(ss: seq<Session>)
    ensures forall i, j :: 0 <= i < j < |ProjectOrder(ss)| ==> ProjectOrder(ss)[i] != ProjectOrder(ss)[j]
    ensures forall k :: k in ProjectOrder(ss) <==> exists s :: s in ss && s.project == k
  {
    if ss != [] {
      var init, x := ss[..|ss| - 1], ss[|ss| - 1];
      assert ss == init + [x];
      ProjectOrderKeys(init);
      var ks0 := ProjectOrder(init);
      assert ProjectOrder(ss) == if x.project in ks0 then ks0 else ks0 + [x.project];
      forall k
        ensures k in ProjectOrder(ss) <==> exists s :: s in ss && s.project == k
      {
        if k in ks0 {
          var s :| s in init && s.project == k;
          assert s in ss;
        } else if k == x.project {
          assert x in ss;
        } else {
          assert forall s :: s in ss ==> s in init || s == x;
        }
      }
    }
  }

  /** A group holds exactly the sessions of its project, and no more of them
      than the input. */
  lemma {:induction false} SessionsOfMembers(ss: seq<Session>, id: string)
    ensures forall s :: s in SessionsOf(ss, id) <==> s in ss && s.project == id
    ensures (forall s :: s in ss ==> s.project != id) ==> SessionsOf(ss, id) == []
    ensures |SessionsOf(ss, id)| <= |ss|
  {
    if ss != [] {
      var init := ss[..|ss| - 1];
      assert ss == init + [ss[|ss| - 1]];
      SessionsOfMembers(init, id);
    }
  }

  /** The record groupByProject returns: keys in insertion order, and the list under each. */
  datatype Grouping = Grouping(order: seq<string>, groups: map<string, seq<Session>>)

  /** `order` and `groups` are the record grouping `ss` builds. */
  ghost predicate IsGrouping(ss: seq<Session>, order: seq<string>, groups: map<string, seq<Session>>) {
    order == ProjectOrder(ss) &&
    (forall k :: k in groups <==> k in order) &&
    (forall k :: k in groups ==> groups[k] == SessionsOf(ss, k))
  }

  method GroupByProject(ss: seq<Session>) returns (g: Grouping)
    ensures g.order == ProjectOrder(ss)
    ensures g.groups.Keys == set k | k in g.order
    ensures forall k :: k in g.groups ==> g.groups[k] == SessionsOf(ss, k)
  {
    var order: seq<string> := [];
    var groups: map<string, seq<Session>> := map[];
    for i := 0 to |ss|
      invariant IsGrouping(ss[..i], order, groups)
    {
      var s := ss[i];
      ghost var order0, groups0 := order, groups;
      if s.project !in groups {
        order := order + [s.project];
        groups := groups[s.project := [s]];
      } else {
        groups := groups[s.project := groups[s.project] + [s]];
      }
      GroupingStep(ss[..i], s, order0, groups0, order, groups);
      assert ss[..i + 1] == ss[..i] + [s];
    }
    assert ss[..|ss|] == ss;
    assert groups.Keys == set k | k in order;
    g := Grouping(order, groups);
  }

  /** One more session: a new key at the end of the order with a group of
      its own, or one more entry at the end of its project's group. */
  lemma {:induction false} GroupingStep(ss: seq<Session>, s: Session, order: seq<string>, groups: map<string, seq<Session>>,
                                        order': seq<string>, groups': map<string, seq<Session>>)
    requires IsGrouping(ss, order, groups)
    requires s.project !in groups ==> order' == order + [s.project] && groups' == groups[s.project := [s]]
    requires s.project in groups ==> order' == order && groups' == groups[s.project := groups[s.project] + [s]]
    ensures IsGrouping(ss + [s], order', groups')
  {
    SnocStep(ss, s);
  }

  /** What one more session does to the key order and to each group. */
  lemma {:induction false} SnocStep(ss: seq<Session>, s: Session)
    ensures ProjectOrder(ss + [s]) ==
      if s.project in ProjectOrder(ss) then ProjectOrder(ss) else ProjectOrder(ss) + [s.project]
    ensures forall k :: SessionsOf(ss + [s], k) == SessionsOf(ss, k) + (if s.project == k then [s] else [])
    ensures s.project !in ProjectOrder(ss) ==> SessionsOf(ss, s.project) == []
  {
    var t := ss + [s];
    assert t[..|t| - 1] == ss && t[|t| - 1] == s;
    ProjectOrderKeys(ss);
    SessionsOfMembers(ss, s.project);
  }

  /** One more session joins the end of its own project's group only. */
  lemma {:induction false} SessionsOfSnoc(ss: seq<Session>, s: Session, k: string)
    ensures SessionsOf(ss + [s], k) == SessionsOf(ss, k) + (if s.project == k then [s] else [])
  {
    var t := ss + [s];
    assert t[..|t| - 1] == ss && t[|t| - 1] == s;
  }

  /** Every key has a non-empty group. */
  lemma {:induction false} GroupsNonEmpty(ss: seq<Session>, k: string)
    requires k in ProjectOrder(ss)
    ensures |SessionsOf(ss, k)| > 0
  {
    ProjectOrderKeys(ss);
    SessionsOfMembers(ss, k);
    var s :| s in ss && s.project == k;
    assert s in SessionsOf(ss, k);
  }

  /** Grouping keeps input order: the group of a concatenation is the
      concatenation of the groups. */
  lemma {:induction false} SessionsOfAppend(a: seq<Session>, b: seq<Session>, k: string)
    ensures SessionsOf(a + b, k) == SessionsOf(a, k) + SessionsOf(b, k)
    decreases |b|
  {
    if b == [] {
      assert a + b == a;
    } else {
      var b' := b[..|b| - 1];
      assert (a + b)[..|a + b| - 1] == a + b';
      SessionsOfAppend(a, b', k);
    }
  }

  /** The total size of the groups listed by `ks`. */
  function GroupSizes(ss: seq<Session>, ks: seq<string>): nat {
    if ks == [] then 0 else |SessionsOf(ss, ks[0])| + GroupSizes(ss, ks[1..])
  }

  lemma {:induction false} GroupSizesSnoc(ss: seq<Session>, ks: seq<string>, k: string)
    ensures GroupSizes(ss, ks + [k]) == GroupSizes(ss, ks) + |SessionsOf(ss, k)|
    decreases |ks|
  {
    if ks != [] {
      assert (ks + [k])[1..] == ks[1..] + [k];
      GroupSizesSnoc(ss, ks[1..], k);
    }
  }

  lemma {:induction false} GroupSizesStep(ss: seq<Session>, x: Session, ks: seq<string>)
    requires forall i, j :: 0 <= i < j < |ks| ==> ks[i] != ks[j]
    ensures GroupSizes(ss + [x], ks) == GroupSizes(ss, ks) + (if x.project in ks then 1 else 0)
    decreases |ks|
  {
    if ks != [] {
      SessionsOfAppend(ss, [x], ks[0]);
      assert SessionsOf([x], ks[0]) == SessionsOf([], ks[0]) + (if x.project == ks[0] then [x] else []) by {
        assert [x][..0] == [];
      }
      GroupSizesStep(ss, x, ks[1..]);
      if x.project == ks[0] {
        assert forall j :: 0 <= j < |ks[1..]| ==> ks[1..][j] != ks[0];
      } else {
        assert (x.project in ks) == (x.project in ks[1..]) by {
          assert ks == [ks[0]] + ks[1..];
        }
      }
    }
  }

  /** Each input session lands in exactly one group: the group sizes add up
      to the number of sessions, and a session only ever sits in the group of
      its own project (SessionsOf's contract). */
  lemma {:induction false} GroupSizesCoverInput(ss: seq<Session>)
    ensures GroupSizes(ss, ProjectOrder(ss)) == |ss|
    decreases |ss|
  {
    if ss != [] {
      var init, x := ss[..|ss| - 1], ss[|ss| - 1];
      assert ss == init + [x];
      ProjectOrderKeys(init);
      SnocStep(init, x);
      var ks := ProjectOrder(init);
      GroupSizesCoverInput(init);
      GroupSizesStep(init, x, ks);
      if x.project !in ks {
        GroupSizesSnoc(ss, ks, x.project);
      }
    }
  }

  // ---------------------------------------------------------- clampedDuration

  /** The part of a session that lies inside [rangeStart, rangeEnd). */
  function ClampedDuration(s: Session, rangeStart: int, rangeEnd: int): (r: int)
    ensures r >= 0
    ensures rangeStart <= rangeEnd ==> r <= rangeEnd - rangeStart
    ensures s.start <= s.end ==> r <= s.end - s.start
    ensures s.end <= rangeStart || rangeEnd <= s.start ==> r == 0
    ensures rangeStart <= s.start <= s.end <= rangeEnd ==> r == s.end - s.start
  {
    var start := if s.start > rangeStart then s.start else rangeStart;
    var end := if s.end < rangeEnd then s.end else rangeEnd;
    if end - start > 0 then end - start else 0
  }

  /** Clamping is additive over adjacent ranges. */
  lemma {:induction false} ClampedDurationSplit(s: Session, a: int, b: int, c: int)
    requires a <= b <= c
    ensures ClampedDuration(s, a, c) == ClampedDuration(s, a, b) + ClampedDuration(s, b, c)
  {
  }

  /** The clamped total of a list of sessions. The source's callers use a
      `getTotalTimeInRange` that is not defined in it; this is the sum of
      clampedDuration that its name and use describe. */
  function ClampedTotal(ss: seq<Session>, rangeStart: int, rangeEnd: int): (r: int)
    ensures r >= 0
  {
    if ss == [] then 0
    else ClampedDuration(ss[0], rangeStart, rangeEnd) + ClampedTotal(ss[1..], rangeStart, rangeEnd)
  }

  /** Over one day, no session contributes more than the day's length. */
  lemma {:induction false} ClampedTotalDayBound(ss: seq<Session>, day: int)
    ensures ClampedTotal(ss, day * DAY_MS, (day + 1) * DAY_MS) <= |ss| * DAY_MS
  {
    if ss != [] {
      ClampedTotalDayBound(ss[1..], day);
    }
  }

  /** The clamped total over [a, c) is the total over [a, b) plus over [b, c). */
  lemma {:induction false} ClampedTotalSplit(ss: seq<Session>, a: int, b: int, c: int)
    requires a <= b <= c
    ensures ClampedTotal(ss, a, c) == ClampedTotal(ss, a, b) + ClampedTotal(ss, b, c)
  {
    if ss != [] {
      ClampedDurationSplit(ss[0], a, b, c);
      ClampedTotalSplit(ss[1..], a, b, c);
    }
  }

  lemma {:induction false} ClampedTotalAppend(x: seq<Session>, y: seq<Session>, a: int, b: int)
    ensures ClampedTotal(x + y, a, b) == ClampedTotal(x, a, b) + ClampedTotal(y, a, b)
  {
    if x != [] {
      assert (x + y)[1..] == x[1..] + y;
      ClampedTotalAppend(x[1..], y, a, b);
    } else {
      assert x + y == y;
    }
  }

  /** No member of the list contributes more than the total. */
  lemma {:induction false} ClampedTotalCountsMember(ss: seq<Session>, s: Session, a: int, b: int)
    requires s in ss
    ensures ClampedTotal(ss, a, b) >= ClampedDuration(s, a, b)
  {
    if ss[0] != s {
      ClampedTotalCountsMember(ss[1..], s, a, b);
    }
  }
}
