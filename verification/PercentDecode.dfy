/**
 * Endpoint path validation under repeated percent-decoding
 * (clients/nzbget/client.go). A char stands for one byte.
 */
module PercentDecode {
  import opened Common
  import opened PathText

  const MAX_DECODES := 32

  function HexValue(c: char): nat
    requires IsHexDigit(c)
  {
    if '0' <= c <= '9' then (c - '0') as nat
    else if 'a' <= c <= 'f' then (c - 'a') as nat + 10
    else (c - 'A') as nat + 10
  }

  // A percent sign and two hexadecimal digits at the start of s.
  predicate EscapeAt(s: string) { |s| >= 3 && s[0] == '%' && IsHexDigit(s[1]) && IsHexDigit(s[2]) }

  predicate HasEscape(s: string) { exists i :: 0 <= i <= |s| && EscapeAt(s[i..]) }

  // Every valid escape decoded, every other byte kept.
  function Decode(s: string): string {
    if s == "" then ""
    else if EscapeAt(s) then [(HexValue(s[1]) * 16 + HexValue(s[2])) as char] + Decode(s[3..])
    else [s[0]] + Decode(s[1..])
  }

  predicate WellEscaped(s: string) {
    s == "" || if s[0] == '%' then EscapeAt(s) && WellEscaped(s[3..]) else WellEscaped(s[1..])
  }

  // url.PathUnescape
  function PathUnescape(s: string): Option<string> { if WellEscaped(s) then Some(Decode(s)) else None }

  // n rounds of decoding
  function Decoded(s: string, n: nat): string { if n == 0 then s else Decode(Decoded(s, n - 1)) }

  predicate Tail(c: char) { '\U{80}' <= c <= '\U{BF}' }

  // utf8.ValidString without a rune of unicode.IsControl
  predicate Printable(s: string) {
    if s == "" then true
    else if s[0] < '\U{80}' then '\U{20}' <= s[0] && s[0] != '\U{7F}' && Printable(s[1..])
    else if |s| >= 2 && '\U{C2}' <= s[0] <= '\U{DF}' then
      Tail(s[1]) && (s[0] == '\U{C2}' ==> '\U{A0}' <= s[1]) && Printable(s[2..])
    else if |s| >= 3 && '\U{E0}' <= s[0] <= '\U{EF}' then
      && Tail(s[1]) && Tail(s[2]) && (s[0] == '\U{E0}' ==> '\U{A0}' <= s[1]) && (s[0] == '\U{ED}' ==> s[1] < '\U{A0}')
      && Printable(s[3..])
    else if |s| >= 4 && '\U{F0}' <= s[0] <= '\U{F4}' then
      && Tail(s[1]) && Tail(s[2]) && Tail(s[3]) && (s[0] == '\U{F0}' ==> '\U{90}' <= s[1])
      && (s[0] == '\U{F4}' ==> s[1] < '\U{90}') && Printable(s[4..])
    else false
  }

  // No path separator of either kind.
  predicate NoSeparator(s: string) { '/' !in s && '\\' !in s }

  predicate Harmless(s: string) { s != "." && s != ".." && NoSeparator(s) }

  datatype Verdict = Accepted | Unsafe | Malformed | TooDeep

  // Round i decodes, changes the text and passes the checks.
  ghost predicate Passes(s: string, i: nat) {
    var before, after := Decoded(s, i), Decoded(s, i + 1);
    WellEscaped(before) && after != before && Printable(after) && Harmless(after)
  }

  // The first n rounds all pass.
  ghost predicate Reaches(s: string, n: nat) { forall i: nat :: i < n ==> Passes(s, i) }

  // Round n is the last: nothing is left to decode.
  ghost predicate SettlesAt(s: string, n: nat) {
    && Reaches(s, n) && !HasEscape(Decoded(s, n))
    && (WellEscaped(Decoded(s, n)) ==> Printable(Decoded(s, n)) && Harmless(Decoded(s, n)))
  }

  ghost predicate UnsafeAt(s: string, n: nat) {
    Reaches(s, n) && WellEscaped(Decoded(s, n)) && !(Printable(Decoded(s, n + 1)) && Harmless(Decoded(s, n + 1)))
  }

  ghost predicate MalformedAt(s: string, n: nat) {
    Reaches(s, n) && !WellEscaped(Decoded(s, n)) && HasEscape(Decoded(s, n))
  }

  ghost predicate VerdictOf(s: string, v: Verdict) {
    match v
    case Accepted => exists n: nat :: n < MAX_DECODES && SettlesAt(s, n)
    case Unsafe => exists n: nat :: n < MAX_DECODES && UnsafeAt(s, n)
    case Malformed => exists n: nat :: n < MAX_DECODES && MalformedAt(s, n)
    case TooDeep => Reaches(s, MAX_DECODES)
  }

  // hasPercentEscape
  method HasPercentEscape(value: string) returns (r: bool)
    ensures r == HasEscape(value)
  {
    var index := 0;
    while index + 2 < |value|
      invariant 0 <= index
      invariant forall i :: 0 <= i < index && i <= |value| ==> !EscapeAt(value[i..])
    {
      assert EscapeAt(value[index..]) <==>
             value[index] == '%' && IsHexDigit(value[index + 1]) && IsHexDigit(value[index + 2]);
      if value[index] == '%' && IsHexDigit(value[index + 1]) && IsHexDigit(value[index + 2]) {
        return true;
      }
      index := index + 1;
    }
    return false;
  }

  // unsafeEndpointSegment
  method UnsafeEndpointSegment(segment: string) returns (v: Verdict)
    ensures VerdictOf(segment, v)
  {
    hide WellEscaped, Decode, Printable, HasEscape, Harmless;
    var decoded := segment;
    for attempts := 0 to MAX_DECODES
      invariant decoded == Decoded(segment, attempts)
      invariant Reaches(segment, attempts)
    {
      var unescaped := PathUnescape(decoded);
      if unescaped.None? {
        var more := HasPercentEscape(decoded);
        if !more {
          assert SettlesAt(segment, attempts);
          return Accepted;
        }
        assert MalformedAt(segment, attempts);
        return Malformed;
      }
      assert unescaped.value == Decoded(segment, attempts + 1);
      if !Printable(unescaped.value) || !Harmless(unescaped.value) {
        assert UnsafeAt(segment, attempts);
        return Unsafe;
      }
      if unescaped.value == decoded {
        DecodeShortens(decoded);
        assert SettlesAt(segment, attempts);
        return Accepted;
      }
      decoded := unescaped.value;
    }
    return TooDeep;
  }

  // The outcome is determined: no text has two verdicts.
  lemma OneVerdict(s: string, v: Verdict, w: Verdict)
    requires VerdictOf(s, v) && VerdictOf(s, w)
    ensures v == w
  {
    hide WellEscaped, Decode, Printable, HasEscape, Harmless;
    var a := StopsAt(s, v);
    var b := StopsAt(s, w);
    if a < b && b <= MAX_DECODES {
      NoStopInside(s, v, a, b);
    } else if b < a && a <= MAX_DECODES {
      NoStopInside(s, w, b, a);
    } else if a < MAX_DECODES {
      DecodeShortens(Decoded(s, a));
    }
  }

  ghost predicate Stops(s: string, v: Verdict, n: nat) {
    match v
    case Accepted => n < MAX_DECODES && SettlesAt(s, n)
    case Unsafe => n < MAX_DECODES && UnsafeAt(s, n)
    case Malformed => n < MAX_DECODES && MalformedAt(s, n)
    case TooDeep => n == MAX_DECODES && Reaches(s, n)
  }

  lemma StopsAt(s: string, v: Verdict) returns (n: nat)
    requires VerdictOf(s, v)
    ensures n <= MAX_DECODES && Stops(s, v, n)
  {
    match v
    case Accepted => n :| n < MAX_DECODES && SettlesAt(s, n);
    case Unsafe => n :| n < MAX_DECODES && UnsafeAt(s, n);
    case Malformed => n :| n < MAX_DECODES && MalformedAt(s, n);
    case TooDeep => n := MAX_DECODES;
  }

  lemma NoStopInside(s: string, v: Verdict, a: nat, b: nat)
    requires a < b && Reaches(s, b)
    ensures !(a < MAX_DECODES && Stops(s, v, a))
  {
    hide WellEscaped, Decode, Printable, HasEscape, Harmless;
    assert Passes(s, a);
    DecodeShortens(Decoded(s, a));
  }

  // ------------------------------------------------------------ decoding lemmas

  function HexDigit(n: nat): char
    requires n < 16
  {
    if n < 10 then '0' + n as char else 'A' + (n - 10) as char
  }

  // Every byte written as an escape.
  function Escaped(s: string): string
    requires forall i :: 0 <= i < |s| ==> s[i] < '\U{100}'
  {
    if s == "" then ""
    else ['%', HexDigit(s[0] as nat / 16), HexDigit(s[0] as nat % 16)] + Escaped(s[1..])
  }

  // Decoding undoes escaping: an escape stands for the byte it spells.
  lemma {:induction false} DecodeUndoesEscaping(s: string)
    requires forall i :: 0 <= i < |s| ==> s[i] < '\U{100}'
    ensures WellEscaped(Escaped(s)) && Decode(Escaped(s)) == s
  {
    if s != "" {
      var e := Escaped(s);
      DecodeUndoesEscaping(s[1..]);
      HexRoundTrip(s[0] as nat / 16);
      HexRoundTrip(s[0] as nat % 16);
      assert e[3..] == Escaped(s[1..]) && EscapeAt(e);
      assert [s[0]] + s[1..] == s;
    }
  }

  lemma HexRoundTrip(n: nat)
    requires n < 16
    ensures IsHexDigit(HexDigit(n)) && HexValue(HexDigit(n)) == n
  {
  }

  // Text without a percent sign stands for itself.
  lemma {:induction false} PlainTextStays(s: string)
    requires '%' !in s
    ensures WellEscaped(s) && Decode(s) == s
  {
    if s != "" {
      assert s[0] in s && forall c :: c in s[1..] ==> c in s;
      PlainTextStays(s[1..]);
      assert [s[0]] + s[1..] == s;
    }
  }

  // A round that changes anything strictly shortens the text, by two bytes or more.
  lemma {:induction false} DecodeShortens(s: string)
    ensures HasEscape(s) ==> |Decode(s)| + 2 <= |s|
    ensures !HasEscape(s) ==> Decode(s) == s
    ensures Decode(s) != s <==> HasEscape(s)
  {
    if s == "" {
    } else if EscapeAt(s) {
      DecodeShortens(s[3..]);
      assert EscapeAt(s[0..]);
      assert |Decode(s[3..])| <= |s[3..]|;
    } else {
      DecodeShortens(s[1..]);
      EscapeLater(s);
      assert [s[0]] + s[1..] == s;
    }
  }

  lemma EscapeLater(s: string)
    requires s != "" && !EscapeAt(s)
    ensures HasEscape(s) <==> HasEscape(s[1..])
  {
    if HasEscape(s) {
      var i :| 0 <= i <= |s| && EscapeAt(s[i..]);
      assert s[0..] == s;
      assert s[1..][i - 1..] == s[i..];
    }
    if HasEscape(s[1..]) {
      var i :| 0 <= i <= |s[1..]| && EscapeAt(s[1..][i..]);
      assert s[i + 1..] == s[1..][i..];
    }
  }

  // Separators survive decoding.
  lemma {:induction false} SeparatorsStay(s: string, c: char)
    requires c in s && c != '%' && !IsHexDigit(c)
    ensures c in Decode(s)
  {
    if EscapeAt(s) {
      assert s == [s[0], s[1], s[2]] + s[3..];
      SeparatorsStay(s[3..], c);
    } else if s[0] != c {
      assert s == [s[0]] + s[1..];
      SeparatorsStay(s[1..], c);
    }
  }

  // Decoding works segment by segment.
  lemma {:induction false} DecodeSplits(a: string, b: string)
    ensures Decode(a + "/" + b) == Decode(a) + "/" + Decode(b)
  {
    var s := a + "/" + b;
    if a == "" {
      assert s[1..] == b;
    } else {
      EscapeSplits(a, b);
      var n := if EscapeAt(a) then 3 else 1;
      assert s[n..] == a[n..] + "/" + b;
      DecodeSplits(a[n..], b);
      Regroup(Decode(a)[0], Decode(a[n..]), Decode(b));
    }
  }

  // An escape cannot reach across a separator.
  lemma EscapeSplits(a: string, b: string)
    requires a != ""
    ensures var s := a + "/" + b; EscapeAt(s) == EscapeAt(a) && s[0] == a[0] && (EscapeAt(a) ==> s[..3] == a[..3])
  {
    var s := a + "/" + b;
    assert s[|a|] == '/' && forall i :: 0 <= i < |a| ==> s[i] == a[i];
  }

  lemma Regroup(c: char, x: string, y: string)
    ensures [c] + (x + "/" + y) == ([c] + x) + "/" + y
  {
  }

  lemma {:induction false} SettledStays(s: string, n: nat, m: nat)
    requires !HasEscape(Decoded(s, n)) && n <= m
    ensures Decoded(s, m) == Decoded(s, n)
  {
    if n < m {
      SettledStays(s, n, m - 1);
      DecodeShortens(Decoded(s, n));
    }
  }

  // A long chain needs a long text: a segment of at most 64 bytes never runs
  // out of rounds.
  lemma {:induction false} RoundsAreBounded(s: string, n: nat)
    requires Reaches(s, n)
    ensures |Decoded(s, n)| + 2 * n <= |s|
  {
    if n > 0 {
      RoundsAreBounded(s, n - 1);
      DecodeShortens(Decoded(s, n - 1));
      assert Passes(s, n - 1);
    }
  }

  lemma ShortSegmentsAreDecided(s: string)
    requires |s| < 64
    ensures !VerdictOf(s, TooDeep)
  {
    if Reaches(s, MAX_DECODES) {
      RoundsAreBounded(s, MAX_DECODES);
    }
  }

  // ---------------------------------------------------------------- main results

  // However often an accepted, well-escaped segment is decoded, it never turns
  // into a dot segment or gains a separator, and it ends with no escape left.
  lemma AcceptedStaysHarmless(s: string, m: nat)
    requires WellEscaped(s) && VerdictOf(s, Accepted)
    ensures Harmless(Decoded(s, m))
    ensures exists n: nat :: n < MAX_DECODES && !HasEscape(Decoded(s, n)) && Decoded(s, n + m) == Decoded(s, n)
  {
    hide WellEscaped, Decode, Printable, HasEscape;
    var n: nat :| n < MAX_DECODES && SettlesAt(s, n);
    SettledStays(s, n, n + m);
    if m >= n {
      SettledStays(s, n, m);
    }
    var k := if m < n then m else n;
    assert Decoded(s, m) == Decoded(s, k);
    if k > 0 {
      assert Passes(s, k - 1);
    } else if n > 0 {
      assert Passes(s, 0);
      FirstRound(s);
    }
  }

  lemma FirstRound(s: string)
    requires Decode(s) != s && Harmless(Decode(s))
    ensures Harmless(s)
  {
    DecodeShortens(s);
    if '/' in s {
      SeparatorsStay(s, '/');
    }
    if '\\' in s {
      SeparatorsStay(s, '\\');
    }
  }

  // Among accepted segments the guarantee fails exactly for malformed ones
  // that hold a separator: the fixed-point exit skips the checks on round one.
  lemma AcceptedIsHarmlessIff(s: string)
    requires VerdictOf(s, Accepted)
    ensures (forall m: nat :: Harmless(Decoded(s, m))) <==> WellEscaped(s) || NoSeparator(s)
  {
    if WellEscaped(s) {
      forall m: nat ensures Harmless(Decoded(s, m)) {
        AcceptedStaysHarmless(s, m);
      }
    } else {
      var n: nat :| n < MAX_DECODES && SettlesAt(s, n);
      FirstRoundDecodes(s, n);
      assert s != "." && s != ".." by { DotsAreWellEscaped(); }
      forall m: nat ensures Decoded(s, m) == s { SettledStays(s, 0, m); }
      assert Harmless(s) <==> NoSeparator(s);
      assert Decoded(s, 0) == s;
    }
  }

  lemma FirstRoundDecodes(s: string, n: nat)
    requires Reaches(s, n)
    ensures n > 0 ==> WellEscaped(s)
  {
    if n > 0 {
      assert Passes(s, 0);
    }
  }

  lemma DotsAreWellEscaped()
    ensures WellEscaped(".") && WellEscaped("..")
  {
    assert "."[1..] == "" && ".."[1..] == ".";
  }

  lemma MalformedSlips()
    ensures VerdictOf("\\%", Accepted) && !Harmless("\\%")
  {
    var s := "\\%";
    assert s[1..] == "%" && !WellEscaped("%") && !WellEscaped(s);
    assert !HasEscape(s);
    assert SettlesAt(s, 0);
  }

  // ------------------------------------------------------------------ whole paths

  // Segment i of an accepted path: empty at the start, possibly empty at the
  // end, accepted otherwise.
  ghost predicate SegmentOk(segments: seq<string>, i: nat)
    requires i < |segments|
  {
    if i == 0 then segments[0] == ""
    else if segments[i] == "" then i == |segments| - 1
    else VerdictOf(segments[i], Accepted)
  }

  // validateEndpointPath
  method ValidateEndpointPath(p: string) returns (ok: bool)
    ensures ok <==> p == "" || forall i: nat :: i < |Split(p)| ==> SegmentOk(Split(p), i)
  {
    hide VerdictOf;
    var segments := Split(p);
    if p == "" || p == "/" {
      if p == "/" {
        assert p[1..] == "";
        assert segments == [""] + Split("");
      }
      return true;
    }
    if p[0] != '/' {
      assert segments[0] != "" && !SegmentOk(segments, 0);
      return false;
    }
    assert segments[0] == "";
    for index := 0 to |segments|
      invariant forall i: nat :: i < index ==> SegmentOk(segments, i)
    {
      if index == 0 {
        continue;
      }
      var segment := segments[index];
      if segment == "" {
        if index == |segments| - 1 {
          continue;
        }
        assert !SegmentOk(segments, index);
        return false;
      }
      var v := UnsafeEndpointSegment(segment);
      if v != Accepted {
        if VerdictOf(segment, Accepted) {
          OneVerdict(segment, v, Accepted);
        }
        assert !SegmentOk(segments, index);
        return false;
      }
    }
    return true;
  }

  // However often an accepted, well-escaped path is decoded as a whole, it
  // keeps its segments: each is the decoded original and none is a dot segment.
  lemma AcceptedPathKeepsItsSegments(p: string, n: nat)
    requires WellEscaped(p) && forall i: nat :: i < |Split(p)| ==> SegmentOk(Split(p), i)
    ensures var now := Split(Decoded(p, n));
      && |now| == |Split(p)|
      && forall i: nat :: i < |now| ==> now[i] == Decoded(Split(p)[i], n) && Harmless(now[i])
  {
    hide WellEscaped, SegmentOk, Harmless, Decode;
    var parts := Split(p);
    forall i: nat | i < |parts| ensures Harmless(Decoded(parts[i], n)) {
      SegmentWellEscaped(p, i);
      SegmentHarmless(parts, i, n);
    }
    JoinSplit(p);
    DecodedJoin(parts, n);
    var later := seq(|parts|, i requires 0 <= i < |parts| => Decoded(parts[i], n));
    forall i | 0 <= i < |later| ensures SlashFree(later[i]) {
      HarmlessSlashFree(later[i]);
    }
    SplitJoin(later);
  }

  lemma HarmlessSlashFree(s: string)
    requires Harmless(s)
    ensures SlashFree(s)
  {
  }

  lemma SegmentHarmless(parts: seq<string>, i: nat, n: nat)
    requires i < |parts| && SegmentOk(parts, i) && WellEscaped(parts[i])
    ensures Harmless(Decoded(parts[i], n))
  {
    if parts[i] == "" {
      EmptyStays(n);
    } else {
      AcceptedStaysHarmless(parts[i], n);
    }
  }

  lemma {:induction false} EmptyStays(n: nat)
    ensures Decoded("", n) == ""
  {
    if n > 0 {
      EmptyStays(n - 1);
    }
  }

  lemma SplitEscape(p: string)
    requires EscapeAt(p)
    ensures var rest := Split(p[3..]); Split(p) == [[p[0], p[1], p[2]] + rest[0]] + rest[1..]
  {
    var rest := Split(p[3..]);
    assert p[1..][1..] == p[2..] && p[2..][1..] == p[3..];
    var two := Split(p[2..]);
    assert two == [[p[2]] + rest[0]] + rest[1..];
    var one := Split(p[1..]);
    assert one == [[p[1]] + two[0]] + two[1..];
    assert one[0] == [p[1], p[2]] + rest[0] && one[1..] == rest[1..];
    assert [p[0]] + ([p[1], p[2]] + rest[0]) == [p[0], p[1], p[2]] + rest[0];
  }

  lemma {:induction false} SegmentWellEscaped(p: string, i: nat)
    requires WellEscaped(p) && i < |Split(p)|
    ensures WellEscaped(Split(p)[i])
  {
    if p == "" {
    } else if p[0] == '/' {
      if i > 0 {
        SegmentWellEscaped(p[1..], i - 1);
      }
    } else if p[0] == '%' {
      SplitEscape(p);
      SegmentWellEscaped(p[3..], i);
      var rest := Split(p[3..]);
      if i == 0 {
        assert ([p[0], p[1], p[2]] + rest[0])[3..] == rest[0];
      }
    } else {
      SegmentWellEscaped(p[1..], i);
      var rest := Split(p[1..]);
      if i == 0 {
        assert ([p[0]] + rest[0])[1..] == rest[0];
      }
    }
  }

  lemma {:induction false} DecodedJoin(parts: seq<string>, n: nat)
    requires parts != []
    ensures Decoded(Join(parts), n) == Join(seq(|parts|, i requires 0 <= i < |parts| => Decoded(parts[i], n)))
    decreases n, |parts|
  {
    hide Decode, Join;
    var after := seq(|parts|, i requires 0 <= i < |parts| => Decoded(parts[i], n));
    if n == 0 {
      assert after == parts;
    } else {
      var before := seq(|parts|, i requires 0 <= i < |parts| => Decoded(parts[i], n - 1));
      DecodedJoin(parts, n - 1);
      DecodeJoin(before);
      assert after == seq(|before|, i requires 0 <= i < |before| => Decode(before[i]));
    }
  }

  lemma {:induction false} DecodeJoin(parts: seq<string>)
    requires parts != []
    ensures Decode(Join(parts)) == Join(seq(|parts|, i requires 0 <= i < |parts| => Decode(parts[i])))
  {
    var after := seq(|parts|, i requires 0 <= i < |parts| => Decode(parts[i]));
    if |parts| > 1 {
      DecodeSplits(parts[0], Join(parts[1..]));
      DecodeJoin(parts[1..]);
      assert after[1..] == seq(|parts[1..]|, i requires 0 <= i < |parts[1..]| => Decode(parts[1..][i]));
    }
  }

  // ------------------------------------------------------- what is printable

  // A Unicode scalar value outside the control characters.
  predicate Visible(n: nat) { 32 <= n < 0x11_0000 && !(0x7F <= n < 0xA0) && !(0xD800 <= n < 0xE000) }

  // The UTF-8 bytes of a scalar value (RFC 3629, section 3).
  function Utf8(n: nat): string
    requires n < 0x11_0000
  {
    if n < 0x80 then [n as char]
    else if n < 0x800 then [(0xC0 + n / 64) as char, (0x80 + n % 64) as char]
    else if n < 0x1_0000 then [(0xE0 + n / 4096) as char, (0x80 + n / 64 % 64) as char, (0x80 + n % 64) as char]
    else [(0xF0 + n / 262144) as char, (0x80 + n / 4096 % 64) as char, (0x80 + n / 64 % 64) as char,
          (0x80 + n % 64) as char]
  }

  function Text(ns: seq<nat>): string
    requires forall i :: 0 <= i < |ns| ==> Visible(ns[i])
  {
    if |ns| == 0 then "" else assert Visible(ns[0]); Utf8(ns[0]) + Text(ns[1..])
  }

  // The printable byte texts are exactly the UTF-8 encodings of texts without
  // control characters.
  lemma PrintableMeans(s: string)
    ensures Printable(s) <==>
      exists ns: seq<nat> :: (forall i :: 0 <= i < |ns| ==> Visible(ns[i])) && s == Text(ns)
  {
    if Printable(s) {
      var ns := Runes(s);
    }
    if exists ns: seq<nat> :: (forall i :: 0 <= i < |ns| ==> Visible(ns[i])) && s == Text(ns) {
      var ns: seq<nat> :| (forall i :: 0 <= i < |ns| ==> Visible(ns[i])) && s == Text(ns);
      TextIsPrintable(ns);
    }
  }

  lemma {:induction false} TextIsPrintable(ns: seq<nat>)
    requires forall i :: 0 <= i < |ns| ==> Visible(ns[i])
    ensures Printable(Text(ns))
  {
    hide Utf8;
    if ns != [] {
      TextIsPrintable(ns[1..]);
      RuneThenRest(ns[0], Text(ns[1..]));
    }
  }

  lemma {:induction false} Runes(s: string) returns (ns: seq<nat>)
    requires Printable(s)
    ensures (forall i :: 0 <= i < |ns| ==> Visible(ns[i])) && s == Text(ns)
    decreases |s|
  {
    hide Utf8;
    if s == "" {
      ns := [];
    } else {
      var n := FirstRune(s);
      var rest := Runes(s[|Utf8(n)|..]);
      ns := [n] + rest;
      assert ns[1..] == rest;
    }
  }

  lemma RuneThenRest(n: nat, t: string)
    requires Visible(n)
    ensures Printable(Utf8(n) + t) <==> Printable(t)
  {
    var s := Utf8(n) + t;
    assert s[|Utf8(n)|..] == t;
    hide Printable;
    if n < 0x80 {
      OneByte(s);
    } else if n < 0x800 {
      TwoBytes(s);
    } else if n < 0x1_0000 {
      ThreeBytes(s);
    } else {
      FourBytes(s);
    }
  }

  lemma FirstRune(s: string) returns (n: nat)
    requires Printable(s) && s != ""
    ensures Visible(n) && 0 < |Utf8(n)| <= |s| && s == Utf8(n) + s[|Utf8(n)|..] && Printable(s[|Utf8(n)|..])
  {
    hide Utf8;
    var a := s[0] as nat;
    if a < 0x80 {
      n := RuneOfOne(s);
    } else if a <= 0xDF {
      n := RuneOfTwo(s);
    } else if a <= 0xEF {
      n := RuneOfThree(s);
    } else {
      n := RuneOfFour(s);
    }
    assert s == s[..|Utf8(n)|] + s[|Utf8(n)|..];
  }

  lemma RuneOfOne(s: string) returns (n: nat)
    requires |s| >= 1 && '\U{20}' <= s[0] < '\U{7F}'
    ensures Visible(n) && Utf8(n) == s[..1]
  {
    n := s[0] as nat;
  }

  lemma RuneOfTwo(s: string) returns (n: nat)
    requires |s| >= 2 && '\U{C2}' <= s[0] <= '\U{DF}' && Tail(s[1]) && (s[0] == '\U{C2}' ==> '\U{A0}' <= s[1])
    ensures Visible(n) && Utf8(n) == s[..2]
  {
    n := Joined(s[0] as nat - 0xC0, s[1]);
  }

  lemma RuneOfThree(s: string) returns (n: nat)
    requires |s| >= 3 && '\U{E0}' <= s[0] <= '\U{EF}' && Tail(s[1]) && Tail(s[2])
    requires (s[0] == '\U{E0}' ==> '\U{A0}' <= s[1]) && (s[0] == '\U{ED}' ==> s[1] < '\U{A0}')
    ensures Visible(n) && Utf8(n) == s[..3]
  {
    var m := Joined(s[0] as nat - 0xE0, s[1]);
    n := Joined(m, s[2]);
    ThreeDigits(n, s[0] as nat - 0xE0, s[1] as nat - 0x80, s[2] as nat - 0x80);
    hide Tail;
    assert 0x800 <= n < 0x1_0000;
  }

  lemma RuneOfFour(s: string) returns (n: nat)
    requires |s| >= 4 && '\U{F0}' <= s[0] <= '\U{F4}' && Tail(s[1]) && Tail(s[2]) && Tail(s[3])
    requires (s[0] == '\U{F0}' ==> '\U{90}' <= s[1]) && (s[0] == '\U{F4}' ==> s[1] < '\U{90}')
    ensures Visible(n) && Utf8(n) == s[..4]
  {
    var l := Joined(s[0] as nat - 0xF0, s[1]);
    var m := Joined(l, s[2]);
    n := Joined(m, s[3]);
    FourDigits(n, s[0] as nat - 0xF0, s[1] as nat - 0x80, s[2] as nat - 0x80, s[3] as nat - 0x80);
    hide Tail;
    assert 0x1_0000 <= n < 0x11_0000;
  }

  // A continuation byte adds six bits.
  lemma Joined(high: nat, c: char) returns (n: nat)
    requires Tail(c)
    ensures n == high * 64 + (c as nat - 0x80) && n / 64 == high && (0x80 + n % 64) as char == c
  {
    n := high * 64 + (c as nat - 0x80);
  }

  lemma ThreeDigits(n: nat, a: nat, b: nat, c: nat)
    requires n == (a * 64 + b) * 64 + c && b < 64 && c < 64
    ensures n / 4096 == a && n / 64 % 64 == b && n % 64 == c
  {
    assert n / 64 == a * 64 + b;
    assert n == a * 4096 + (b * 64 + c);
  }

  lemma FourDigits(n: nat, a: nat, b: nat, c: nat, d: nat)
    requires n == ((a * 64 + b) * 64 + c) * 64 + d && b < 64 && c < 64 && d < 64
    ensures n / 262144 == a && n / 4096 % 64 == b && n / 64 % 64 == c && n % 64 == d
  {
    assert n / 64 == (a * 64 + b) * 64 + c;
    assert n / 4096 == a * 64 + b by {
      assert n == (a * 64 + b) * 4096 + (c * 64 + d);
    }
    assert n == a * 262144 + (b * 4096 + c * 64 + d);
  }

  lemma OneByte(s: string)
    requires |s| >= 1 && '\U{20}' <= s[0] < '\U{7F}'
    ensures Printable(s) <==> Printable(s[1..])
  {
  }

  lemma TwoBytes(s: string)
    requires |s| >= 2 && '\U{C2}' <= s[0] <= '\U{DF}' && Tail(s[1]) && (s[0] == '\U{C2}' ==> '\U{A0}' <= s[1])
    ensures Printable(s) <==> Printable(s[2..])
  {
  }

  lemma ThreeBytes(s: string)
    requires |s| >= 3 && '\U{E0}' <= s[0] <= '\U{EF}' && Tail(s[1]) && Tail(s[2])
    requires (s[0] == '\U{E0}' ==> '\U{A0}' <= s[1]) && (s[0] == '\U{ED}' ==> s[1] < '\U{A0}')
    ensures Printable(s) <==> Printable(s[3..])
  {
  }

  lemma FourBytes(s: string)
    requires |s| >= 4 && '\U{F0}' <= s[0] <= '\U{F4}' && Tail(s[1]) && Tail(s[2]) && Tail(s[3])
    requires (s[0] == '\U{F0}' ==> '\U{90}' <= s[1]) && (s[0] == '\U{F4}' ==> s[1] < '\U{90}')
    ensures Printable(s) <==> Printable(s[4..])
  {
  }
}
