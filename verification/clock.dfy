/** The time-code model: canonical integer milliseconds and the textual
    clock forms the codecs read and write. */
module Clock {
  import opened Text

  /** Milliseconds of an hours/minutes/seconds/milliseconds reading. */
  function FieldsMs(h: nat, m: nat, s: nat, ms: nat): nat {
    h * 3600000 + m * 60000 + s * 1000 + ms
  }

  /** Number of leading decimal digits of `t`. */
  function DigitRun(t: string): (n: nat)
    ensures n <= |t|
    ensures AllDigits(t[..n])
    ensures n < |t| ==> !IsDigit(t[n])
  {
    if |t| > 0 && IsDigit(t[0]) then
      var n := 1 + DigitRun(t[1..]);
      assert t[..n] == [t[0]] + t[1..][..n - 1];
      n
    else 0
  }

  lemma {:induction false} DigitRunPrefix(h: string, rest: string)
    requires AllDigits(h)
    requires |rest| > 0 && !IsDigit(rest[0])
    ensures DigitRun(h + rest) == |h|
    decreases |h|
  {
    if |h| == 0 {
      assert h + rest == rest;
    } else {
      assert (h + rest)[1..] == h[1..] + rest;
      DigitRunPrefix(h[1..], rest);
    }
  }

  /** `D+:DD:DD<sep>D+`: the shape the split-based `timeToMs` of the SRT and SUB
      codecs reads (hours, minutes and the rest split on `:`, the rest split on `sep`). */
  predicate IsClock(t: string, sep: char) {
    var i := DigitRun(t);
    && i >= 1 && |t| >= i + 8
    && t[i] == ':' && IsDigit(t[i + 1]) && IsDigit(t[i + 2])
    && t[i + 3] == ':' && IsDigit(t[i + 4]) && IsDigit(t[i + 5])
    && t[i + 6] == sep && AllDigits(t[i + 7..])
  }

  /** Milliseconds of an `IsClock` string: `h*3600000 + m*60000 + s*1000 + f`. */
  function ClockMs(t: string, sep: char): nat
    requires IsClock(t, sep)
  {
    var i := DigitRun(t);
    FieldsMs(DigitsValue(t[..i]), DigitsValue(t[i + 1..i + 3]), DigitsValue(t[i + 4..i + 6]), DigitsValue(t[i + 7..]))
  }

  /** `h:m:s<sep>f` from its fields. */
  function Render(h: string, m: string, s: string, sep: char, f: string): string {
    h + ":" + m + ":" + s + [sep] + f
  }

  /** Reading a rendered clock gives back the value of its fields. */
  lemma {:induction false} RenderIsClock(h: string, m: string, s: string, sep: char, f: string)
    requires AllDigits(h) && AllDigits(m) && AllDigits(s) && AllDigits(f)
    requires |h| >= 1 && |m| == 2 && |s| == 2 && |f| >= 1
    ensures IsClock(Render(h, m, s, sep, f), sep)
    ensures ClockMs(Render(h, m, s, sep, f), sep) == FieldsMs(DigitsValue(h), DigitsValue(m), DigitsValue(s), DigitsValue(f))
  {
    var t := Render(h, m, s, sep, f);
    RenderDigitRun(h, m, s, sep, f);
    RenderSlices(h, m, s, sep, f);
    var i := |h|;
    assert IsDigit(t[i + 1]) && IsDigit(t[i + 2]) by { assert t[i + 1] == m[0] && t[i + 2] == m[1]; }
    assert IsDigit(t[i + 4]) && IsDigit(t[i + 5]) by { assert t[i + 4] == s[0] && t[i + 5] == s[1]; }
  }

  /** The fields sit where the reader cuts them. */
  lemma {:induction false} RenderSlices(h: string, m: string, s: string, sep: char, f: string)
    requires |m| == 2 && |s| == 2
    ensures var t, i := Render(h, m, s, sep, f), |h|;
      && |t| == i + 7 + |f| && t[..i] == h && t[i] == ':' && t[i + 3] == ':' && t[i + 6] == sep
      && t[i + 1..i + 3] == m && t[i + 4..i + 6] == s && t[i + 7..] == f
  {
    var t := Render(h, m, s, sep, f);
    var i := |h|;
    assert t == h + ":" + m + ":" + s + [sep] + f;
    assert t[..i] == h;
    assert t[i + 1..i + 3] == m;
    assert t[i + 4..i + 6] == s;
    assert t[i + 7..] == f;
  }

  /** The leading digit run of a rendered clock is its hours. */
  lemma {:induction false} RenderDigitRun(h: string, m: string, s: string, sep: char, f: string)
    requires AllDigits(h)
    ensures DigitRun(Render(h, m, s, sep, f)) == |h|
  {
    assert Render(h, m, s, sep, f) == h + (":" + m + ":" + s + [sep] + f);
    DigitRunPrefix(h, ":" + m + ":" + s + [sep] + f);
  }

  /** `\d{2}:\d{2}:\d{2}[,.]\d{3}` at the start of `s`. */
  predicate Clock12At(s: string) {
    && |s| >= 12
    && IsDigit(s[0]) && IsDigit(s[1]) && s[2] == ':'
    && IsDigit(s[3]) && IsDigit(s[4]) && s[5] == ':'
    && IsDigit(s[6]) && IsDigit(s[7]) && (s[8] == ',' || s[8] == '.')
    && IsDigit(s[9]) && IsDigit(s[10]) && IsDigit(s[11])
  }

  /** Milliseconds of the twelve-character clock at the start of `s`. */
  function Clock12Ms(s: string): nat
    requires Clock12At(s)
  {
    FieldsMs(DigitsValue(s[0..2]), DigitsValue(s[3..5]), DigitsValue(s[6..8]), DigitsValue(s[9..12]))
  }

  /** A stored SRT time: exactly `HH:MM:SS,mmm`. */
  predicate IsSrtTime(t: string) {
    |t| == 12 && Clock12At(t) && t[8] == ','
  }

  /** A twelve-character clock with separator `sep` is read the same way by both readers. */
  lemma {:induction false} Clock12IsClock(t: string, sep: char)
    requires |t| == 12 && Clock12At(t) && t[8] == sep
    ensures IsClock(t, sep) && ClockMs(t, sep) == Clock12Ms(t)
  {
    assert t == Render(t[0..2], t[3..5], t[6..8], sep, t[9..12]);
    RenderIsClock(t[0..2], t[3..5], t[6..8], sep, t[9..12]);
  }

  /** The hours/minutes/seconds/milliseconds reading of a millisecond count. */
  lemma {:induction false} MsDecompose(ms: nat)
    ensures (ms % 3600000) / 60000 < 60 && (ms % 60000) / 1000 < 60 && ms % 1000 < 1000
    ensures FieldsMs(ms / 3600000, (ms % 3600000) / 60000, (ms % 60000) / 1000, ms % 1000) == ms
  {
    var h := ms / 3600000;
    var a := ms % 3600000;
    var m := a / 60000;
    var b := a % 60000;
    assert ms == h * 3600000 + a;
    assert a == m * 60000 + b;
    assert ms == (h * 60 + m) * 60000 + b;
    assert ms % 60000 == b;
    var s := b / 1000;
    var c := b % 1000;
    assert b == s * 1000 + c;
    assert ms == ((h * 60 + m) * 60 + s) * 1000 + c;
    assert ms % 1000 == c;
  }

  /** Zero-padded two-digit rendering of a number below 100 reads back as the number. */
  lemma {:induction false} Pad2(n: nat)
    requires n < 100
    ensures var r := PadStart(NatToString(n), 2, '0'); |r| == 2 && AllDigits(r) && DigitsValue(r) == n
  {
    PaddedNumber(n, 2);
  }

  lemma {:induction false} Pad3(n: nat)
    requires n < 1000
    ensures var r := PadStart(NatToString(n), 3, '0'); |r| == 3 && AllDigits(r) && DigitsValue(r) == n
  {
    PaddedNumber(n, 3);
  }

  /** `HH:MM:SS,mmm` of a millisecond count: hours padded to at least two
      digits (never cut), minutes and seconds to two, milliseconds to three.
      The SUB codec's `msToTime` and the client's `formatTime` both compute
      it. */
  function MsToClock(ms: nat): string {
    Render(PadStart(NatToString(ms / 3600000), 2, '0'), PadStart(NatToString((ms % 3600000) / 60000), 2, '0'),
           PadStart(NatToString((ms % 60000) / 1000), 2, '0'), ',', PadStart(NatToString(ms % 1000), 3, '0'))
  }

  /** The written clock reads back, split on `:` and `,`, as the same
      milliseconds; below 100 hours it is a stored SRT time. */
  lemma {:induction false} MsToClockReads(ms: nat)
    ensures IsClock(MsToClock(ms), ',') && ClockMs(MsToClock(ms), ',') == ms
    ensures ms < 360000000 ==> IsSrtTime(MsToClock(ms)) && Clock12Ms(MsToClock(ms)) == ms
  {
    var h := PadStart(NatToString(ms / 3600000), 2, '0');
    var m := PadStart(NatToString((ms % 3600000) / 60000), 2, '0');
    var s := PadStart(NatToString((ms % 60000) / 1000), 2, '0');
    var f := PadStart(NatToString(ms % 1000), 3, '0');
    MsDecompose(ms);
    PaddedNumber(ms / 3600000, 2);
    Pad2((ms % 3600000) / 60000);
    Pad2((ms % 60000) / 1000);
    Pad3(ms % 1000);
    RenderIsClock(h, m, s, ',', f);
    if ms < 360000000 {
      assert |h| == 2 by { assert ms / 3600000 < 100; }
      MsToClockTwelve(h, m, s, f);
    }
  }

  lemma {:induction false} MsToClockTwelve(h: string, m: string, s: string, f: string)
    requires |h| == 2 && |m| == 2 && |s| == 2 && |f| == 3
    requires AllDigits(h) && AllDigits(m) && AllDigits(s) && AllDigits(f)
    ensures IsSrtTime(Render(h, m, s, ',', f))
    ensures Clock12Ms(Render(h, m, s, ',', f)) == FieldsMs(DigitsValue(h), DigitsValue(m), DigitsValue(s), DigitsValue(f))
  {
    var r := Render(h, m, s, ',', f);
    assert r[0] == h[0] && r[1] == h[1] && r[2] == ':';
    assert r[3] == m[0] && r[4] == m[1] && r[5] == ':';
    assert r[6] == s[0] && r[7] == s[1] && r[8] == ',';
    assert r[9] == f[0] && r[10] == f[1] && r[11] == f[2];
    assert r[0..2] == h && r[3..5] == m && r[6..8] == s && r[9..12] == f;
  }

  /** `\d{2}:\d{2}:\d{2}\.\d{3}` at the start of `s` (WebVTT, three fields). */
  predicate VttLongAt(s: string) {
    Clock12At(s) && s[8] == '.'
  }

  /** `\d{2}:\d{2}\.\d{3}` at the start of `s` (WebVTT, two fields). */
  predicate VttShortAt(s: string) {
    && |s| >= 9
    && IsDigit(s[0]) && IsDigit(s[1]) && s[2] == ':'
    && IsDigit(s[3]) && IsDigit(s[4]) && s[5] == '.'
    && IsDigit(s[6]) && IsDigit(s[7]) && IsDigit(s[8])
  }

  /** The time grammar on each side of a timing line's arrow. */
  datatype ArrowForm = SrtArrow | VttArrow

  /** Length of the time of form `form` matched at the start of `s`, 0 when
      there is none. The WebVTT alternatives are tried in the order of the
      source pattern, three fields first. */
  function TimeLen(form: ArrowForm, s: string): (n: nat)
    ensures n <= |s|
    ensures form == SrtArrow ==> (n > 0 <==> Clock12At(s)) && (n > 0 ==> n == 12)
    ensures form == VttArrow ==> (n == 12 <==> VttLongAt(s)) && (n == 9 <==> !VttLongAt(s) && VttShortAt(s))
    ensures form == VttArrow ==> (n == 0 <==> !VttLongAt(s) && !VttShortAt(s))
  {
    match form
    case SrtArrow => if Clock12At(s) then 12 else 0
    case VttArrow => if VttLongAt(s) then 12 else if VttShortAt(s) then 9 else 0
  }

  /** `t` is exactly one time of form `form`. */
  predicate IsTimeOf(form: ArrowForm, t: string) {
    |t| > 0 && TimeLen(form, t) == |t|
  }

  /** The timing-line pattern `T\s*-->\s*T` anchored at the start of `s`;
      returns the two captured times. `\s*` is greedy and is followed by a
      non-space, so it never gives characters back. */
  function ArrowAt(form: ArrowForm, s: string): (r: Option<(string, string)>)
    ensures r.Some? ==> IsTimeOf(form, r.value.0) && IsTimeOf(form, r.value.1)
  {
    var n := TimeLen(form, s);
    if n == 0 then None
    else
      var a := s[n..];
      var b := a[SpaceRun(a)..];
      if !StartsWith(b, "-->") then None
      else
        var c := b[3..];
        var d := c[SpaceRun(c)..];
        var k := TimeLen(form, d);
        if k == 0 then None
        else
          TimePrefix(form, s, n);
          TimePrefix(form, d, k);
          Some((s[..n], d[..k]))
  }

  /** A matched time matches on its own. */
  lemma {:induction false} TimePrefix(form: ArrowForm, s: string, n: nat)
    requires n == TimeLen(form, s) && n > 0
    ensures IsTimeOf(form, s[..n])
  {
    var t := s[..n];
    if form == VttArrow && n == 9 {
      assert !VttLongAt(t);
    }
  }

  /** `line.match(...)` of the timing pattern: the match at the leftmost
      position where there is one; both captures are single times. */
  function FindArrow(form: ArrowForm, s: string): (r: Option<(string, string)>)
    ensures r.Some? ==> IsTimeOf(form, r.value.0) && IsTimeOf(form, r.value.1)
    decreases |s|
  {
    match ArrowAt(form, s)
    case Some(m) => Some(m)
    case None => if |s| == 0 then None else FindArrow(form, s[1..])
  }

  /** A twelve-character clock whatever its millisecond separator. */
  predicate Timed(t: string) {
    |t| == 12 && Clock12At(t)
  }

  /** Replacing the first `from` of a clock by `to` (both among `,` and `.`)
      changes at most the millisecond separator, and not the time it reads. */
  lemma {:induction false} SeparatorSwap(t: string, from: char, to: char)
    requires Timed(t)
    requires (from == ',' || from == '.') && (to == ',' || to == '.')
    ensures var u := ReplaceFirst(t, from, to);
      && Timed(u) && Clock12Ms(u) == Clock12Ms(t)
      && (t[8] == from ==> u[8] == to) && (t[8] != from ==> u == t)
  {
    if t[8] == from {
      SeparatorAt8(t, from, to);
    } else {
      assert from !in t by { assert forall i :: 0 <= i < 12 ==> t[i] != from; }
    }
  }

  lemma {:induction false} SeparatorAt8(t: string, from: char, to: char)
    requires Timed(t) && t[8] == from && (to == ',' || to == '.')
    ensures var u := ReplaceFirst(t, from, to);
      Timed(u) && u[8] == to && Clock12Ms(u) == Clock12Ms(t)
  {
    assert from !in t[..8] by { assert forall i :: 0 <= i < 8 ==> t[..8][i] == t[i]; }
    ReplaceFirstAt(t, 8, from, to);
    var u := ReplaceFirst(t, from, to);
    assert u[0..2] == t[0..2] && u[3..5] == t[3..5] && u[6..8] == t[6..8] && u[9..12] == t[9..12];
  }
}
