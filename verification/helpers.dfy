/** The client's time helpers: `formatTime` writes a millisecond count as
    `HH:MM:SS,mmm`, and `parseTime` reads the first `DD:DD:DD[,.]DDD` it
    finds anywhere in a string, or 0 when there is none. */
module Helpers {
  import opened Text
  import opened Clock

  /** `formatTime`: hours padded to at least two digits, minutes and seconds
      to two, milliseconds to three; the hours are never cut, so the clock
      only has twelve characters below 100 hours. */
  function FormatTime(ms: nat): (r: string)
    ensures IsClock(r, ',') && ClockMs(r, ',') == ms
    ensures DigitRun(r) >= 2 && |r| == DigitRun(r) + 10
    ensures ms < 360000000 <==> |r| == 12
    ensures ms < 360000000 ==> IsSrtTime(r) && Clock12Ms(r) == ms
  {
    MsToClockReads(ms);
    FormatShape(ms);
    MsToClock(ms)
  }

  lemma {:induction false} FormatShape(ms: nat)
    ensures DigitRun(MsToClock(ms)) >= 2 && |MsToClock(ms)| == DigitRun(MsToClock(ms)) + 10
    ensures ms < 360000000 <==> |MsToClock(ms)| == 12
  {
    var h := PadStart(NatToString(ms / 3600000), 2, '0');
    var m := PadStart(NatToString((ms % 3600000) / 60000), 2, '0');
    var s := PadStart(NatToString((ms % 60000) / 1000), 2, '0');
    var f := PadStart(NatToString(ms % 1000), 3, '0');
    PaddedNumber(ms / 3600000, 2);
    MsDecompose(ms);
    Pad2((ms % 3600000) / 60000);
    Pad2((ms % 60000) / 1000);
    Pad3(ms % 1000);
    RenderDigitRun(h, m, s, ',', f);
    if ms < 360000000 {
      assert ms / 3600000 < 100;
      HoursWidth(ms / 3600000);
    } else {
      assert ms / 3600000 >= 100;
      HoursWidth(ms / 3600000);
    }
  }

  /** `r` is a clock whose hours, minutes, seconds and milliseconds fields,
      cut where the `:` and `,` separators sit, read `h`, `m`, `s` and `f`,
      the last three in two, two and three digits. */
  predicate FieldsRead(r: string, h: nat, m: nat, s: nat, f: nat) {
    var i := DigitRun(r);
    && i >= 1 && |r| == i + 10 && r[i] == ':' && r[i + 3] == ':' && r[i + 6] == ','
    && AllDigits(r[..i]) && AllDigits(r[i + 1..i + 3]) && AllDigits(r[i + 4..i + 6]) && AllDigits(r[i + 7..])
    && DigitsValue(r[..i]) == h && DigitsValue(r[i + 1..i + 3]) == m
    && DigitsValue(r[i + 4..i + 6]) == s && DigitsValue(r[i + 7..]) == f
  }

  /** The fields `formatTime` writes are the whole hours, then the minutes
      and seconds (each below 60) and the milliseconds (below 1000) left
      over. */
  lemma {:induction false} FormatFields(ms: nat)
    ensures FieldsRead(FormatTime(ms), ms / 3600000, (ms % 3600000) / 60000, (ms % 60000) / 1000, ms % 1000)
    ensures (ms % 3600000) / 60000 < 60 && (ms % 60000) / 1000 < 60
  {
    var h := PadStart(NatToString(ms / 3600000), 2, '0');
    var m := PadStart(NatToString((ms % 3600000) / 60000), 2, '0');
    var s := PadStart(NatToString((ms % 60000) / 1000), 2, '0');
    var f := PadStart(NatToString(ms % 1000), 3, '0');
    PaddedNumber(ms / 3600000, 2);
    MsDecompose(ms);
    Pad2((ms % 3600000) / 60000);
    Pad2((ms % 60000) / 1000);
    Pad3(ms % 1000);
    assert FormatTime(ms) == Render(h, m, s, ',', f);
    RenderFields(h, m, s, f);
  }

  /** A rendered comma clock reads back field by field. */
  lemma {:induction false} RenderFields(h: string, m: string, s: string, f: string)
    requires AllDigits(h) && AllDigits(m) && AllDigits(s) && AllDigits(f)
    requires |h| >= 1 && |m| == 2 && |s| == 2 && |f| == 3
    ensures FieldsRead(Render(h, m, s, ',', f), DigitsValue(h), DigitsValue(m), DigitsValue(s), DigitsValue(f))
  {
    RenderDigitRun(h, m, s, ',', f);
    RenderSlices(h, m, s, ',', f);
  }

  /** Two padded digits hold the hours exactly when they are below 100. */
  lemma {:induction false} HoursWidth(n: nat)
    ensures n < 100 <==> |PadStart(NatToString(n), 2, '0')| == 2
  {
    var r := PadStart(NatToString(n), 2, '0');
    PaddedNumber(n, 2);
    if |r| == 2 {
      TwoDigitsBelow(r);
    } else {
      assert |r| > 2;
      assert r == NatToString(n);
      NoLeadingZeroAtLeast(r);
    }
  }

  lemma {:induction false} TwoDigitsBelow(r: string)
    requires |r| == 2 && AllDigits(r)
    ensures DigitsValue(r) < 100
  {
    assert r[..1][..0] == [] && r[..1][0] == r[0];
    assert DigitsValue(r[..1]) == DigitValue(r[0]) <= 9;
  }

  /** A three-or-more-digit decimal rendering of a number is at least 100. */
  lemma {:induction false} NoLeadingZeroAtLeast(r: string)
    requires |r| >= 3 && AllDigits(r) && r[0] != '0'
    ensures DigitsValue(r) >= 100
    decreases |r|
  {
    var u := r[..|r| - 1];
    assert u[0] == r[0];
    if |u| >= 3 {
      NoLeadingZeroAtLeast(u);
    } else {
      assert u[..1][..0] == [];
      assert DigitsValue(u[..1]) == DigitValue(u[0]) >= 1;
    }
  }

  /** The leftmost position at or after `i` where a twelve-character clock
      starts: the regular expression's match index. */
  function FindFrom(s: string, i: nat): (r: Option<nat>)
    requires i <= |s|
    ensures r.Some? ==> i <= r.value <= |s| && Clock12At(s[r.value..])
    ensures r.Some? ==> forall p :: i <= p < r.value ==> !Clock12At(s[p..])
    ensures r.None? ==> forall p :: i <= p <= |s| ==> !Clock12At(s[p..])
    decreases |s| - i
  {
    if |s| - i < 12 then None
    else if Clock12At(s[i..]) then Some(i)
    else FindFrom(s, i + 1)
  }

  /** The leftmost clock anywhere in `s`. */
  function FindClock12(s: string): (r: Option<nat>)
    ensures r.Some? ==> r.value <= |s| && Clock12At(s[r.value..])
    ensures r.Some? ==> forall p :: 0 <= p < r.value ==> !Clock12At(s[p..])
    ensures r.None? <==> forall p :: 0 <= p <= |s| ==> !Clock12At(s[p..])
  {
    FindFrom(s, 0)
  }

  /** A clock at `q` with none before it is the one the search finds. */
  lemma {:induction false} LeftmostIs(s: string, q: nat)
    requires q <= |s| && Clock12At(s[q..])
    requires forall p :: 0 <= p < q ==> !Clock12At(s[p..])
    ensures FindClock12(s) == Some(q)
  {
    var r := FindClock12(s);
    assert r.Some?;
    assert !(r.value < q);
    assert !(q < r.value);
  }

  /** `parseTime`: the first clock in the string, in milliseconds, or 0 when
      the string holds none. Both `,` and `.` separate the milliseconds. */
  function ParseTime(s: string): (r: nat)
    ensures (forall p :: 0 <= p <= |s| ==> !Clock12At(s[p..])) ==> r == 0
    ensures r <= 362439999
  {
    match FindClock12(s)
    case None => 0
    case Some(p) => ClockBound(s[p..]); Clock12Ms(s[p..])
  }

  lemma {:induction false} ClockBound(s: string)
    requires Clock12At(s)
    ensures Clock12Ms(s) <= 362439999
  {
    Below(s[0..2], 100);
    Below(s[3..5], 100);
    Below(s[6..8], 100);
    Below(s[9..12], 1000);
  }

  /** An all-digit string of at most as many digits as `bound` has zeros is below it. */
  lemma {:induction false} Below(d: string, bound: nat)
    requires AllDigits(d) && ((|d| == 2 && bound == 100) || (|d| == 3 && bound == 1000))
    ensures DigitsValue(d) < bound
  {
    assert d[..|d| - 1][..|d| - 2][..|d| - 2] == d[..|d| - 2];
    if |d| == 3 {
      TwoDigitsBelow(d[..2]);
    } else {
      TwoDigitsBelow(d);
    }
  }

  /** The leftmost clock is the one read: its hours, minutes, seconds and
      milliseconds fields give the result. */
  lemma {:induction false} ParseLeftmost(s: string, q: nat)
    requires q <= |s| && Clock12At(s[q..])
    requires forall p :: 0 <= p < q ==> !Clock12At(s[p..])
    ensures ParseTime(s) == Clock12Ms(s[q..])
  {
    LeftmostIs(s, q);
  }

  /** A clock at the start of the string is the one read. */
  lemma {:induction false} ParseAtStart(s: string)
    requires Clock12At(s)
    ensures ParseTime(s) == Clock12Ms(s)
  {
    assert s[0..] == s;
    LeftmostIs(s, 0);
  }

  /** A stored time reads the same with `,` or `.` before its milliseconds. */
  lemma {:induction false} DotAccepted(t: string, from: char, to: char)
    requires Timed(t)
    requires (from == ',' || from == '.') && (to == ',' || to == '.')
    ensures ParseTime(ReplaceFirst(t, from, to)) == ParseTime(t) == Clock12Ms(t)
  {
    SeparatorSwap(t, from, to);
    ParseAtStart(t);
    ParseAtStart(ReplaceFirst(t, from, to));
  }

  /** The last two of at least two digits read as the whole value modulo 100. */
  lemma {:induction false} LastTwo(h: string)
    requires AllDigits(h) && |h| >= 2
    ensures DigitsValue(h[|h| - 2..]) == DigitsValue(h) % 100
  {
    var n := |h|;
    var u := h[..n - 1];
    var t := h[n - 2..];
    var a := DigitsValue(h[..n - 2]);
    var x := DigitValue(h[n - 2]);
    var y := DigitValue(h[n - 1]);
    assert t[..1] == h[n - 2..n - 1] && t[..1][..0] == [];
    assert t[..1][0] == h[n - 2] && t[1] == h[n - 1] && |t| == 2;
    assert DigitsValue(t[..1]) == x;
    assert u[..n - 2] == h[..n - 2];
    assert DigitsValue(t) == x * 10 + y;
    assert DigitsValue(u) == a * 10 + x;
    assert DigitsValue(h) == (a * 10 + x) * 10 + y;
    assert (a * 10 + x) * 10 + y == a * 100 + (x * 10 + y);
    ModUnique(DigitsValue(h), a, x * 10 + y, 100);
  }

  /** In a written clock whose hours have at least two digits the search
      meets the last two hour digits first: the earlier positions have a
      digit where the first `:` would be. */
  lemma {:induction false} TailClock(h: string, m: string, s: string, f: string)
    requires AllDigits(h) && AllDigits(m) && AllDigits(s) && AllDigits(f)
    requires |h| >= 2 && |m| == 2 && |s| == 2 && |f| == 3
    ensures ParseTime(Render(h, m, s, ',', f)) == FieldsMs(DigitsValue(h) % 100, DigitsValue(m), DigitsValue(s), DigitsValue(f))
  {
    var t := Render(h, m, s, ',', f);
    var i := |h|;
    var u := t[i - 2..];
    assert t[..i] == h;
    assert u == h[i - 2..] + ":" + m + ":" + s + "," + f;
    assert u[0..2] == h[i - 2..] && u[3..5] == m && u[6..8] == s && u[9..12] == f;
    assert u[0] == h[i - 2] && u[1] == h[i - 1];
    assert u[3] == m[0] && u[4] == m[1] && u[6] == s[0] && u[7] == s[1];
    assert u[9] == f[0] && u[10] == f[1] && u[11] == f[2];
    assert Clock12At(u);
    LastTwo(h);
    forall p | 0 <= p < i - 2
      ensures !Clock12At(t[p..])
    {
      assert t[p..][2] == t[p + 2] == h[p + 2];
    }
    LeftmostIs(t, i - 2);
  }

  /** Hours carried past 100 are dropped. */
  lemma {:induction false} WrapArith(ms: nat, h: nat, m: nat, s: nat, f: nat)
    requires FieldsMs(h, m, s, f) == ms && m < 60 && s < 60 && f < 1000
    ensures FieldsMs(h % 100, m, s, f) == ms % 360000000
  {
    var q := h / 100;
    var rest := m * 60000 + s * 1000 + f;
    var x := (h % 100) * 3600000 + rest;
    assert rest < 3600000;
    assert h == q * 100 + h % 100;
    assert ms == q * 360000000 + x;
    assert x < 360000000;
    ModUnique(ms, q, x, 360000000);
  }

  /** Reading back what `formatTime` wrote gives the time modulo 100 hours:
      `parseTime` finds the last two hour digits, so longer hours wrap. */
  lemma {:induction false} ParseWraps(ms: nat)
    ensures ParseTime(FormatTime(ms)) == ms % 360000000
  {
    var hv, mv, sv, fv := ms / 3600000, (ms % 3600000) / 60000, (ms % 60000) / 1000, ms % 1000;
    var h := PadStart(NatToString(hv), 2, '0');
    var m := PadStart(NatToString(mv), 2, '0');
    var s := PadStart(NatToString(sv), 2, '0');
    var f := PadStart(NatToString(fv), 3, '0');
    MsDecompose(ms);
    PaddedNumber(hv, 2);
    Pad2(mv);
    Pad2(sv);
    Pad3(fv);
    assert FormatTime(ms) == Render(h, m, s, ',', f);
    TailClock(h, m, s, f);
    WrapArith(ms, hv, mv, sv, fv);
  }

  /** Below 100 hours the helpers are inverse: `parseTime(formatTime(ms)) == ms`. */
  lemma {:induction false} RoundTrip(ms: nat)
    requires ms < 360000000
    ensures ParseTime(FormatTime(ms)) == ms
  {
    ParseWraps(ms);
    ModUnique(ms, 0, ms, 360000000);
  }

  /** At 100 hours and beyond the round trip loses whole multiples of 100 hours. */
  lemma {:induction false} HundredHoursWrap()
    ensures ParseTime(FormatTime(360000000)) == 0
    ensures ParseTime(FormatTime(363723456)) == 3723456
  {
    ParseWraps(360000000);
    ModUnique(360000000, 1, 0, 360000000);
    ParseWraps(363723456);
    ModUnique(363723456, 1, 3723456, 360000000);
  }
}
