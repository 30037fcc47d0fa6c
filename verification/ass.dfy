/** The ASS/SSA codec: a section state machine over the lines of a script,
    `Format:`-driven field splitting of `Dialogue:` lines, and two encoders
    (a line-by-line rewrite of the original script and a fixed minimal
    script). */
module Ass {
  import opened Text
  import opened Clock
  import opened Cues

  /* ------------------------------------------------------------- times */

  /** The four captures of `(\d+):(\d{2}):(\d{2})\.(\d{2})`: hours,
      minutes, seconds and centiseconds. */
  datatype Centis = Centis(h: string, m: string, s: string, cs: string)

  predicate Captured(c: Centis) {
    && |c.h| >= 1 && AllDigits(c.h)
    && |c.m| == 2 && AllDigits(c.m)
    && |c.s| == 2 && AllDigits(c.s)
    && |c.cs| == 2 && AllDigits(c.cs)
  }

  /** The text a capture was matched on. */
  function Shown(c: Centis): string {
    Render(c.h, c.m, c.s, '.', c.cs)
  }

  /** The pattern matched at the start of `t`. `\d+` is greedy and must be
      followed by `:`, so only the whole leading digit run can be the hours. */
  function CentisAt(t: string): (r: Option<Centis>)
    ensures r.Some? ==> Captured(r.value) && StartsWith(t, Shown(r.value))
  {
    var i := DigitRun(t);
    if && i >= 1 && |t| >= i + 9
       && t[i] == ':' && IsDigit(t[i + 1]) && IsDigit(t[i + 2])
       && t[i + 3] == ':' && IsDigit(t[i + 4]) && IsDigit(t[i + 5])
       && t[i + 6] == '.' && IsDigit(t[i + 7]) && IsDigit(t[i + 8])
    then
      var c := Centis(t[..i], t[i + 1..i + 3], t[i + 4..i + 6], t[i + 7..i + 9]);
      CutShown(t, i);
      Some(c)
    else None
  }

  /** The text cut into a capture is the text the capture shows. */
  lemma {:induction false} CutShown(t: string, i: nat)
    requires |t| >= i + 9 && t[i] == ':' && t[i + 3] == ':' && t[i + 6] == '.'
    ensures var c := Centis(t[..i], t[i + 1..i + 3], t[i + 4..i + 6], t[i + 7..i + 9]);
      |Shown(c)| == i + 9 && t[..i + 9] == Shown(c)
  {
    var c := Centis(t[..i], t[i + 1..i + 3], t[i + 4..i + 6], t[i + 7..i + 9]);
    var u := Shown(c);
    assert u == t[..i] + ":" + t[i + 1..i + 3] + ":" + t[i + 4..i + 6] + "." + t[i + 7..i + 9];
    assert |u| == i + 9;
    forall j | 0 <= j < i + 9
      ensures u[j] == t[j]
    {
      if j < i {
      } else if j == i || j == i + 3 || j == i + 6 {
      } else if j < i + 3 {
        assert u[j] == t[i + 1..i + 3][j - i - 1];
      } else if j < i + 6 {
        assert u[j] == t[i + 4..i + 6][j - i - 4];
      } else {
        assert u[j] == t[i + 7..i + 9][j - i - 7];
      }
    }
  }

  /** `time.match(...)`: the match at the leftmost position that has one. */
  function FindCentis(t: string): (r: Option<Centis>)
    ensures r.Some? ==> Captured(r.value) && Contains(t, Shown(r.value))
    decreases |t|
  {
    match CentisAt(t)
    case Some(c) => Some(c)
    case None => if |t| == 0 then None else FindCentis(t[1..])
  }

  /** A shown capture is matched at the start of whatever follows it. */
  lemma {:induction false} ShownFound(c: Centis, rest: string)
    requires Captured(c)
    ensures CentisAt(Shown(c) + rest) == Some(c)
    ensures FindCentis(Shown(c) + rest) == Some(c)
  {
    ShownAt(c, rest);
  }

  lemma {:induction false} ShownAt(c: Centis, rest: string)
    requires Captured(c)
    ensures CentisAt(Shown(c) + rest) == Some(c)
  {
    var t := Shown(c) + rest;
    var tail := ":" + c.m + ":" + c.s + "." + c.cs + rest;
    assert t == c.h + tail;
    DigitRunPrefix(c.h, tail);
    var i := |c.h|;
    ShownDigits(c, rest);
    ShownSlices(c, rest);
    assert Centis(t[..i], t[i + 1..i + 3], t[i + 4..i + 6], t[i + 7..i + 9]) == c;
  }

  lemma {:induction false} ShownSlices(c: Centis, rest: string)
    requires Captured(c)
    ensures var t, i := Shown(c) + rest, |c.h|;
      && |t| >= i + 9 && t[..i] == c.h && t[i + 1..i + 3] == c.m && t[i + 4..i + 6] == c.s && t[i + 7..i + 9] == c.cs
  {
    var t := Shown(c) + rest;
    var i := |c.h|;
    assert t == c.h + ":" + c.m + ":" + c.s + "." + c.cs + rest;
    assert t[..i] == c.h;
    assert t[i + 1..i + 3] == c.m;
    assert t[i + 4..i + 6] == c.s;
    assert t[i + 7..i + 9] == c.cs;
  }

  lemma {:induction false} ShownDigits(c: Centis, rest: string)
    requires Captured(c)
    ensures var t, i := Shown(c) + rest, |c.h|;
      && |t| >= i + 9 && t[i] == ':' && t[i + 3] == ':' && t[i + 6] == '.'
      && IsDigit(t[i + 1]) && IsDigit(t[i + 2]) && IsDigit(t[i + 4]) && IsDigit(t[i + 5]) && IsDigit(t[i + 7]) && IsDigit(t[i + 8])
  {
    var t := Shown(c) + rest;
    var i := |c.h|;
    assert t[i + 1] == c.m[0] && t[i + 2] == c.m[1];
    assert t[i + 4] == c.s[0] && t[i + 5] == c.s[1];
    assert t[i + 7] == c.cs[0] && t[i + 8] == c.cs[1];
  }

  /** Milliseconds of a capture: centiseconds count ten each. */
  function CentisMs(c: Centis): nat
    requires Captured(c)
  {
    FieldsMs(DigitsValue(c.h), DigitsValue(c.m), DigitsValue(c.s), DigitsValue(c.cs) * 10)
  }

  /** `ASSParser.timeToMs`: the first `H:MM:SS.CC` in `time`, read with
      centisecond precision; 0 when there is none. */
  function TimeToMs(time: string): (ms: nat)
    ensures FindCentis(time).None? ==> ms == 0
    ensures FindCentis(time).Some? ==> var c := FindCentis(time).value;
      ms == DigitsValue(c.h) * 3600000 + DigitsValue(c.m) * 60000 + DigitsValue(c.s) * 1000 + DigitsValue(c.cs) * 10
    ensures ms % 10 == 0
  {
    match FindCentis(time)
    case None => 0
    case Some(c) => CentisTens(c); CentisMs(c)
  }

  lemma {:induction false} CentisTens(c: Centis)
    requires Captured(c)
    ensures CentisMs(c) % 10 == 0
  {
    var h, m, s, q := DigitsValue(c.h), DigitsValue(c.m), DigitsValue(c.s), DigitsValue(c.cs);
    assert CentisMs(c) == (h * 360000 + m * 6000 + s * 100 + q) * 10;
  }

  /** `ASSParser.formatTime`: the first `H:MM:SS.CC` in `time` rewritten as
      `HH:MM:SS,mmm` (hours padded to two digits, centiseconds times ten
      padded to three); `time` unchanged when there is none. The result
      reads, as a comma clock, the milliseconds `TimeToMs` reads from the
      input; with at most two hour digits it is a stored SRT time. */
  function FormatTime(time: string): (r: string)
    ensures FindCentis(time).None? ==> r == time
    ensures FindCentis(time).Some? ==> IsClock(r, ',') && ClockMs(r, ',') == TimeToMs(time)
    ensures FindCentis(time).Some? && |FindCentis(time).value.h| <= 2 ==> IsSrtTime(r) && Clock12Ms(r) == TimeToMs(time)
  {
    match FindCentis(time)
    case None => time
    case Some(c) =>
      var h := PadStart(c.h, 2, '0');
      var f := PadStart(NatToString(DigitsValue(c.cs) * 10), 3, '0');
      FormatReads(c);
      Render(h, c.m, c.s, ',', f)
  }

  lemma {:induction false} FormatReads(c: Centis)
    requires Captured(c)
    ensures var r := Render(PadStart(c.h, 2, '0'), c.m, c.s, ',', PadStart(NatToString(DigitsValue(c.cs) * 10), 3, '0'));
      && IsClock(r, ',') && ClockMs(r, ',') == CentisMs(c)
      && (|c.h| <= 2 ==> IsSrtTime(r) && Clock12Ms(r) == CentisMs(c))
  {
    var h := PadStart(c.h, 2, '0');
    var n := DigitsValue(c.cs) * 10;
    CentisBelow(c.cs);
    var f := PadStart(NatToString(n), 3, '0');
    Pad3(n);
    PaddedHours(c.h);
    RenderIsClock(h, c.m, c.s, ',', f);
    if |c.h| <= 2 {
      RenderTwelve(h, c.m, c.s, ',', f);
      Clock12IsClock(Render(h, c.m, c.s, ',', f), ',');
    }
  }

  /** Hours padded to two digits keep their value. */
  lemma {:induction false} PaddedHours(h: string)
    requires |h| >= 1 && AllDigits(h)
    ensures var p := PadStart(h, 2, '0');
      AllDigits(p) && DigitsValue(p) == DigitsValue(h) && |p| >= 1 && (|h| <= 2 ==> |p| == 2)
  {
    if |h| < 2 {
      LeadingZeros(Repeat('0', 2 - |h|), h);
      assert PadStart(h, 2, '0') == Repeat('0', 2 - |h|) + h;
    }
  }

  /** Two-digit hours, minutes and seconds and three-digit milliseconds
      render a twelve-character clock. */
  lemma {:induction false} RenderTwelve(h: string, m: string, s: string, sep: char, f: string)
    requires |h| == 2 && |m| == 2 && |s| == 2 && |f| == 3
    requires AllDigits(h) && AllDigits(m) && AllDigits(s) && AllDigits(f)
    requires sep == ',' || sep == '.'
    ensures var r := Render(h, m, s, sep, f); |r| == 12 && Clock12At(r) && r[8] == sep
  {
    var r := Render(h, m, s, sep, f);
    assert r[0] == h[0] && r[1] == h[1] && r[2] == ':';
    assert r[3] == m[0] && r[4] == m[1] && r[5] == ':';
    assert r[6] == s[0] && r[7] == s[1] && r[8] == sep;
    assert r[9] == f[0] && r[10] == f[1] && r[11] == f[2];
  }

  lemma {:induction false} CentisBelow(d: string)
    requires |d| == 2 && AllDigits(d)
    ensures DigitsValue(d) < 100
  {
    assert d[..1][..0] == [] && d[..1][0] == d[0];
    assert DigitsValue(d[..1]) == DigitValue(d[0]);
  }

  /** `ASSParser.msToASSTime`: unpadded hours, then two-digit minutes,
      seconds and centiseconds; the milliseconds below ten are dropped. */
  function MsToAssTime(ms: nat): string {
    Shown(MsCentis(ms))
  }

  /** The fields `MsToAssTime` writes. */
  function MsCentis(ms: nat): Centis {
    Centis(NatToString(ms / 3600000), PadStart(NatToString((ms % 3600000) / 60000), 2, '0'),
           PadStart(NatToString((ms % 60000) / 1000), 2, '0'), PadStart(NatToString((ms % 1000) / 10), 2, '0'))
  }

  /** Writing a time and reading it back truncates it to centiseconds. */
  lemma {:induction false} MsToAssTimeReads(ms: nat)
    ensures CentisAt(MsToAssTime(ms)) == Some(MsCentis(ms))
    ensures TimeToMs(MsToAssTime(ms)) == ms - ms % 10
  {
    MsCentisCaptured(ms);
    ShownReads(MsCentis(ms));
    MsCentisValue(ms);
  }

  /** A written time is matched whole and reads as its capture's
      milliseconds. */
  lemma {:induction false} ShownReads(c: Centis)
    requires Captured(c)
    ensures CentisAt(Shown(c)) == Some(c)
    ensures TimeToMs(Shown(c)) == CentisMs(c)
  {
    ShownFound(c, "");
    assert Shown(c) + "" == Shown(c);
  }

  lemma {:induction false} MsCentisCaptured(ms: nat)
    ensures Captured(MsCentis(ms))
  {
    MsDecompose(ms);
    Pad2((ms % 3600000) / 60000);
    Pad2((ms % 60000) / 1000);
    Pad2((ms % 1000) / 10);
  }

  lemma {:induction false} MsCentisValue(ms: nat)
    requires Captured(MsCentis(ms))
    ensures CentisMs(MsCentis(ms)) == ms - ms % 10
  {
    var h := ms / 3600000;
    var m := (ms % 3600000) / 60000;
    var s := (ms % 60000) / 1000;
    var q := (ms % 1000) / 10;
    MsDecompose(ms);
    Pad2(m);
    Pad2(s);
    Pad2(q);
    assert CentisMs(MsCentis(ms)) == FieldsMs(h, m, s, q * 10);
    CentisTruncation(ms);
  }

  lemma {:induction false} CentisTruncation(ms: nat)
    ensures (ms % 1000) / 10 * 10 == ms % 1000 - ms % 10
  {
    var k := ms / 1000;
    var r := ms % 1000;
    var q := r / 10;
    var t := r % 10;
    assert r == q * 10 + t;
    assert ms == (k * 100 + q) * 10 + t;
    ModUnique(ms, k * 100 + q, t, 10);
  }

  /* ------------------------------------------------------ dialogue fields */

  /** The untrimmed fields of `splitDialogueLine`: `line` cut at its first
      `cuts` commas (at none when `cuts <= 0`); every later comma stays in
      the last field. */
  function Fields(line: string, cuts: int): (r: seq<string>)
    ensures 1 <= |r|
    decreases |line|
  {
    if cuts <= 0 || |line| == 0 then [line]
    else if line[0] == ',' then [""] + Fields(line[1..], cuts - 1)
    else
      var rest := Fields(line[1..], cuts);
      [[line[0]] + rest[0]] + rest[1..]
  }

  /** Rejoined with commas, the fields give the line back, and only the
      last field can hold a comma. */
  lemma {:induction false} FieldsLaws(line: string, cuts: int)
    ensures Join(Fields(line, cuts), ",") == line
    ensures forall j :: 0 <= j < |Fields(line, cuts)| - 1 ==> ',' !in Fields(line, cuts)[j]
    decreases |line|
  {
    if cuts <= 0 || |line| == 0 {
    } else if line[0] == ',' {
      var rest := Fields(line[1..], cuts - 1);
      FieldsLaws(line[1..], cuts - 1);
      assert ([""] + rest)[1..] == rest;
    } else {
      var rest := Fields(line[1..], cuts);
      FieldsLaws(line[1..], cuts);
      var r := [[line[0]] + rest[0]] + rest[1..];
      assert r[1..] == rest[1..];
      assert |r| > 1 ==> Join(rest, ",") == rest[0] + "," + Join(rest[1..], ",");
      assert forall j :: 1 <= j < |r| - 1 ==> r[j] == rest[j];
    }
  }

  /** The number of cuts made: every comma while cuts remain. */
  lemma {:induction false} FieldsCount(line: string, cuts: int)
    ensures |Fields(line, cuts)| - 1 == if cuts <= 0 then 0 else if Count(line, ',') < cuts then Count(line, ',') else cuts
    decreases |line|
  {
    if cuts > 0 && |line| > 0 {
      if line[0] == ',' {
        FieldsCount(line[1..], cuts - 1);
      } else {
        FieldsCount(line[1..], cuts);
      }
    }
  }

  /** Each string trimmed. */
  function Trims(xs: seq<string>): (r: seq<string>)
    ensures |r| == |xs|
    ensures forall i :: 0 <= i < |xs| ==> r[i] == Trim(xs[i])
  {
    seq(|xs|, i requires 0 <= i < |xs| => Trim(xs[i]))
  }

  /** `splitDialogueLine(line, fieldCount)`: at most `fieldCount` trimmed
      fields (one when `fieldCount` is 0); the text field keeps its commas. */
  function SplitDialogueLine(line: string, fieldCount: nat): (r: seq<string>)
    ensures 1 <= |r|
    ensures fieldCount >= 1 ==> |r| <= fieldCount
    ensures fieldCount >= 1 && Count(line, ',') >= fieldCount - 1 ==> |r| == fieldCount
    ensures Count(line, ',') < fieldCount ==> |r| == Count(line, ',') + 1
  {
    FieldsCount(line, fieldCount - 1);
    Trims(Fields(line, fieldCount - 1))
  }

  /** Appending a character to the input either opens an empty field (a
      comma while cuts remain) or extends the last field. */
  lemma {:induction false} FieldsSnoc(s: string, c: char, cuts: int)
    ensures var r := Fields(s, cuts);
      Fields(s + [c], cuts) ==
        if c == ',' && |r| - 1 < cuts then r + [""] else r[..|r| - 1] + [r[|r| - 1] + [c]]
    decreases |s|, 1
  {
    var t := s + [c];
    if cuts <= 0 {
    } else if |s| == 0 {
      assert t == [c] && t[1..] == [];
      assert Fields(s, cuts) == [""];
      assert Fields(t[1..], cuts - 1) == [""] && Fields(t[1..], cuts) == [""];
      if c == ',' {
        assert Fields(t, cuts) == [""] + [""];
      } else {
        assert Fields(t, cuts) == [[c] + ""] + [""][1..];
        assert [c] + "" == "" + [c];
      }
    } else if s[0] == ',' {
      FieldsSnocComma(s, c, cuts);
    } else {
      FieldsSnocOther(s, c, cuts);
    }
  }

  lemma {:induction false} FieldsSnocComma(s: string, c: char, cuts: int)
    requires cuts > 0 && |s| > 0 && s[0] == ','
    ensures var r := Fields(s, cuts);
      Fields(s + [c], cuts) ==
        if c == ',' && |r| - 1 < cuts then r + [""] else r[..|r| - 1] + [r[|r| - 1] + [c]]
    decreases |s|, 0
  {
    var t := s + [c];
    var r' := Fields(s[1..], cuts - 1);
    assert Fields(s, cuts) == [""] + r' by {
      FieldsComma(s, cuts);
    }
    assert Fields(t, cuts) == [""] + Fields(s[1..] + [c], cuts - 1) by {
      assert t[0] == s[0] && t[1..] == s[1..] + [c];
      FieldsComma(t, cuts);
    }
    FieldsSnoc(s[1..], c, cuts - 1);
    PrependSnoc("", r', c);
  }

  /** A leading comma, while cuts remain, closes an empty first field. */
  lemma {:induction false} FieldsComma(s: string, cuts: int)
    requires cuts > 0 && |s| > 0 && s[0] == ','
    ensures Fields(s, cuts) == [""] + Fields(s[1..], cuts - 1)
  {
  }

  /** A field put in front of both sides of a snoc step. */
  lemma {:induction false} PrependSnoc(x: string, r': seq<string>, c: char)
    requires |r'| >= 1
    ensures var r := [x] + r';
      && |r| - 1 == |r'|
      && [x] + (r' + [""]) == r + [""]
      && [x] + (r'[..|r'| - 1] + [r'[|r'| - 1] + [c]]) == r[..|r| - 1] + [r[|r| - 1] + [c]]
  {
    var r := [x] + r';
    var k := |r'| - 1;
    assert r[..k + 1] == [x] + r'[..k] && r[k + 1] == r'[k];
  }

  lemma {:induction false} FieldsSnocOther(s: string, c: char, cuts: int)
    requires cuts > 0 && |s| > 0 && s[0] != ','
    ensures var r := Fields(s, cuts);
      Fields(s + [c], cuts) ==
        if c == ',' && |r| - 1 < cuts then r + [""] else r[..|r| - 1] + [r[|r| - 1] + [c]]
    decreases |s|, 0
  {
    var t := s + [c];
    assert t[0] == s[0] && t[1..] == s[1..] + [c];
    FieldsSnoc(s[1..], c, cuts);
    var rest := Fields(s[1..], cuts);
    var rest' := Fields(s[1..] + [c], cuts);
    FieldsOther(s, cuts);
    FieldsOther(t, cuts);
    var r := Fields(s, cuts);
    if c == ',' && |rest| - 1 < cuts {
      assert rest' == rest + [""];
      HeadSnocEmpty([s[0]], rest);
      assert Fields(t, cuts) == r + [""];
    } else {
      assert rest' == rest[..|rest| - 1] + [rest[|rest| - 1] + [c]];
      HeadSnocLast([s[0]], rest, c);
      assert Fields(t, cuts) == r[..|r| - 1] + [r[|r| - 1] + [c]];
    }
  }

  /** Any other first character, while cuts remain, starts the first field. */
  lemma {:induction false} FieldsOther(s: string, cuts: int)
    requires cuts > 0 && |s| > 0 && s[0] != ','
    ensures var rest := Fields(s[1..], cuts); Fields(s, cuts) == [[s[0]] + rest[0]] + rest[1..]
  {
  }

  /** Gluing a prefix to the first field commutes with opening a new field. */
  lemma {:induction false} HeadSnocEmpty(a: string, rest: seq<string>)
    requires |rest| >= 1
    ensures var r, rest' := [a + rest[0]] + rest[1..], rest + [""];
      |r| == |rest| && [a + rest'[0]] + rest'[1..] == r + [""]
  {
    var rest' := rest + [""];
    assert rest'[0] == rest[0] && rest'[1..] == rest[1..] + [""];
  }

  /** Gluing a prefix to the first field commutes with extending the last one. */
  lemma {:induction false} HeadSnocLast(a: string, rest: seq<string>, c: char)
    requires |rest| >= 1
    ensures var r, k := [a + rest[0]] + rest[1..], |rest| - 1;
      var rest' := rest[..k] + [rest[k] + [c]];
      |r| == |rest| && [a + rest'[0]] + rest'[1..] == r[..|r| - 1] + [r[|r| - 1] + [c]]
  {
    var r := [a + rest[0]] + rest[1..];
    var k := |rest| - 1;
    var rest' := rest[..k] + [rest[k] + [c]];
    if k > 0 {
      assert rest'[0] == rest[0] && rest'[1..] == rest[1..k] + [rest[k] + [c]];
      assert r[..k] == [a + rest[0]] + rest[1..k] && r[k] == rest[k];
    } else {
      assert rest' == [rest[0] + [c]];
      assert a + (rest[0] + [c]) == (a + rest[0]) + [c];
    }
  }

  /** The loop of `splitDialogueLine`: one pass over the characters, a comma
      closing the current field while fewer than `fieldCount - 1` fields are
      closed. It computes `SplitDialogueLine`. */
  method SplitDialogueLoop(line: string, fieldCount: nat) returns (parts: seq<string>)
    ensures parts == SplitDialogueLine(line, fieldCount)
  {
    parts := [];
    var current := "";
    var count := 0;
    ghost var raws: seq<string> := [];
    ghost var cuts: int := fieldCount - 1;
    for i := 0 to |line|
      invariant Fields(line[..i], cuts) == raws + [current]
      invariant parts == Trims(raws)
      invariant count == |raws|
    {
      LoopStep(line, i, cuts, raws, current);
      if line[i] == ',' && count < fieldCount - 1 {
        TrimsSnoc(raws, current);
        parts := parts + [Trim(current)];
        raws := raws + [current];
        current := "";
        count := count + 1;
      } else {
        current := current + [line[i]];
      }
    }
    assert line[..|line|] == line;
    TrimsSnoc(raws, current);
    parts := parts + [Trim(current)];
  }

  /** One character of the loop, on the prefix read so far. */
  lemma {:induction false} LoopStep(line: string, i: nat, cuts: int, raws: seq<string>, current: string)
    requires i < |line| && Fields(line[..i], cuts) == raws + [current]
    ensures line[i] == ',' && |raws| < cuts ==> Fields(line[..i + 1], cuts) == (raws + [current]) + [""]
    ensures !(line[i] == ',' && |raws| < cuts) ==> Fields(line[..i + 1], cuts) == raws + [current + [line[i]]]
  {
    assert line[..i + 1] == line[..i] + [line[i]];
    FieldsStep(line[..i], line[i], cuts, raws, current);
  }

  /** One character of the loop, on the fields seen so far. */
  lemma {:induction false} FieldsStep(s: string, c: char, cuts: int, raws: seq<string>, current: string)
    requires Fields(s, cuts) == raws + [current]
    ensures c == ',' && |raws| < cuts ==> Fields(s + [c], cuts) == (raws + [current]) + [""]
    ensures !(c == ',' && |raws| < cuts) ==> Fields(s + [c], cuts) == raws + [current + [c]]
  {
    FieldsSnoc(s, c, cuts);
    var r := raws + [current];
    assert r[..|r| - 1] == raws && r[|r| - 1] == current;
  }

  lemma {:induction false} TrimsSnoc(xs: seq<string>, x: string)
    ensures Trims(xs + [x]) == Trims(xs) + [Trim(x)]
  {
  }

  /** Comma-free leading fields followed by a last field are cut back into
      exactly those fields. */
  lemma {:induction false} FieldsJoin(xs: seq<string>, last: string)
    requires forall j :: 0 <= j < |xs| ==> ',' !in xs[j]
    ensures Fields(Join(xs + [last], ","), |xs|) == xs + [last]
    decreases |xs|
  {
    if |xs| > 0 {
      var ys := xs + [last];
      assert ys[1..] == xs[1..] + [last];
      FieldsJoin(xs[1..], last);
      FieldsAfterHead(xs[0], Join(ys[1..], ","), |xs|);
      assert ys == [xs[0]] + ys[1..];
    } else {
      assert xs + [last] == [last];
    }
  }

  /** A comma-free head and a comma: the head is one field, cut off. */
  lemma {:induction false} FieldsAfterHead(x: string, rest: string, cuts: int)
    requires ',' !in x && cuts >= 1
    ensures Fields(x + "," + rest, cuts) == [x] + Fields(rest, cuts - 1)
    decreases |x|
  {
    var t := x + "," + rest;
    if |x| == 0 {
      assert t == [','] + rest && t[1..] == rest;
    } else {
      assert t[0] == x[0] && t[1..] == x[1..] + "," + rest;
      FieldsAfterHead(x[1..], rest, cuts);
      assert [x[0]] + x[1..] == x;
    }
  }

  /* --------------------------------------------------------------- text */

  /** Position of the first `c` in `s`. */
  function FirstIndex(s: string, c: char): (k: nat)
    requires c in s
    ensures k < |s| && s[k] == c && c !in s[..k]
  {
    if s[0] == c then 0
    else
      var k := 1 + FirstIndex(s[1..], c);
      assert s[..k] == [s[0]] + s[1..][..k - 1];
      k
  }

  /** No `{` is followed, anywhere later, by a `}`. */
  predicate NoTag(s: string) {
    forall i, j :: 0 <= i < j < |s| && s[i] == '{' ==> s[j] != '}'
  }

  /** `replace(/\{[^}]*\}/g, '')`: from left to right, a `{` that has a `}`
      after it goes together with everything up to the first such `}`; a
      `{` with no `}` after it stays. */
  function StripTags(s: string): (r: string)
    ensures |r| <= |s|
    ensures '{' !in s ==> r == s
    decreases |s|
  {
    if |s| == 0 then ""
    else if s[0] == '{' && '}' in s[1..] then
      StripTags(s[1..][FirstIndex(s[1..], '}') + 1..])
    else
      var rest := StripTags(s[1..]);
      assert '{' !in s ==> '{' !in s[1..];
      [s[0]] + rest
  }

  /** Stripping adds no character, and leaves no `{` with a `}` after it. */
  lemma {:induction false} StripTagsLeaves(s: string)
    ensures forall c :: c in StripTags(s) ==> c in s
    ensures NoTag(StripTags(s))
    decreases |s|
  {
    if |s| == 0 {
    } else if s[0] == '{' && '}' in s[1..] {
      var t := s[1..][FirstIndex(s[1..], '}') + 1..];
      StripTagsLeaves(t);
      assert forall c :: c in t ==> c in s[1..];
    } else {
      var rest := StripTags(s[1..]);
      StripTagsLeaves(s[1..]);
      var r := [s[0]] + rest;
      assert forall c :: c in r ==> c == s[0] || c in rest;
      forall i, j | 0 <= i < j < |r| && r[i] == '{' ensures r[j] != '}' {
        if i == 0 {
          assert r[j] == rest[j - 1] && rest[j - 1] in rest;
        } else {
          assert r[i] == rest[i - 1] && r[j] == rest[j - 1];
        }
      }
    }
  }

  /** Text before the first `{` is kept, and the rest is stripped on its own. */
  lemma {:induction false} TagsPlain(a: string, b: string)
    requires '{' !in a
    ensures StripTags(a + b) == a + StripTags(b)
    decreases |a|
  {
    if |a| > 0 {
      var s := a + b;
      assert s[0] == a[0] && s[1..] == a[1..] + b;
      assert StripTags(s) == [a[0]] + StripTags(a[1..] + b);
      TagsPlain(a[1..], b);
      assert [a[0]] + a[1..] == a;
    } else {
      assert a + b == b;
    }
  }

  /** A `{` goes with everything up to the first `}` after it. */
  lemma {:induction false} TagDropped(x: string, b: string)
    requires '}' !in x
    ensures StripTags("{" + x + "}" + b) == StripTags(b)
  {
    var s := "{" + x + "}" + b;
    var t := s[1..];
    assert t == x + "}" + b;
    assert t[|x|] == '}' && t[..|x|] == x;
    FirstIs(t, '}', |x|);
    assert t[|x| + 1..] == b;
  }

  /** The first `c` is at `k` when `s[k]` is one and none comes before. */
  lemma {:induction false} FirstIs(s: string, c: char, k: nat)
    requires k < |s| && s[k] == c && c !in s[..k]
    ensures FirstIndex(s, c) == k
    decreases k
  {
    if k > 0 {
      assert s[0] == s[..k][0];
      assert s[1..][..k - 1] == s[1..k];
      assert forall j :: 0 <= j < k - 1 ==> s[1..k][j] == s[..k][j + 1];
      FirstIs(s[1..], c, k - 1);
    }
  }

  /** With no `}` anywhere, nothing is a tag: the text is kept whole. */
  lemma {:induction false} Unclosed(s: string)
    requires '}' !in s
    ensures StripTags(s) == s
    decreases |s|
  {
    if |s| > 0 {
      assert '}' !in s[1..];
      Unclosed(s[1..]);
      assert [s[0]] + s[1..] == s;
    }
  }

  /** Text not holding the pattern's first character is kept, and the rest
      is replaced on its own. */
  lemma {:induction false} ReplacePlain(p: string, q: string, pat: string, rep: string)
    requires |pat| > 0 && pat[0] !in p
    ensures ReplaceAll(p + q, pat, rep) == p + ReplaceAll(q, pat, rep)
    decreases |p|
  {
    if |p| > 0 {
      var s := p + q;
      assert s[1..] == p[1..] + q;
      if |s| >= |pat| {
        assert s[..|pat|][0] == p[0];
      } else {
        ReplaceShort(q, pat, rep);
      }
      ReplacePlain(p[1..], q, pat, rep);
      assert [p[0]] + p[1..] == p;
    } else {
      assert p + q == q;
    }
  }

  /** Text shorter than the pattern is kept. */
  lemma {:induction false} ReplaceShort(s: string, pat: string, rep: string)
    requires |pat| > 0 && |s| < |pat|
    ensures ReplaceAll(s, pat, rep) == s
  {
  }

  /** An occurrence at the start is replaced. */
  lemma {:induction false} ReplaceHead(q: string, pat: string, rep: string)
    requires |pat| > 0
    ensures ReplaceAll(pat + q, pat, rep) == rep + ReplaceAll(q, pat, rep)
  {
    var s := pat + q;
    assert s[..|pat|] == pat && s[|pat|..] == q;
  }

  /** A two-character escape other than the pattern, whose second character
      cannot start it, is kept. */
  lemma {:induction false} ReplaceOther(u: string, q: string, pat: string, rep: string)
    requires |u| == 2 && |pat| == 2 && u != pat && u[1] != pat[0]
    ensures ReplaceAll(u + q, pat, rep) == u + ReplaceAll(q, pat, rep)
  {
    var s := u + q;
    assert s[..2] == u;
    assert s[1..] == [u[1]] + q;
    ReplacePlain([u[1]], q, pat, rep);
    assert [u[0]] + [u[1]] == u;
  }

  /** No `{` and no backslash: text every cleaning step leaves alone. */
  predicate Bare(s: string) {
    '{' !in s && '\\' !in s
  }

  /** Cleaning drops a tag, turns `\N` and `\n` into line breaks and `\h`
      into a space, keeps the text around them, and trims. */
  lemma {:induction false} CleanPieces(a: string, x: string, b: string, c: string, d: string, e: string)
    requires Bare(a) && Bare(b) && Bare(c) && Bare(d) && Bare(e) && '}' !in x
    ensures CleanText(a + "{" + x + "}" + (b + "\\N" + (c + "\\n" + (d + "\\h" + e))))
      == Trim(a + b + "\n" + c + "\n" + d + " " + e)
  {
    var u := c + "\\n" + (d + "\\h" + e);
    var p := a + b;
    StripStep(a, x, b, u);
    LaterEscapesKept(c, d, e);
    assert '\\' !in p;
    PassOne(p, "\\N", "\n", u);
    LowerStep(p, c, d, e);
    HStep(p + "\n" + c + "\n" + d, e);
  }

  /** The tag goes and the text on both sides of it is kept. */
  lemma {:induction false} StripStep(a: string, x: string, b: string, u: string)
    requires Bare(a) && Bare(b) && '{' !in u && '}' !in x
    ensures StripTags(a + "{" + x + "}" + (b + "\\N" + u)) == (a + b) + "\\N" + u
  {
    StripPass(a, x, b + "\\N" + u);
    assert a + (b + "\\N" + u) == (a + b) + "\\N" + u;
  }

  /** The `\n` pass on the text the `\N` pass left. */
  lemma {:induction false} LowerStep(p: string, c: string, d: string, e: string)
    requires '\\' !in p && Bare(c) && ReplaceAll(d + "\\h" + e, "\\n", "\n") == d + "\\h" + e
    ensures ReplaceAll(p + "\n" + (c + "\\n" + (d + "\\h" + e)), "\\n", "\n") == (p + "\n" + c + "\n" + d) + "\\h" + e
  {
    var v := d + "\\h" + e;
    assert p + "\n" + (c + "\\n" + v) == (p + "\n" + c) + "\\n" + v;
    assert '\\' !in p + "\n" + c;
    PassOne(p + "\n" + c, "\\n", "\n", v);
    assert (p + "\n" + c) + "\n" + v == (p + "\n" + c + "\n" + d) + "\\h" + e;
  }

  /** The `\h` pass on the text the `\n` pass left. */
  lemma {:induction false} HStep(q: string, e: string)
    requires '\\' !in q && Bare(e)
    ensures ReplaceAll(q + "\\h" + e, "\\h", " ") == q + " " + e
  {
    ReplaceAbsent(e, "\\h", " ");
    PassOne(q, "\\h", " ", e);
  }

  /** The `\N` pass keeps text whose only escapes are a `\n` and a `\h`, and
      the `\n` pass keeps text whose only escape is a `\h`. */
  lemma {:induction false} LaterEscapesKept(c: string, d: string, e: string)
    requires Bare(c) && Bare(d) && Bare(e)
    ensures ReplaceAll(c + "\\n" + (d + "\\h" + e), "\\N", "\n") == c + "\\n" + (d + "\\h" + e)
    ensures ReplaceAll(d + "\\h" + e, "\\n", "\n") == d + "\\h" + e
  {
    var v := d + "\\h" + e;
    EscapeKept(d, "\\h", e, "\\N", "\n");
    EscapeKept(d, "\\h", e, "\\n", "\n");
    EscapeKept(c, "\\n", v, "\\N", "\n");
  }

  /** Stripping keeps the text before a tag and after it. */
  lemma {:induction false} StripPass(a: string, x: string, rest: string)
    requires '{' !in a && '{' !in rest && '}' !in x
    ensures StripTags(a + "{" + x + "}" + rest) == a + rest
  {
    assert a + "{" + x + "}" + rest == a + ("{" + x + "}" + rest);
    TagsPlain(a, "{" + x + "}" + rest);
    TagDropped(x, rest);
  }

  /** One pass replaces the occurrence after a prefix that cannot start one,
      when the rest holds none. */
  lemma {:induction false} PassOne(p: string, pat: string, rep: string, u: string)
    requires |pat| > 0 && pat[0] !in p && ReplaceAll(u, pat, rep) == u
    ensures ReplaceAll(p + pat + u, pat, rep) == p + rep + u
  {
    ReplaceHead(u, pat, rep);
    assert p + pat + u == p + (pat + u);
    ReplacePlain(p, pat + u, pat, rep);
    assert p + (rep + u) == p + rep + u;
  }

  /** A pass for another two-character escape keeps the one in `c + w + v`. */
  lemma {:induction false} EscapeKept(c: string, w: string, v: string, pat: string, rep: string)
    requires |w| == 2 && |pat| == 2 && w != pat && w[1] != pat[0]
    requires pat[0] !in c && (ReplaceAll(v, pat, rep) == v || pat[0] !in v)
    ensures ReplaceAll(c + w + v, pat, rep) == c + w + v
  {
    if pat[0] !in v {
      ReplaceAbsent(v, pat, rep);
    }
    ReplaceOther(w, v, pat, rep);
    assert c + w + v == c + (w + v);
    ReplacePlain(c, w + v, pat, rep);
  }

  /** `text.replace(/\n/g, '\\N')`: the escape both encoders apply to line
      breaks. */
  function Escape(text: string): (r: string)
    ensures '\n' !in r
  {
    EscapeNoNewline(text);
    ReplaceAll(text, "\n", "\\N")
  }

  lemma {:induction false} EscapeNoNewline(s: string)
    ensures '\n' !in ReplaceAll(s, "\n", "\\N")
    decreases |s|
  {
    if |s| >= 1 {
      EscapeNoNewline(s[1..]);
    }
  }

  /** `ASSParser.cleanText`: override tags removed, `\N` and `\n` turned into
      line breaks and `\h` into a space, then trimmed. Text with no `{` and
      no backslash is only trimmed. */
  function CleanText(text: string): (r: string)
    ensures IsTrimmed(r)
    ensures '{' !in text && '\\' !in text ==> r == Trim(text)
  {
    var a := StripTags(text);
    var b := ReplaceAll(a, "\\N", "\n");
    var c := ReplaceAll(b, "\\n", "\n");
    var d := ReplaceAll(c, "\\h", " ");
    if '{' !in text && '\\' !in text then
      ReplaceAbsent(a, "\\N", "\n");
      ReplaceAbsent(b, "\\n", "\n");
      ReplaceAbsent(c, "\\h", " ");
      Trim(d)
    else Trim(d)
  }

  /** A pattern whose first character is absent is never replaced. */
  lemma {:induction false} ReplaceAbsent(s: string, pat: string, rep: string)
    requires |pat| > 0 && pat[0] !in s
    ensures ReplaceAll(s, pat, rep) == s
    decreases |s|
  {
    if |s| >= |pat| {
      assert s[..|pat|][0] == s[0];
      ReplaceAbsent(s[1..], pat, rep);
    }
  }

  /** Unescaping undoes the escape of text without backslashes. */
  lemma {:induction false} Unescape(t: string)
    requires '\\' !in t
    ensures ReplaceAll(Escape(t), "\\N", "\n") == t
    decreases |t|
  {
    if |t| > 0 {
      Unescape(t[1..]);
      var e := ReplaceAll(t[1..], "\n", "\\N");
      if t[0] == '\n' {
        assert Escape(t) == "\\N" + e;
        assert ("\\N" + e)[2..] == e;
      } else {
        assert Escape(t) == [t[0]] + e;
        var s := [t[0]] + e;
        if |s| >= 2 {
          assert s[..2] != "\\N" by { assert s[..2][0] == t[0]; }
          assert s[1..] == e;
        } else {
          assert e == [] && t[1..] == [];
        }
        assert [t[0]] + t[1..] == t;
      }
    }
  }

  /** Cleaning the escape of trimmed text without `{` or backslashes gives
      the text back. */
  lemma {:induction false} CleanEscaped(t: string)
    requires IsTrimmed(t) && '{' !in t && '\\' !in t
    ensures CleanText(Escape(t)) == t
  {
    var e := Escape(t);
    EscapeKeeps(t);
    assert StripTags(e) == e;
    Unescape(t);
    assert '\\' !in t;
    ReplaceAbsent(t, "\\n", "\n");
    ReplaceAbsent(t, "\\h", " ");
    TrimOfTrimmed(t);
  }

  /** The escape adds no `{`. */
  lemma {:induction false} EscapeKeeps(t: string)
    requires '{' !in t
    ensures '{' !in Escape(t)
    decreases |t|
  {
    if |t| > 0 {
      EscapeKeeps(t[1..]);
    }
  }

  /* ------------------------------------------------------------ decoding */

  /** The parser's state between lines: whether it is inside `[Events]`, the
      fields of the last `Format:` line there (trimmed, lower-cased), and the
      positions of `text`, `start` and `end` among them (-1 when absent). */
  datatype State = State(inEvents: bool, format: Option<seq<string>>, textIndex: int, startIndex: int, endIndex: int)

  const Initial := State(false, None, -1, -1, -1)

  /** The column names of a `Format:` line: split on commas, each trimmed
      and lower-cased. */
  function FormatFields(s: string): (r: seq<string>)
    ensures |r| == |Split(s, ',')| && |r| >= 1
    ensures forall i :: 0 <= i < |r| ==> r[i] == Lower(Trim(Split(s, ',')[i]))
  {
    var xs := Split(s, ',');
    seq(|xs|, i requires 0 <= i < |xs| => Lower(Trim(xs[i])))
  }

  /** A `Format:` line read inside `[Events]`. */
  function Formatted(f: seq<string>): State {
    State(true, Some(f), IndexOf(f, "text"), IndexOf(f, "start"), IndexOf(f, "end"))
  }

  /** The state after one more line: `[Events]` opens the events section,
      any other `[...]` header closes it, and a `Format:` line inside it
      sets the columns. */
  function Advance(st: State, line: string): State {
    var t := Trim(line);
    if t == "[Events]" then st.(inEvents := true)
    else if StartsWith(t, "[") then st.(inEvents := false)
    else if st.inEvents && StartsWith(t, "Format:") then Formatted(FormatFields(t[7..]))
    else st
  }

  /** The state after reading `lines` from the start of the script. */
  function StateAfter(lines: seq<string>): State
  {
    if |lines| == 0 then Initial else Advance(StateAfter(lines[..|lines| - 1]), lines[|lines| - 1])
  }

  /** The last line of `lines` that, trimmed, starts with `[`. */
  function LastHeader(lines: seq<string>): Option<string>
  {
    if |lines| == 0 then None
    else
      var t := Trim(lines[|lines| - 1]);
      if StartsWith(t, "[") then Some(t) else LastHeader(lines[..|lines| - 1])
  }

  /** The columns of the last `Format:` line of `lines` that lies inside an
      `[Events]` section. */
  function LastFormat(lines: seq<string>): Option<seq<string>>
  {
    if |lines| == 0 then None
    else
      var init := lines[..|lines| - 1];
      var t := Trim(lines[|lines| - 1]);
      if StartsWith(t, "Format:") && LastHeader(init) == Some("[Events]") then Some(FormatFields(t[7..]))
      else LastFormat(init)
  }

  /** The three column positions agree with the columns. */
  predicate Consistent(st: State) {
    match st.format
    case None => st.textIndex == -1 && st.startIndex == -1 && st.endIndex == -1
    case Some(f) =>
      && |f| >= 1
      && st.textIndex == IndexOf(f, "text") && st.startIndex == IndexOf(f, "start") && st.endIndex == IndexOf(f, "end")
  }

  /** The state after any prefix of a script is inside the events section
      exactly when the last header was `[Events]` and holds the columns of
      the last `Format:` line read there. */
  lemma {:induction false} StateAfterIs(lines: seq<string>)
    ensures Tracks(StateAfter(lines), lines)
    decreases |lines|
  {
    if |lines| > 0 {
      var init := lines[..|lines| - 1];
      StateAfterIs(init);
      AdvanceTracks(StateAfter(init), lines);
    }
  }

  /** `st` is inside the events section exactly when the last header of
      `lines` was `[Events]`, holds the columns of the last `Format:` line
      read there, and is consistent. */
  predicate Tracks(st: State, lines: seq<string>) {
    && (st.inEvents <==> LastHeader(lines) == Some("[Events]"))
    && st.format == LastFormat(lines)
    && Consistent(st)
  }

  /** One more line keeps the state tracking the lines read. */
  lemma {:induction false} AdvanceTracks(st: State, lines: seq<string>)
    requires |lines| > 0 && Tracks(st, lines[..|lines| - 1])
    ensures Tracks(Advance(st, lines[|lines| - 1]), lines)
  {
    var t := Trim(lines[|lines| - 1]);
    if t == "[Events]" {
      EventsHeader(t);
    } else if StartsWith(t, "[") {
      assert !StartsWith(t, "Format:") by { assert t[0] == '['; }
    }
  }

  lemma {:induction false} EventsHeader(t: string)
    requires t == "[Events]"
    ensures StartsWith(t, "[") && !StartsWith(t, "Format:")
  {
    assert t[..1] == "[";
    assert t[..7] != "Format:" by { assert t[0] != 'F'; }
  }

  /** A `Dialogue:` line, once trimmed. */
  predicate IsDialogue(line: string) {
    StartsWith(Trim(line), "Dialogue:")
  }

  /** The fallback for a missing or empty start or end column. */
  const DefaultTime := "0:00:00.00"

  /** `parts[i] || '0:00:00.00'`. */
  function FieldOr(parts: seq<string>, i: int): (r: string)
    ensures r != ""
  {
    if 0 <= i < |parts| && parts[i] != "" then parts[i] else DefaultTime
  }

  /** The number of fields a dialogue line is split into: the number of
      columns, or 10 before any `Format:` line. */
  function FieldCount(st: State): (n: nat)
    ensures n >= 1
  {
    if st.format.Some? && |st.format.value| > 0 then |st.format.value| else 10
  }

  /** The cue one line yields in state `st`, its id still unset: only a
      `Dialogue:` line inside `[Events]`, once a `Format:` line with a `text`
      column has been read, with at least as many fields as the text's
      position. The text is everything from the text column on, commas
      included; the columns before it are kept as the style. (A dialogue
      line starts neither with `[` nor with `Format:`, so the earlier
      branches of the source loop never take it.) */
  function DialogueCue(st: State, line: string): (r: Option<Cue>)
    ensures r.Some? ==> st.inEvents && IsDialogue(line) && st.textIndex >= 0
    ensures r.Some? ==> var c := r.value;
      && c.id == Num(0) && c.rawText.Some? && c.assStyle.Some? && |c.assStyle.value| == st.textIndex
      && c.text == CleanText(c.rawText.value) && IsTrimmed(c.rawText.value)
      && c.originalText.None? && !c.error && c.startFrame.None? && c.endFrame.None?
    ensures r.Some? ==>
      && |Trim(line)| >= 9
      && var parts := SplitDialogueLine(Trim(line)[9..], FieldCount(st));
      var start := FieldOr(parts, st.startIndex);
      var end := FieldOr(parts, st.endIndex);
      && st.textIndex < |parts|
      && r.value.startTime == FormatTime(start) && r.value.startMs == TimeToMs(start)
      && r.value.endTime == FormatTime(end) && r.value.endMs == TimeToMs(end)
      && r.value.rawText == Some(Trim(Join(parts[st.textIndex..], ",")))
      && r.value.assStyle == Some(parts[..st.textIndex])
  {
    var t := Trim(line);
    if !st.inEvents || !StartsWith(t, "Dialogue:") then None
    else
      var parts := SplitDialogueLine(t[9..], FieldCount(st));
      if st.textIndex < 0 || |parts| <= st.textIndex then None
      else
        var start := FieldOr(parts, st.startIndex);
        var end := FieldOr(parts, st.endIndex);
        var text := Trim(Join(parts[st.textIndex..], ","));
        Some(Cue(Num(0), FormatTime(start), FormatTime(end), TimeToMs(start), TimeToMs(end),
                 CleanText(text), None, false, Some(text), Some(parts[..st.textIndex]), None, None))
  }

  /** A dialogue line in a consistent state yields a cue exactly when it has
      at least as many commas as the text column's position. */
  lemma {:induction false} DialogueYields(st: State, line: string)
    requires Consistent(st)
    ensures DialogueCue(st, line).Some? <==>
      && st.inEvents && IsDialogue(line) && st.format.Some? && "text" in st.format.value
      && Count(Trim(line)[9..], ',') >= st.textIndex
  {
    var t := Trim(line);
    if st.inEvents && StartsWith(t, "Dialogue:") {
      var n := FieldCount(st);
      FieldsCount(t[9..], n - 1);
      if st.format.Some? {
        assert st.textIndex < n;
      }
    }
  }

  /** In the events state, with a `text` column, a line that trims to
      `Dialogue:` and one field per column yields the cue of those fields,
      each trimmed: the times from the start and end columns (the default
      when a column is absent or empty), the text column and all after it
      rejoined as the raw text, and the columns before it as the style. */
  lemma {:induction false} FieldsCue(st: State, line: string, xs: seq<string>, last: string)
    requires Consistent(st) && st.inEvents && st.format.Some? && st.textIndex >= 0
    requires |xs| + 1 == FieldCount(st) && forall j :: 0 <= j < |xs| ==> ',' !in xs[j]
    requires Trim(line) == "Dialogue:" + Join(xs + [last], ",")
    ensures var ps := Trims(xs + [last]);
      var start := FieldOr(ps, st.startIndex);
      var end := FieldOr(ps, st.endIndex);
      var raw := Trim(Join(ps[st.textIndex..], ","));
      DialogueCue(st, line) ==
        Some(Cue(Num(0), FormatTime(start), FormatTime(end), TimeToMs(start), TimeToMs(end), CleanText(raw),
                 None, false, Some(raw), Some(ps[..st.textIndex]), None, None))
  {
    var t := Trim(line);
    var j := Join(xs + [last], ",");
    assert t[..9] == "Dialogue:" && t[9..] == j;
    FieldsJoin(xs, last);
    assert SplitDialogueLine(j, FieldCount(st)) == Trims(xs + [last]) by {
      FieldsCount(j, |xs|);
    }
  }

  /** What each line yields, in the state the lines before it leave. */
  function Linewise(lines: seq<string>): (r: seq<Option<Cue>>)
    ensures |r| == |lines|
    ensures forall i :: 0 <= i < |lines| ==> r[i] == DialogueCue(StateAfter(lines[..i]), lines[i])
  {
    seq(|lines|, i requires 0 <= i < |lines| => DialogueCue(StateAfter(lines[..i]), lines[i]))
  }

  /** `ASSParser.parse`: the cues of the dialogue lines, numbered 1..n in
      order; every other line yields nothing. */
  function Parse(content: string): (r: seq<Cue>)
    ensures Pushed(r, Linewise(Split(content, '\n')))
    ensures forall i :: 0 <= i < |r| ==> Kept(r[i], i)
  {
    var os := Linewise(Split(content, '\n'));
    KeptLines(os);
    CollectPushed(os);
    Collect(os)
  }

  /** What every cue a dialogue line yields satisfies, whatever its id:
      the raw text and the style columns are kept and the text is the
      cleaned raw text. */
  predicate Decoded(c: Cue) {
    && c.rawText.Some? && c.assStyle.Some?
    && c.text == CleanText(c.rawText.value)
    && c.originalText.None? && !c.error && c.startFrame.None? && c.endFrame.None?
  }

  /** A decoded cue, pushed as number `k + 1`. */
  predicate Kept(c: Cue, k: nat) {
    Decoded(c) && c.id == Num(k + 1)
  }

  lemma KeptLines(os: seq<Option<Cue>>)
    requires forall i :: 0 <= i < |os| && os[i].Some? ==> os[i].value.id == Num(0) && Decoded(os[i].value)
    ensures forall i :: 0 <= i < |Collect(os)| ==> Kept(Collect(os)[i], i)
  {
    SomesPicks(os);
    forall i | 0 <= i < |Collect(os)| ensures Kept(Collect(os)[i], i) {
      assert os[Yielding(os)[i]] == Some(Somes(os)[i]);
    }
  }

  /** Only dialogue lines yield cues, and only inside `[Events]` after a
      `Format:` line there with a `text` column; such a line yields one
      exactly when it has enough commas to reach that column. */
  lemma {:induction false} LineYields(lines: seq<string>, i: nat)
    requires i < |lines|
    ensures var f := LastFormat(lines[..i]);
      Linewise(lines)[i].Some? <==>
        && IsDialogue(lines[i]) && LastHeader(lines[..i]) == Some("[Events]")
        && f.Some? && "text" in f.value && Count(Trim(lines[i])[9..], ',') >= IndexOf(f.value, "text")
  {
    StateAfterIs(lines[..i]);
    DialogueYields(StateAfter(lines[..i]), lines[i]);
  }

  /* ------------------------------------------------------------ encoding */

  /** A cue the rewriting encoder restyles: it has style columns (an array,
      truthy even when empty) and a non-empty raw text. */
  predicate Restyled(c: Cue) {
    c.assStyle.Some? && c.rawText.Some? && c.rawText.value != ""
  }

  /** The dialogue line written for a restyled cue: its style columns, then
      its (possibly translated) text with line breaks escaped. */
  function RestyledLine(c: Cue): string
    requires c.assStyle.Some?
  {
    "Dialogue: " + Join(c.assStyle.value, ",") + "," + Escape(c.text)
  }

  /** Which of `lines` are dialogue lines. */
  function Kinds(lines: seq<string>): (r: seq<bool>)
    ensures |r| == |lines|
    ensures forall j :: 0 <= j < |lines| ==> r[j] == IsDialogue(lines[j])
  {
    seq(|lines|, j requires 0 <= j < |lines| => IsDialogue(lines[j]))
  }

  /** The rewriting loop over the original lines, `dia` telling which are
      dialogue lines; `k` counts the dialogue lines matched to cues so far. */
  function Rewrite(lines: seq<string>, dia: seq<bool>, cs: seq<Cue>, k: nat): (r: seq<string>)
    requires |dia| == |lines|
    ensures |r| == |lines|
    decreases |lines|
  {
    if |lines| == 0 then []
    else if dia[0] && k < |cs| then
      [if Restyled(cs[k]) then RestyledLine(cs[k]) else lines[0]] + Rewrite(lines[1..], dia[1..], cs, k + 1)
    else [lines[0]] + Rewrite(lines[1..], dia[1..], cs, k)
  }

  /** The number of dialogue lines among those flagged by `dia`. */
  function Rank(dia: seq<bool>): nat
    decreases |dia|
  {
    if |dia| == 0 then 0 else (if dia[0] then 1 else 0) + Rank(dia[1..])
  }

  /** The line the rewrite puts in place of `line` when `line` is, as `d`
      tells, the dialogue line of rank `k`: the `k`-th cue's restyled line
      when there is such a cue and it is restyled, otherwise `line` itself. */
  function Rewritten(d: bool, line: string, cs: seq<Cue>, k: nat): string {
    if d && k < |cs| && Restyled(cs[k]) then RestyledLine(cs[k]) else line
  }

  /** Line `i` of the rewrite depends only on line `i` and the number of
      dialogue lines before it. */
  lemma {:induction false} RewriteAt(lines: seq<string>, dia: seq<bool>, cs: seq<Cue>, k: nat, i: nat)
    requires |dia| == |lines| && i < |lines|
    ensures Rewrite(lines, dia, cs, k)[i] == Rewritten(dia[i], lines[i], cs, k + Rank(dia[..i]))
    decreases i
  {
    if i == 0 {
      assert dia[..0] == [];
    } else {
      var k' := if dia[0] && k < |cs| then k + 1 else k;
      assert dia[..i][1..] == dia[1..][..i - 1] && dia[..i][0] == dia[0];
      assert Rewrite(lines, dia, cs, k)[i] == Rewrite(lines[1..], dia[1..], cs, k')[i - 1];
      RewriteAt(lines[1..], dia[1..], cs, k', i - 1);
      assert lines[1..][i - 1] == lines[i] && dia[1..][i - 1] == dia[i];
    }
  }

  /** The header of the minimal script, line by line. */
  const HeaderLines: seq<string> := [
    "[Script Info]",
    "Title: Translated Subtitles",
    "ScriptType: v4.00+",
    "WrapStyle: 0",
    "PlayResX: 1920",
    "PlayResY: 1080",
    "",
    "[V4+ Styles]",
    "Format: " + Join(StyleColumns, ", "),
    "Style: " + Join(DefaultStyle, ","),
    "",
    "[Events]",
    "Format: " + Join(EventColumns, ", ")]

  /** The columns of the header's style table. */
  const StyleColumns: seq<string> := [
    "Name", "Fontname", "Fontsize", "PrimaryColour", "SecondaryColour", "OutlineColour", "BackColour",
    "Bold", "Italic", "Underline", "StrikeOut", "ScaleX", "ScaleY", "Spacing", "Angle", "BorderStyle",
    "Outline", "Shadow", "Alignment", "MarginL", "MarginR", "MarginV", "Encoding"]

  /** The header's one style, `Default`: 48-point Arial, white. */
  const DefaultStyle: seq<string> := [
    "Default", "Arial", "48", "&H00FFFFFF", "&H000000FF", "&H00000000", "&H80000000",
    "0", "0", "0", "0", "100", "100", "0", "0", "1", "2", "1", "2", "10", "10", "10", "1"]

  /** The columns of the header's events table, the layout of every
      dialogue line the minimal script writes. */
  const EventColumns: seq<string> := ["Layer", "Start", "End", "Style", "Name", "MarginL", "MarginR", "MarginV", "Effect", "Text"]

  /** Each line followed by a line feed. */
  function Terminated(lines: seq<string>): string
    decreases |lines|
  {
    if |lines| == 0 then "" else lines[0] + "\n" + Terminated(lines[1..])
  }

  /** The dialogue line the minimal script writes for a cue: layer 0, the
      times from its milliseconds, the `Default` style, zero margins, and
      the escaped text. */
  function MinimalLine(c: Cue): string {
    ColumnsLine(MsToAssTime(c.startMs), MsToAssTime(c.endMs), Escape(c.text))
  }

  /** A dialogue line of the minimal script from its three varying columns. */
  function ColumnsLine(start: string, end: string, text: string): string {
    "Dialogue: " + Join(DialogueColumns(start, end, text), ",")
  }

  /** The ten columns of such a line, in the order of `EventColumns`. */
  function DialogueColumns(start: string, end: string, text: string): seq<string> {
    ["0", start, end, "Default", "", "0", "0", "0", "", text]
  }

  function MinimalLines(cs: seq<Cue>): (r: seq<string>)
    ensures |r| == |cs|
    ensures forall i :: 0 <= i < |cs| ==> r[i] == MinimalLine(cs[i])
  {
    seq(|cs|, i requires 0 <= i < |cs| => MinimalLine(cs[i]))
  }

  /** `generateMinimalASS`: the fixed header, then one dialogue line per cue,
      each line ended by a line feed. */
  function MinimalAss(cs: seq<Cue>): string {
    Terminated(HeaderLines) + Terminated(MinimalLines(cs))
  }

  /** `ASSParser.stringify`: the minimal script unless formatting is to be
      preserved and there is original content; otherwise the original's
      lines, each dialogue line matched in order to a cue and restyled when
      that cue allows it. */
  function Stringify(cs: seq<Cue>, originalContent: string, preserveFormatting: bool): (r: string)
    ensures !preserveFormatting || originalContent == "" ==> StartsWith(r, Terminated(HeaderLines))
    ensures preserveFormatting && originalContent != "" && (forall i :: 0 <= i < |cs| ==> !Restyled(cs[i])) ==> r == originalContent
  {
    if !preserveFormatting || originalContent == "" then
      MinimalHeader(cs);
      MinimalAss(cs)
    else
      var lines := Split(originalContent, '\n');
      if forall i :: 0 <= i < |cs| ==> !Restyled(cs[i]) then
        RewriteKeeps(lines, Kinds(lines), cs, 0);
        Join(Rewrite(lines, Kinds(lines), cs, 0), "\n")
      else Join(Rewrite(lines, Kinds(lines), cs, 0), "\n")
  }

  lemma {:induction false} MinimalHeader(cs: seq<Cue>)
    ensures StartsWith(MinimalAss(cs), Terminated(HeaderLines))
  {
    var h := Terminated(HeaderLines);
    assert MinimalAss(cs)[..|h|] == h;
  }

  /** With no cue to restyle, the rewrite keeps every line. */
  lemma {:induction false} RewriteKeeps(lines: seq<string>, dia: seq<bool>, cs: seq<Cue>, k: nat)
    requires |dia| == |lines|
    requires forall i :: 0 <= i < |cs| ==> !Restyled(cs[i])
    ensures Rewrite(lines, dia, cs, k) == lines
    decreases |lines|
  {
    if |lines| > 0 {
      RewriteKeeps(lines[1..], dia[1..], cs, if dia[0] && k < |cs| then k + 1 else k);
      assert [lines[0]] + lines[1..] == lines;
    }
  }

  /** Cues whose style columns hold no line break. */
  predicate OneLineStyle(c: Cue) {
    c.assStyle.Some? ==> forall j :: 0 <= j < |c.assStyle.value| ==> '\n' !in c.assStyle.value[j]
  }

  /** Preserve mode, line by line: the output has the original's lines, a
      non-dialogue line is kept byte for byte, and the dialogue line with
      `k` dialogue lines before it is replaced by the `k`-th cue's restyled
      line when that cue exists and is restyled, and kept otherwise. */
  lemma {:induction false} PreservedLines(cs: seq<Cue>, originalContent: string)
    requires originalContent != ""
    requires forall k :: 0 <= k < |cs| ==> OneLineStyle(cs[k])
    ensures var lines := Split(originalContent, '\n');
      var out := Split(Stringify(cs, originalContent, true), '\n');
      && |out| == |lines|
      && forall i :: 0 <= i < |lines| ==> out[i] == Rewritten(IsDialogue(lines[i]), lines[i], cs, Rank(Kinds(lines)[..i]))
  {
    var lines := Split(originalContent, '\n');
    var dia := Kinds(lines);
    var out := Rewrite(lines, dia, cs, 0);
    forall i | 0 <= i < |lines|
      ensures out[i] == Rewritten(IsDialogue(lines[i]), lines[i], cs, Rank(dia[..i])) && '\n' !in out[i]
    {
      RewriteAt(lines, dia, cs, 0, i);
      var k := Rank(dia[..i]);
      if dia[i] && k < |cs| && Restyled(cs[k]) {
        RestyledOneLine(cs[k]);
      }
    }
    SplitJoin(out, '\n');
  }

  lemma {:induction false} RestyledOneLine(c: Cue)
    requires c.assStyle.Some? && OneLineStyle(c)
    ensures '\n' !in RestyledLine(c)
  {
    JoinWithout(c.assStyle.value, ",", '\n');
  }

  /** A join of parts free of `c` with a separator free of `c` is free of `c`. */
  lemma {:induction false} JoinWithout(parts: seq<string>, sep: string, c: char)
    requires c !in sep
    requires forall j :: 0 <= j < |parts| ==> c !in parts[j]
    ensures c !in Join(parts, sep)
    decreases |parts|
  {
    if |parts| > 1 {
      JoinWithout(parts[1..], sep, c);
    }
  }

  /** A terminated list of lines is their join with one more, empty, line. */
  lemma {:induction false} TerminatedJoin(lines: seq<string>)
    ensures Terminated(lines) == Join(lines + [""], "\n")
    decreases |lines|
  {
    if |lines| > 0 {
      TerminatedJoin(lines[1..]);
      assert (lines + [""])[1..] == lines[1..] + [""];
    }
  }

  lemma {:induction false} TerminatedConcat(a: seq<string>, b: seq<string>)
    ensures Terminated(a + b) == Terminated(a) + Terminated(b)
    decreases |a|
  {
    if |a| == 0 {
      assert a + b == b;
    } else {
      TerminatedConcat(a[1..], b);
      assert (a + b)[1..] == a[1..] + b;
    }
  }

  /** A shown time holds only digits, `:` and `.`. */
  lemma {:induction false} ShownPlain(c: Centis)
    requires Captured(c)
    ensures '\n' !in Shown(c) && ',' !in Shown(c) && IsTrimmed(Shown(c))
  {
    var t := Shown(c);
    assert forall i :: 0 <= i < |c.h| ==> t[i] == c.h[i];
    assert forall i :: 0 <= i < |c.h| ==> IsDigit(t[i]);
    assert t[|c.h| + 1..] == c.m + ":" + c.s + "." + c.cs;
    assert forall i :: |c.h| <= i < |t| ==> t[i] == ':' || t[i] == '.' || IsDigit(t[i]);
    assert t[|t| - 1] == c.cs[1];
    assert IsDigit(t[0]) && IsDigit(t[|t| - 1]);
  }

  /** The time written for `ms`, as `ShownPlain` describes it. */
  lemma {:induction false} AssTimePlain(ms: nat)
    ensures '\n' !in MsToAssTime(ms) && ',' !in MsToAssTime(ms) && IsTrimmed(MsToAssTime(ms))
  {
    MsCentisCaptured(ms);
    ShownPlain(MsCentis(ms));
  }

  /** The minimal script, as lines: the header's lines, one dialogue line
      per cue in order, and the empty line after the final line feed. */
  lemma {:induction false} MinimalShape(cs: seq<Cue>)
    ensures Split(MinimalAss(cs), '\n') == Split(Join(HeaderLines, "\n"), '\n') + MinimalLines(cs) + [""]
  {
    var ms := MinimalLines(cs);
    forall i | 0 <= i < |ms| ensures '\n' !in ms[i] {
      MinimalOneLine(cs[i]);
    }
    TerminatedSplit(HeaderLines, ms);
  }

  /** Two terminated runs of lines, the second free of line feeds, split
      into the split of the first run's join, the second run, and an empty
      last line. */
  lemma {:induction false} TerminatedSplit(head: seq<string>, lines: seq<string>)
    requires |head| >= 1
    requires forall i :: 0 <= i < |lines| ==> '\n' !in lines[i]
    ensures Split(Terminated(head) + Terminated(lines), '\n') == Split(Join(head, "\n"), '\n') + lines + [""]
  {
    TerminatedJoin(head);
    JoinAppend(head, "", "\n");
    TerminatedJoin(lines);
    var ls := lines + [""];
    assert forall i :: 0 <= i < |ls| ==> '\n' !in ls[i] by {
      assert forall i :: 0 <= i < |lines| ==> ls[i] == lines[i];
    }
    SplitJoin(ls, '\n');
    var h := Join(head, "\n");
    assert Terminated(head) + Terminated(lines) == h + ['\n'] + Join(ls, "\n");
    SplitConcat(h, '\n', Join(ls, "\n"));
  }

  lemma {:induction false} MinimalOneLine(c: Cue)
    ensures '\n' !in MinimalLine(c)
  {
    AssTimePlain(c.startMs);
    AssTimePlain(c.endMs);
    ColumnsOneLine(MsToAssTime(c.startMs), MsToAssTime(c.endMs), Escape(c.text));
  }

  lemma {:induction false} ColumnsOneLine(a: string, b: string, e: string)
    requires '\n' !in a && '\n' !in b && '\n' !in e
    ensures '\n' !in ColumnsLine(a, b, e)
  {
    var xs := DialogueColumns(a, b, e);
    assert forall j :: 0 <= j < |xs| ==> '\n' !in xs[j];
    JoinWithout(xs, ",", '\n');
  }

  /* ------------------------------------------------------- reading back */

  /** The columns of the header's events table as the decoder reads them
      from its `Format:` line: trimmed and lower-cased. */
  const EventFields: seq<string> := ["layer", "start", "end", "style", "name", "marginl", "marginr", "marginv", "effect", "text"]

  /** In the state the decoder is in after that line the text is the
      tenth column, start and end the second and third, and a dialogue line
      is cut into ten fields. */
  lemma EventsColumns()
    ensures Formatted(EventFields) == State(true, Some(EventFields), 9, 1, 2)
    ensures FieldCount(Formatted(EventFields)) == 10
  {
    TextColumn();
    StartColumn();
    EndColumn();
  }

  lemma {:induction false} TextColumn()
    ensures IndexOf(EventFields, "text") == 9
  {
    IndexOfAt(EventFields, "text", 9);
  }
  lemma {:induction false} StartColumn()
    ensures IndexOf(EventFields, "start") == 1
  {
    IndexOfAt(EventFields, "start", 1);
  }

  lemma {:induction false} EndColumn()
    ensures IndexOf(EventFields, "end") == 2
  {
    IndexOfAt(EventFields, "end", 2);
  }

  /** A state laid out as the minimal script's events table. */
  predicate MinimalLayout(st: State) {
    st.inEvents && st.textIndex == 9 && st.startIndex == 1 && st.endIndex == 2 && FieldCount(st) == 10
  }

  /** Escaping keeps the last character when it is not a line break. */
  lemma {:induction false} EscapeLast(t: string)
    requires |t| > 0 && t[|t| - 1] != '\n'
    ensures var e := Escape(t); |e| > 0 && e[|e| - 1] == t[|t| - 1]
    decreases |t|
  {
    var e := ReplaceAll(t[1..], "\n", "\\N");
    if |t| > 1 {
      EscapeLast(t[1..]);
    }
    if t[0] == '\n' {
      assert Escape(t) == "\\N" + e;
    } else {
      assert t[..1] != "\n" by { assert t[..1][0] == t[0]; }
      assert Escape(t) == [t[0]] + e;
    }
  }

  /** The escape of trimmed text is trimmed. */
  lemma {:induction false} EscapeTrimmed(t: string)
    requires IsTrimmed(t)
    ensures IsTrimmed(Escape(t))
  {
    if |t| > 0 {
      EscapeLast(t);
      assert t[..1] != "\n" by { assert t[..1][0] == t[0]; }
      assert Escape(t) == [t[0]] + ReplaceAll(t[1..], "\n", "\\N");
    }
  }

  /** A minimal dialogue line, cut as the decoder cuts it into ten fields:
      its columns, each trimmed, the text whole. */
  lemma {:induction false} ColumnsFields(a: string, b: string, e: string)
    requires ',' !in a && ',' !in b && IsTrimmed(a) && IsTrimmed(b) && IsTrimmed(e)
    ensures var line := ColumnsLine(a, b, e);
      && Trim(line) == line && StartsWith(line, "Dialogue:")
      && SplitDialogueLine(line[9..], 10) == DialogueColumns(a, b, e)
  {
    var line := ColumnsLine(a, b, e);
    ColumnsCut(a, b, e);
    ColumnsTrimmed(a, b, e);
    TrimOfTrimmed(line);
    assert line[9..] == Join(CutColumns(a, b, e), ",");
    CutSplit(a, b, e);
  }

  /** The columns as the text after `Dialogue:` holds them: the first with
      the space that follows the colon. */
  function CutColumns(a: string, b: string, e: string): seq<string> {
    [" 0", a, b, "Default", "", "0", "0", "0", "", e]
  }

  lemma {:induction false} ColumnsCut(a: string, b: string, e: string)
    ensures ColumnsLine(a, b, e) == "Dialogue:" + Join(CutColumns(a, b, e), ",")
    ensures StartsWith(ColumnsLine(a, b, e), "Dialogue:")
  {
    var cols := DialogueColumns(a, b, e);
    var cut := CutColumns(a, b, e);
    assert cut[1..] == cols[1..];
    assert Join(cols, ",") == "0" + "," + Join(cols[1..], ",");
    assert Join(cut, ",") == " 0" + "," + Join(cols[1..], ",");
    var line := ColumnsLine(a, b, e);
    assert line == "Dialogue:" + Join(cut, ",");
    assert line[..9] == "Dialogue:";
  }

  lemma {:induction false} ColumnsTrimmed(a: string, b: string, e: string)
    requires IsTrimmed(e)
    ensures IsTrimmed(ColumnsLine(a, b, e))
  {
    var cols := DialogueColumns(a, b, e);
    var line := ColumnsLine(a, b, e);
    assert line[0] == 'D';
    if e == "" {
      JoinAppend(cols[..9], "", ",");
      assert cols[..9] + [""] == cols;
      assert line[|line| - 1] == ',';
    } else {
      JoinLastChar(cols, ",");
      assert line[|line| - 1] == e[|e| - 1];
    }
  }

  lemma {:induction false} CutSplit(a: string, b: string, e: string)
    requires ',' !in a && ',' !in b && IsTrimmed(a) && IsTrimmed(b) && IsTrimmed(e)
    ensures SplitDialogueLine(Join(CutColumns(a, b, e), ","), 10) == DialogueColumns(a, b, e)
  {
    var cut := CutColumns(a, b, e);
    var xs := cut[..9];
    assert xs + [e] == cut;
    assert forall j :: 0 <= j < |xs| ==> ',' !in xs[j];
    FieldsJoin(xs, e);
    TrimsCut(a, b, e);
  }

  lemma {:induction false} TrimLayer()
    ensures Trim(" 0") == "0"
  {
    assert " 0"[1..] == "0";
  }

  lemma {:induction false} TrimsCut(a: string, b: string, e: string)
    requires IsTrimmed(a) && IsTrimmed(b) && IsTrimmed(e)
    ensures Trims(CutColumns(a, b, e)) == DialogueColumns(a, b, e)
  {
    var cut := CutColumns(a, b, e);
    var cols := DialogueColumns(a, b, e);
    var t := Trims(cut);
    TrimLayer();
    TrimOfTrimmed(a);
    TrimOfTrimmed(b);
    TrimOfTrimmed(e);
    TrimOfTrimmed("Default");
    TrimOfTrimmed("0");
    TrimOfTrimmed("");
    assert t[0] == cols[0] && t[1] == cols[1] && t[2] == cols[2] && t[3] == cols[3] && t[4] == cols[4];
    assert t[5] == cols[5] && t[6] == cols[6] && t[7] == cols[7] && t[8] == cols[8] && t[9] == cols[9];
  }

  /** In the events state a minimal dialogue line yields the cue of its
      columns: times formatted and read from the start and end columns, the
      text column as the raw text, the nine columns before it as the style. */
  lemma {:induction false} ColumnsCue(st: State, a: string, b: string, e: string)
    requires MinimalLayout(st)
    requires ',' !in a && ',' !in b && IsTrimmed(a) && IsTrimmed(b) && IsTrimmed(e) && a != "" && b != ""
    ensures DialogueCue(st, ColumnsLine(a, b, e)) ==
      Some(Cue(Num(0), FormatTime(a), FormatTime(b), TimeToMs(a), TimeToMs(b), CleanText(e),
               None, false, Some(e), Some(DialogueColumns(a, b, e)[..9]), None, None))
  {
    var line := ColumnsLine(a, b, e);
    var cols := DialogueColumns(a, b, e);
    ColumnsFields(a, b, e);
    assert Trim(line) == line && SplitDialogueLine(line[9..], FieldCount(st)) == cols;
    assert FieldOr(cols, st.startIndex) == a && FieldOr(cols, st.endIndex) == b;
    assert cols[9..] == [e] && cols[..st.textIndex] == cols[..9];
    TrimOfTrimmed(e);
    assert Trim(Join(cols[st.textIndex..], ",")) == e;
  }

  /** Read back in the events state, the line written for a cue with
      trimmed text yields a cue whose milliseconds are the original ones
      truncated to centiseconds, whose display times read those
      milliseconds, whose raw text is the escaped text, and whose text is
      the original text when that holds no `{` and no backslash. */
  lemma {:induction false} MinimalLineReads(c: Cue)
    requires IsTrimmed(c.text)
    ensures var r := DialogueCue(Formatted(EventFields), MinimalLine(c));
      && r.Some?
      && r.value.startMs == c.startMs - c.startMs % 10 && r.value.endMs == c.endMs - c.endMs % 10
      && IsClock(r.value.startTime, ',') && ClockMs(r.value.startTime, ',') == r.value.startMs
      && IsClock(r.value.endTime, ',') && ClockMs(r.value.endTime, ',') == r.value.endMs
      && r.value.rawText == Some(Escape(c.text))
      && ('{' !in c.text && '\\' !in c.text ==> r.value.text == c.text)
  {
    var a, b, e := MsToAssTime(c.startMs), MsToAssTime(c.endMs), Escape(c.text);
    AssTimePlain(c.startMs);
    AssTimePlain(c.endMs);
    EscapeTrimmed(c.text);
    AssTimeFound(c.startMs);
    AssTimeFound(c.endMs);
    EventsColumns();
    ColumnsCue(Formatted(EventFields), a, b, e);
    if '{' !in c.text && '\\' !in c.text {
      CleanEscaped(c.text);
    }
  }

  /** The time written for `ms` is found again, reading `ms` to the
      centisecond. */
  lemma {:induction false} AssTimeFound(ms: nat)
    ensures FindCentis(MsToAssTime(ms)).Some? && MsToAssTime(ms) != ""
    ensures TimeToMs(MsToAssTime(ms)) == ms - ms % 10
  {
    MsToAssTimeReads(ms);
    MsCentisCaptured(ms);
    ShownFound(MsCentis(ms), "");
    assert MsToAssTime(ms) + "" == MsToAssTime(ms);
  }
}
