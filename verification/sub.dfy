/** The SUB family codec: one decoder that sniffs between MicroDVD (frame
    numbers in braces), SubViewer (centisecond times) and YouTube SBV
    (millisecond times), and an encoder that writes numbered SRT-style
    blocks whatever was read. */
module Sub {
  import opened Text
  import opened Blocks
  import opened Clock
  import opened Cues
  import opened Layout
  import Srt

  /** The sub-format a file is read as. */
  datatype Flavour = MicroDvd | SubViewer | Sbv

  /* ---------------------------------------------------------- sniffing */

  /** `\{\d+\}` at the start of `s`: the length matched. `\d+` is greedy
      and must be followed by `}`, so only the whole digit run matches. */
  function BracedAt(s: string): (r: Option<nat>)
    ensures r.Some? ==> 3 <= r.value <= |s| && s[0] == '{' && s[r.value - 1] == '}' && AllDigits(s[1..r.value - 1])
  {
    if |s| == 0 || s[0] != '{' then None
    else
      var n := DigitRun(s[1..]);
      if n >= 1 && |s| > n + 1 && s[n + 1] == '}' then
        assert s[1..n + 1] == s[1..][..n];
        Some(n + 2)
      else None
  }

  /** `^\{(\d+)\}\{(\d+)\}` on a line: the two frame numbers and the
      length of the match. */
  function FramePair(line: string): (r: Option<(nat, nat, nat)>)
    ensures r.Some? ==> r.value.2 <= |line|
  {
    match BracedAt(line)
    case None => None
    case Some(i) =>
      match BracedAt(line[i..])
      case None => None
      case Some(j) =>
        assert line[i..][1..j - 1] == line[i + 1..i + j - 1];
        Some((DigitsValue(line[1..i - 1]), DigitsValue(line[i + 1..i + j - 1]), i + j))
  }

  /** `\d{2}:\d{2}:\d{2}\.\d{2}` at the start of `s`: a SubViewer time. */
  predicate CentiClockAt(s: string) {
    && |s| >= 11
    && IsDigit(s[0]) && IsDigit(s[1]) && s[2] == ':'
    && IsDigit(s[3]) && IsDigit(s[4]) && s[5] == ':'
    && IsDigit(s[6]) && IsDigit(s[7]) && s[8] == '.'
    && IsDigit(s[9]) && IsDigit(s[10])
  }

  /** Exactly one SubViewer time. */
  predicate IsCentiClock(t: string) {
    |t| == 11 && CentiClockAt(t)
  }

  /** Two SubViewer times separated by a comma, at the start of `s`. */
  predicate CentiPairAt(s: string) {
    |s| >= 23 && CentiClockAt(s) && s[11] == ',' && CentiClockAt(s[12..])
  }

  /** The lines of the trimmed content, as the sniffer and the MicroDVD
      reader see them. */
  function Lines(content: string): (r: seq<string>)
    ensures |r| >= 1
  {
    Split(Trim(content), '\n')
  }

  /** `SUBParser.parse`'s choice, in order: MicroDVD when the first line
      opens with two braced frame numbers; otherwise SubViewer when the
      content holds `[INFORMATION]` or some line opens with a SubViewer
      timing pair; otherwise SBV. */
  function Sniff(content: string): (f: Flavour)
    ensures f == MicroDvd <==> FramePair(Lines(content)[0]).Some?
    ensures f == Sbv <==>
      (&& FramePair(Lines(content)[0]).None? && !Contains(content, "[INFORMATION]")
       && forall i :: 0 <= i < |Lines(content)| ==> !CentiPairAt(Lines(content)[i]))
  {
    var lines := Lines(content);
    if FramePair(lines[0]).Some? then MicroDvd
    else if Contains(content, "[INFORMATION]") || exists i :: 0 <= i < |lines| && CentiPairAt(lines[i]) then SubViewer
    else Sbv
  }

  /* ------------------------------------------------------------ times */

  /** `SUBParser.msToTime`. */
  function MsToTime(ms: nat): (r: string)
    ensures IsClock(r, ',') && TimeToMs(r) == ms
    ensures ms < 360000000 ==> IsSrtTime(r)
  {
    MsToClockReads(ms);
    MsToClock(ms)
  }

  /** `SUBParser.timeToMs` on the times its callers pass: hours, minutes and
      the rest split on `:`, the rest split on `,`. */
  function TimeToMs(t: string): (ms: nat)
    requires IsClock(t, ',')
  {
    ClockMs(t, ',')
  }

  /** `SUBParser.subViewerTimeToMs`: as `timeToMs`, the last field counting
      hundredths. */
  function SubViewerTimeToMs(t: string): (ms: nat)
    requires IsCentiClock(t)
    ensures ms == DigitsValue(t[0..2]) * 3600000 + DigitsValue(t[3..5]) * 60000 + DigitsValue(t[6..8]) * 1000 + DigitsValue(t[9..11]) * 10
    ensures ms % 10 == 0
  {
    var cs := DigitsValue(t[9..11]);
    assert FieldsMs(DigitsValue(t[0..2]), DigitsValue(t[3..5]), DigitsValue(t[6..8]), cs * 10)
      == (DigitsValue(t[0..2]) * 360000 + DigitsValue(t[3..5]) * 6000 + DigitsValue(t[6..8]) * 100 + cs) * 10;
    FieldsMs(DigitsValue(t[0..2]), DigitsValue(t[3..5]), DigitsValue(t[6..8]), cs * 10)
  }

  /** The display form of a SubViewer time: its dot turned into a comma and
      a `0` appended, making hundredths into milliseconds. */
  function DisplayTime(t: string): (r: string)
    requires IsCentiClock(t)
    ensures IsSrtTime(r) && r[11] == '0'
    ensures Clock12Ms(r) == SubViewerTimeToMs(t)
    ensures IsClock(r, ',') && ClockMs(r, ',') == SubViewerTimeToMs(t)
  {
    DisplayReads(t);
    Clock12IsClock(ReplaceFirst(t, '.', ',') + "0", ',');
    ReplaceFirst(t, '.', ',') + "0"
  }

  lemma {:induction false} DisplayReads(t: string)
    requires IsCentiClock(t)
    ensures var r := ReplaceFirst(t, '.', ',') + "0";
      IsSrtTime(r) && r[11] == '0' && Clock12Ms(r) == SubViewerTimeToMs(t)
  {
    assert '.' !in t[..8] by { assert forall i :: 0 <= i < 8 ==> t[..8][i] == t[i]; }
    ReplaceFirstAt(t, 8, '.', ',');
    var r := ReplaceFirst(t, '.', ',') + "0";
    assert r[0..2] == t[0..2] && r[3..5] == t[3..5] && r[6..8] == t[6..8];
    assert r[9..12] == t[9..11] + "0";
    DigitsSnocZero(t[9..11]);
  }

  /** A `0` appended to a digit string multiplies its value by ten. */
  lemma {:induction false} DigitsSnocZero(d: string)
    requires AllDigits(d)
    ensures AllDigits(d + "0") && DigitsValue(d + "0") == DigitsValue(d) * 10
  {
    assert (d + "0")[..|d|] == d;
  }

  /** `\d+:\d{2}:\d{2}\.\d{3}` at the start of `s`: the length matched, 0
      when there is none. */
  function SbvTimeLen(s: string): (n: nat)
    ensures n == 0 || (n >= 11 && n <= |s|)
  {
    var i := DigitRun(s);
    if && i >= 1 && |s| >= i + 10
       && s[i] == ':' && IsDigit(s[i + 1]) && IsDigit(s[i + 2])
       && s[i + 3] == ':' && IsDigit(s[i + 4]) && IsDigit(s[i + 5])
       && s[i + 6] == '.' && IsDigit(s[i + 7]) && IsDigit(s[i + 8]) && IsDigit(s[i + 9])
    then i + 10
    else 0
  }

  /** Exactly one SBV time. */
  predicate IsSbvTime(t: string) {
    |t| > 0 && SbvTimeLen(t) == |t|
  }

  /** `SUBParser.normalizeSBVTime`: a time of three `:`-separated fields is
      rewritten with its hours padded to two digits and the seconds' dot
      made a comma (an absent dot leaves `undefined` in its place); any
      other string is returned as it is. */
  function NormalizeSbvTime(t: string): (r: string)
  {
    var parts := Split(t, ':');
    if |parts| == 3 then
      var sm := Split(parts[2], '.');
      PadStart(parts[0], 2, '0') + ":" + parts[1] + ":" + sm[0] + "," + (if |sm| >= 2 then sm[1] else "undefined")
    else t
  }

  /** Milliseconds of an SBV time, read field by field. */
  function SbvMs(t: string): nat
    requires IsSbvTime(t)
  {
    var i := DigitRun(t);
    SbvFields(t);
    FieldsMs(DigitsValue(t[..i]), DigitsValue(t[i + 1..i + 3]), DigitsValue(t[i + 4..i + 6]), DigitsValue(t[i + 7..i + 10]))
  }

  /** An SBV time is its fields rendered with a dot. */
  lemma {:induction false} SbvFields(t: string)
    requires IsSbvTime(t)
    ensures var i := DigitRun(t);
      && AllDigits(t[..i]) && |t[..i]| >= 1
      && AllDigits(t[i + 1..i + 3]) && AllDigits(t[i + 4..i + 6]) && AllDigits(t[i + 7..i + 10])
      && t == Render(t[..i], t[i + 1..i + 3], t[i + 4..i + 6], '.', t[i + 7..i + 10])
  {
    var i := DigitRun(t);
    assert |t| == i + 10;
    assert t[i + 1..i + 3] == [t[i + 1], t[i + 2]];
    assert t[i + 4..i + 6] == [t[i + 4], t[i + 5]];
    assert t[i + 7..i + 10] == [t[i + 7], t[i + 8], t[i + 9]];
  }

  /** An SBV time normalises to a comma clock with hours of at least two
      digits that reads the same milliseconds. */
  lemma {:induction false} NormalizedSbv(t: string)
    requires IsSbvTime(t)
    ensures var r := NormalizeSbvTime(t);
      IsClock(r, ',') && ClockMs(r, ',') == SbvMs(t) && DigitRun(r) >= 2
  {
    var i := DigitRun(t);
    SbvFields(t);
    NormalizeFields(t[..i], t[i + 1..i + 3], t[i + 4..i + 6], t[i + 7..i + 10]);
  }

  /** Normalising rendered fields pads the hours and swaps the separator. */
  lemma {:induction false} NormalizeFields(h: string, m: string, s: string, f: string)
    requires AllDigits(h) && AllDigits(m) && AllDigits(s) && AllDigits(f)
    requires |h| >= 1 && |m| == 2 && |s| == 2 && |f| == 3
    ensures var r := NormalizeSbvTime(Render(h, m, s, '.', f));
      && IsClock(r, ',') && DigitRun(r) >= 2
      && ClockMs(r, ',') == FieldsMs(DigitsValue(h), DigitsValue(m), DigitsValue(s), DigitsValue(f))
  {
    NormalizeRender(h, m, s, f);
    var ph := PadStart(h, 2, '0');
    PadHours(h);
    RenderIsClock(ph, m, s, ',', f);
    RenderDigitRun(ph, m, s, ',', f);
  }

  /** Normalising pads the hours of rendered fields and swaps the separator. */
  lemma {:induction false} NormalizeRender(h: string, m: string, s: string, f: string)
    requires AllDigits(h) && AllDigits(m) && AllDigits(s) && AllDigits(f)
    ensures NormalizeSbvTime(Render(h, m, s, '.', f)) == Render(PadStart(h, 2, '0'), m, s, ',', f)
  {
    RenderSplit(h, m, s, f);
  }

  /** Hours padded with zeros keep their digits and value. */
  lemma {:induction false} PadHours(h: string)
    requires AllDigits(h) && |h| >= 1
    ensures var ph := PadStart(h, 2, '0'); AllDigits(ph) && |ph| >= 2 && DigitsValue(ph) == DigitsValue(h)
  {
    var ph := PadStart(h, 2, '0');
    if ph != h {
      PadOne(h);
      LeadingZeros("0", h);
    }
  }

  /** A one-digit hour is padded with a single zero. */
  lemma {:induction false} PadOne(h: string)
    requires |h| >= 1 && PadStart(h, 2, '0') != h
    ensures PadStart(h, 2, '0') == "0" + h
  {
  }

  /** Rendered digit fields split back into hours, minutes and
      seconds-with-fraction on `:`, and the last into seconds and fraction
      on `.`. */
  lemma {:induction false} RenderSplit(h: string, m: string, s: string, f: string)
    requires AllDigits(h) && AllDigits(m) && AllDigits(s) && AllDigits(f)
    ensures Split(Render(h, m, s, '.', f), ':') == [h, m, s + "." + f]
    ensures Split(s + "." + f, '.') == [s, f]
  {
    DigitsFree(h, ':');
    DigitsFree(m, ':');
    DigitsFree(s, ':');
    DigitsFree(f, ':');
    DigitsFree(s, '.');
    DigitsFree(f, '.');
    var rest := s + "." + f;
    assert ':' !in rest by { assert forall k :: 0 <= k < |rest| ==> rest[k] == (if k < |s| then s[k] else if k == |s| then '.' else f[k - |s| - 1]); }
    assert Render(h, m, s, '.', f) == h + [':'] + (m + [':'] + rest);
    SplitAtFirst(h, ':', m + [':'] + rest);
    SplitAtFirst(m, ':', rest);
    SplitNoSeparator(rest, ':');
    assert rest == s + ['.'] + f;
    SplitAtFirst(s, '.', f);
    SplitNoSeparator(f, '.');
  }

  /** A digit string holds no punctuation. */
  lemma {:induction false} DigitsFree(d: string, c: char)
    requires AllDigits(d) && !IsDigit(c)
    ensures c !in d
  {
    assert forall k :: 0 <= k < |d| ==> IsDigit(d[k]);
  }

  /* ---------------------------------------------------------- MicroDVD */

  /** `Math.round(frame / 23.976 * 1000)` in exact arithmetic: the frame
      count times 125000/2997, rounded half up. */
  function FrameMs(frame: nat): (ms: nat)
  {
    (frame * 250000 + 2997) / 5994
  }

  /** The rounded value is the integer nearest to `frame * 1000 / 23.976`:
      within half a millisecond, never exactly half (so the direction of
      rounding ties never matters), and it never decreases. */
  lemma {:induction false} FrameMsNearest(frame: nat)
    ensures -2997 < FrameMs(frame) * 5994 - frame * 250000 < 2997
    ensures FrameMs(frame) <= FrameMs(frame + 1)
  {
    var q := FrameMs(frame);
    var n := frame * 250000 + 2997;
    assert q * 5994 <= n < q * 5994 + 5994;
    assert q * 5994 - frame * 250000 != 2997 by {
      assert (q * 5994 - frame * 250000) % 2 == 0 by {
        assert q * 5994 - frame * 250000 == 2 * (q * 2997 - frame * 125000);
      }
    }
  }

  /** Frame 100 is 4171 milliseconds (4170.8 rounded). */
  lemma FrameHundred()
    ensures FrameMs(100) == 4171
  {
  }

  /** A character JavaScript's `.` does not match. */
  predicate LineBreak(c: char) {
    c == '\n' || c == '\r' || c == '\U{2028}' || c == '\U{2029}'
  }

  /** The cue one MicroDVD line yields, its id still unset:
      `^\{(\d+)\}\{(\d+)\}(.+)$` with a non-empty text running to the end of
      the line, `|` turned into line breaks, times from the frames. */
  function MicroDvdCue(line: string): (r: Option<Cue>)
    ensures r.Some? ==> FramePair(line).Some? && r.value.id == Num(0)
    ensures r.Some? ==> var c := r.value;
      && c.startFrame == Some(FramePair(line).value.0) && c.endFrame == Some(FramePair(line).value.1)
      && c.startMs == FrameMs(c.startFrame.value) && c.endMs == FrameMs(c.endFrame.value)
      && IsClock(c.startTime, ',') && TimeToMs(c.startTime) == c.startMs
      && IsClock(c.endTime, ',') && TimeToMs(c.endTime) == c.endMs
      && '|' !in c.text && c.originalText.None? && !c.error && c.rawText.None? && c.assStyle.None?
    ensures r.Some? <==>
      (FramePair(line).Some? && var k := FramePair(line).value.2; k < |line| && forall i :: k <= i < |line| ==> !LineBreak(line[i]))
  {
    match FramePair(line)
    case None => None
    case Some((a, b, k)) =>
      var text := line[k..];
      if text == [] || exists i :: 0 <= i < |text| && LineBreak(text[i]) then None
      else
        var t := ReplaceAll(text, "|", "\n");
        PipesReplaced(text);
        Some(Cue(Num(0), MsToTime(FrameMs(a)), MsToTime(FrameMs(b)), FrameMs(a), FrameMs(b), t,
                 None, false, None, None, Some(a), Some(b)))
  }

  /** No `|` survives the replacement. */
  lemma {:induction false} PipesReplaced(s: string)
    ensures '|' !in ReplaceAll(s, "|", "\n")
    decreases |s|
  {
    if |s| >= 1 {
      PipesReplaced(s[1..]);
    }
  }

  /** What each line yields. */
  function MicroDvdLines(lines: seq<string>): (r: seq<Option<Cue>>)
    ensures |r| == |lines|
    ensures forall i :: 0 <= i < |lines| ==> r[i] == MicroDvdCue(lines[i])
  {
    seq(|lines|, i requires 0 <= i < |lines| => MicroDvdCue(lines[i]))
  }

  /** `SUBParser.parseMicroDVD`: the cues of the matching lines, numbered
      1..n in order. */
  function ParseMicroDvd(lines: seq<string>): (r: seq<Cue>)
    ensures Pushed(r, MicroDvdLines(lines))
    ensures forall j :: 0 <= j < |r| ==> r[j].id == Num(j + 1)
  {
    var os := MicroDvdLines(lines);
    NumberedByPosition(os);
    CollectPushed(os);
    Collect(os)
  }

  /** The braced decimal form of a frame number. */
  function Braced(frame: nat): string {
    "{" + NatToString(frame) + "}"
  }

  lemma {:induction false} BracedReads(frame: nat, rest: string)
    ensures BracedAt(Braced(frame) + rest) == Some(|Braced(frame)|)
    ensures var s := Braced(frame) + rest; DigitsValue(s[1..|Braced(frame)| - 1]) == frame
  {
    var d := NatToString(frame);
    var s := Braced(frame) + rest;
    assert s[1..] == d + ("}" + rest);
    DigitRunPrefix(d, "}" + rest);
    assert s[1..|d| + 1] == d;
  }

  /** Two braced frame numbers at the start of a line are matched whole. */
  lemma {:induction false} FramePairReads(a: nat, b: nat, text: string)
    ensures FramePair(Braced(a) + Braced(b) + text) == Some((a, b, |Braced(a)| + |Braced(b)|))
  {
    var x, y := Braced(a), Braced(b);
    var line := x + y + text;
    assert line == x + (y + text) && line[|x|..] == y + text;
    BracedReads(a, y + text);
    BracedReads(b, text);
    FramePairOf(line, |x|, |y|, a, b);
  }

  /** The pair matched from its two braced parts. */
  lemma {:induction false} FramePairOf(line: string, i: nat, j: nat, a: nat, b: nat)
    requires i <= |line| && BracedAt(line) == Some(i) && BracedAt(line[i..]) == Some(j)
    requires DigitsValue(line[1..i - 1]) == a && DigitsValue(line[i..][1..j - 1]) == b
    ensures FramePair(line) == Some((a, b, i + j))
  {
    assert line[i..][1..j - 1] == line[i + 1..i + j - 1];
  }

  /** A line written as two braced frame numbers and a text without line
      breaks yields a cue with those frames, their rounded milliseconds, and
      the text with `|` turned into line breaks. */
  lemma {:induction false} MicroDvdReads(a: nat, b: nat, text: string)
    requires text != [] && forall i :: 0 <= i < |text| ==> !LineBreak(text[i])
    ensures var r := MicroDvdCue(Braced(a) + Braced(b) + text);
      && r.Some? && r.value.startFrame == Some(a) && r.value.endFrame == Some(b)
      && r.value.startMs == FrameMs(a) && r.value.endMs == FrameMs(b)
      && r.value.text == ReplaceAll(text, "|", "\n")
  {
    FramePairReads(a, b, text);
    var line := Braced(a) + Braced(b) + text;
    assert line[|Braced(a)| + |Braced(b)|..] == text;
  }

  /* --------------------------------------------------------- SubViewer */

  /** The first SubViewer timing pair of a line, scanning left to right:
      its two times. */
  function FindCentiPair(s: string): (r: Option<(string, string)>)
    ensures r.Some? ==> IsCentiClock(r.value.0) && IsCentiClock(r.value.1)
    decreases |s|
  {
    if CentiPairAt(s) then
      assert forall k :: 0 <= k < 11 ==> s[12..][k] == s[12 + k];
      Some((s[..11], s[12..23]))
    else if |s| == 0 then None
    else FindCentiPair(s[1..])
  }

  /** `[br]` in any letter case, at the start of `s`. */
  predicate BrAt(s: string) {
    |s| >= 4 && s[0] == '[' && (s[1] == 'b' || s[1] == 'B') && (s[2] == 'r' || s[2] == 'R') && s[3] == ']'
  }

  /** `replace(/\[br\]/gi, '\n')`. */
  function ReplaceBr(s: string): (r: string)
    ensures |r| <= |s|
    ensures '[' !in s ==> r == s
    decreases |s|
  {
    if |s| == 0 then s
    else if BrAt(s) then "\n" + ReplaceBr(s[4..])
    else [s[0]] + ReplaceBr(s[1..])
  }

  /** Replacing leaves no `[br]` behind: the line breaks put in cannot
      complete a new one. */
  lemma {:induction false} ReplaceBrComplete(s: string)
    ensures forall p :: 0 <= p < |ReplaceBr(s)| ==> !BrAt(ReplaceBr(s)[p..])
    decreases |s|
  {
    if |s| > 0 {
      var r := ReplaceBr(s);
      if BrAt(s) {
        ReplaceBrComplete(s[4..]);
        assert forall p :: 1 <= p < |r| ==> r[p..] == ReplaceBr(s[4..])[p - 1..];
      } else {
        ReplaceBrComplete(s[1..]);
        assert forall p :: 1 <= p < |r| ==> r[p..] == ReplaceBr(s[1..])[p - 1..];
        BrKept(s);
      }
    }
  }

  /** When `s` does not start with `[br]`, neither does its replacement:
      each of the first characters is either kept or a line break. */
  lemma {:induction false} BrKept(s: string)
    requires |s| > 0 && !BrAt(s)
    ensures !BrAt(ReplaceBr(s))
  {
    var r := ReplaceBr(s);
    if |r| >= 4 && r[0] == '[' && (r[1] == 'b' || r[1] == 'B') && (r[2] == 'r' || r[2] == 'R') {
      Head(s);
      var t := s[1..];
      Head(t);
      Head(t[1..]);
      Head(t[2..]);
      assert r[3] != ']';
    }
  }

  /** The first character of a replacement, and what follows it. */
  lemma {:induction false} Head(s: string)
    requires |s| > 0
    ensures |ReplaceBr(s)| > 0
    ensures ReplaceBr(s)[0] == if BrAt(s) then '\n' else s[0]
    ensures !BrAt(s) ==> ReplaceBr(s)[1..] == ReplaceBr(s[1..])
  {
  }

  /** Text without `[` passes through the replacement unchanged, and the
      rest is replaced on its own. */
  lemma {:induction false} BrPlain(a: string, b: string)
    requires '[' !in a
    ensures ReplaceBr(a + b) == a + ReplaceBr(b)
    decreases |a|
  {
    if |a| > 0 {
      var s := a + b;
      assert s[0] == a[0] && !BrAt(s);
      assert ReplaceBr(s) == [a[0]] + ReplaceBr(s[1..]);
      assert s[1..] == a[1..] + b;
      BrPlain(a[1..], b);
      assert [a[0]] + a[1..] == a;
    } else {
      assert a + b == b;
    }
  }

  /** A `[br]`, in any letter case, becomes one line break. */
  lemma {:induction false} BrReplaced(x: string, b: string)
    requires |x| == 4 && BrAt(x)
    ensures ReplaceBr(x + b) == "\n" + ReplaceBr(b)
  {
    assert (x + b)[4..] == b;
  }

  /** Text holding no `[br]` anywhere comes back unchanged. */
  lemma {:induction false} BrFree(s: string)
    requires forall p :: 0 <= p < |s| ==> !BrAt(s[p..])
    ensures ReplaceBr(s) == s
    decreases |s|
  {
    if |s| > 0 {
      assert forall p :: 0 <= p < |s| - 1 ==> s[1..][p..] == s[p + 1..];
      BrFree(s[1..]);
      assert !BrAt(s[0..]);
      assert [s[0]] + s[1..] == s;
    }
  }

  /** The cue one SubViewer block yields, its id still unset: the first
      timing pair on its first line; the text is the remaining lines, `[br]`
      made a line break, and may be empty. */
  function SubViewerCue(block: string): (r: Option<Cue>)
    ensures r.Some? ==> r.value.id == Num(0) && IsSrtTime(r.value.startTime) && IsSrtTime(r.value.endTime)
    ensures r.Some? ==> Clock12Ms(r.value.startTime) == r.value.startMs && Clock12Ms(r.value.endTime) == r.value.endMs
    ensures r.Some? ==> IsClock(r.value.startTime, ',') && ClockMs(r.value.startTime, ',') == r.value.startMs
    ensures r.Some? ==> IsClock(r.value.endTime, ',') && ClockMs(r.value.endTime, ',') == r.value.endMs
    ensures r.Some? <==> FindCentiPair(Split(Trim(block), '\n')[0]).Some?
    ensures r.Some? ==>
      var lines := Split(Trim(block), '\n');
      var m := FindCentiPair(lines[0]).value;
      && r.value.startTime == DisplayTime(m.0) && r.value.endTime == DisplayTime(m.1)
      && r.value.startMs == SubViewerTimeToMs(m.0) && r.value.endMs == SubViewerTimeToMs(m.1)
      && r.value.text == ReplaceBr(Join(lines[1..], "\n"))
  {
    var lines := Split(Trim(block), '\n');
    match FindCentiPair(lines[0])
    case None => None
    case Some((st, et)) =>
      Some(Plain(Num(0), DisplayTime(st), DisplayTime(et), SubViewerTimeToMs(st), SubViewerTimeToMs(et),
                 ReplaceBr(Join(lines[1..], "\n"))))
  }

  function SubViewerBlocks(blocks: seq<string>): (r: seq<Option<Cue>>)
    ensures |r| == |blocks|
    ensures forall i :: 0 <= i < |blocks| ==> r[i] == SubViewerCue(blocks[i])
  {
    seq(|blocks|, i requires 0 <= i < |blocks| => SubViewerCue(blocks[i]))
  }

  /** `SUBParser.parseSubViewer`: the untrimmed content split on blank
      lines, the cues of the timed blocks numbered 1..n in order. */
  function ParseSubViewer(content: string): (r: seq<Cue>)
    ensures Pushed(r, SubViewerBlocks(SplitBlank(content)))
    ensures forall j :: 0 <= j < |r| ==> r[j].id == Num(j + 1)
  {
    var os := SubViewerBlocks(SplitBlank(content));
    NumberedByPosition(os);
    CollectPushed(os);
    Collect(os)
  }

  /** A block of only a timing line is kept, with empty text. */
  lemma {:induction false} SubViewerKeepsEmpty(block: string)
    requires |Split(Trim(block), '\n')| == 1 && FindCentiPair(Split(Trim(block), '\n')[0]).Some?
    ensures SubViewerCue(block).Some? && SubViewerCue(block).value.text == ""
  {
    var lines := Split(Trim(block), '\n');
    assert lines[1..] == [];
  }

  /** Two SubViewer times joined by a comma are matched as that pair, and
      form one trimmed line. */
  lemma {:induction false} CentiPairOf(a: string, b: string)
    requires IsCentiClock(a) && IsCentiClock(b)
    ensures var head := a + "," + b;
      FindCentiPair(head) == Some((a, b)) && IsTrimmed(head) && |head| > 0 && '\n' !in head
  {
    var head := a + "," + b;
    assert forall k :: 0 <= k < 11 ==> head[k] == a[k] && head[12 + k] == b[k];
    assert head[11] == ',' && head[12..] == b;
    assert CentiPairAt(head);
    assert head[..11] == a && head[12..23] == b;
    assert '\n' !in head by {
      forall k | 0 <= k < |head| ensures head[k] != '\n' {
        if k < 11 { assert head[k] == a[k]; } else if k > 11 { assert head[k] == b[k - 12]; }
      }
    }
  }

  /** A written SubViewer block, a timing pair then the text, is read back
      as that pair's display times and milliseconds, with `[br]` in the text
      made a line break. */
  lemma {:induction false} SubViewerReads(a: string, b: string, t: string)
    requires IsCentiClock(a) && IsCentiClock(b) && IsTrimmed(t)
    ensures SubViewerCue(a + "," + b + "\n" + t)
      == Some(Plain(Num(0), DisplayTime(a), DisplayTime(b), SubViewerTimeToMs(a), SubViewerTimeToMs(b), ReplaceBr(t)))
  {
    var head := a + "," + b;
    assert a + "," + b + "\n" + t == head + "\n" + t;
    CentiPairOf(a, b);
    HeadLine(head, t);
  }

  /* --------------------------------------------------------------- SBV */

  /** The SBV timing pattern at the start of `s`: the two times. The hours'
      `\d+` can only match a whole digit run, as it must be followed by
      `:`. */
  function SbvPairAt(s: string): (r: Option<(string, string)>)
    ensures r.Some? ==> IsSbvTime(r.value.0) && IsSbvTime(r.value.1)
  {
    var n := SbvTimeLen(s);
    if n == 0 || |s| <= n || s[n] != ',' then None
    else
      var k := SbvTimeLen(s[n + 1..]);
      if k == 0 then None
      else
        SbvTimePrefix(s, n);
        SbvTimePrefix(s[n + 1..], k);
        Some((s[..n], s[n + 1..][..k]))
  }

  /** A matched time matches on its own. */
  lemma {:induction false} SbvTimePrefix(s: string, n: nat)
    requires n == SbvTimeLen(s) && n > 0
    ensures IsSbvTime(s[..n])
  {
    var t := s[..n];
    var i := DigitRun(s);
    assert t[..i] == s[..i];
    assert forall k :: 0 <= k < n ==> t[k] == s[k];
    if i < n {
      assert !IsDigit(t[i]);
    }
    DigitRunPrefix(s[..i], t[i..]);
    assert t == s[..i] + t[i..];
  }

  /** The first SBV timing pair of a line, scanning left to right. */
  function FindSbvPair(s: string): (r: Option<(string, string)>)
    ensures r.Some? ==> IsSbvTime(r.value.0) && IsSbvTime(r.value.1)
    decreases |s|
  {
    match SbvPairAt(s)
    case Some(m) => Some(m)
    case None => if |s| == 0 then None else FindSbvPair(s[1..])
  }

  /** The cue one SBV block yields, its id still unset: the first timing
      pair on its first line, normalised; the text is the remaining lines
      and may be empty. */
  function SbvCue(block: string): (r: Option<Cue>)
    ensures r.Some? ==> r.value.id == Num(0)
    ensures r.Some? ==> IsClock(r.value.startTime, ',') && TimeToMs(r.value.startTime) == r.value.startMs
    ensures r.Some? ==> IsClock(r.value.endTime, ',') && TimeToMs(r.value.endTime) == r.value.endMs
    ensures r.Some? <==> FindSbvPair(Split(Trim(block), '\n')[0]).Some?
    ensures r.Some? ==>
      var lines := Split(Trim(block), '\n');
      var m := FindSbvPair(lines[0]).value;
      && r.value.startTime == NormalizeSbvTime(m.0) && r.value.endTime == NormalizeSbvTime(m.1)
      && r.value.text == Join(lines[1..], "\n")
  {
    var lines := Split(Trim(block), '\n');
    match FindSbvPair(lines[0])
    case None => None
    case Some((a, b)) =>
      NormalizedSbv(a);
      NormalizedSbv(b);
      var st := NormalizeSbvTime(a);
      var et := NormalizeSbvTime(b);
      Some(Plain(Num(0), st, et, TimeToMs(st), TimeToMs(et), Join(lines[1..], "\n")))
  }

  function SbvBlocks(blocks: seq<string>): (r: seq<Option<Cue>>)
    ensures |r| == |blocks|
    ensures forall i :: 0 <= i < |blocks| ==> r[i] == SbvCue(blocks[i])
  {
    seq(|blocks|, i requires 0 <= i < |blocks| => SbvCue(blocks[i]))
  }

  /** `SUBParser.parseSBV`: the trimmed content split on blank lines, the
      cues of the timed blocks numbered 1..n in order. */
  function ParseSbv(content: string): (r: seq<Cue>)
    ensures Pushed(r, SbvBlocks(SplitBlank(Trim(content))))
    ensures forall j :: 0 <= j < |r| ==> r[j].id == Num(j + 1)
  {
    var os := SbvBlocks(SplitBlank(Trim(content)));
    NumberedByPosition(os);
    CollectPushed(os);
    Collect(os)
  }

  /** A reader whose cues all leave the id unset numbers them 1..n. */
  lemma NumberedByPosition(os: seq<Option<Cue>>)
    requires forall i :: 0 <= i < |os| && os[i].Some? ==> os[i].value.id == Num(0)
    ensures forall j :: 0 <= j < |Collect(os)| ==> Collect(os)[j].id == Num(j + 1)
  {
    SomesPicks(os);
    forall j | 0 <= j < |Collect(os)| ensures Collect(os)[j].id == Num(j + 1) {
      assert os[Yielding(os)[j]].value.id == Num(0);
    }
  }

  /** The milliseconds SBV stores are those of the time as matched. */
  lemma {:induction false} SbvCueMs(block: string)
    requires FindSbvPair(Split(Trim(block), '\n')[0]).Some?
    ensures var m := FindSbvPair(Split(Trim(block), '\n')[0]).value;
      SbvCue(block).value.startMs == SbvMs(m.0) && SbvCue(block).value.endMs == SbvMs(m.1)
  {
    var m := FindSbvPair(Split(Trim(block), '\n')[0]).value;
    NormalizedSbv(m.0);
    NormalizedSbv(m.1);
  }

  /** An SBV time followed by a non-digit is matched whole. */
  lemma {:induction false} SbvTimeBefore(a: string, rest: string)
    requires IsSbvTime(a) && |rest| > 0 && !IsDigit(rest[0])
    ensures SbvTimeLen(a + rest) == |a|
  {
    var i := DigitRun(a);
    var s := a + rest;
    assert a == a[..i] + a[i..];
    assert s == a[..i] + (a[i..] + rest);
    DigitRunPrefix(a[..i], a[i..] + rest);
    assert forall k :: 0 <= k < |a| ==> s[k] == a[k];
  }

  /** An SBV time holds no line feed. */
  lemma {:induction false} SbvTimeOneLine(a: string)
    requires IsSbvTime(a)
    ensures '\n' !in a && IsDigit(a[0])
  {
    var i := DigitRun(a);
    forall k | 0 <= k < |a| ensures a[k] != '\n' {
      if k < i { assert a[..i][k] == a[k]; }
    }
    assert a[..i][0] == a[0];
  }

  /** Two SBV times joined by a comma match the anchored pattern as that
      pair. */
  lemma {:induction false} SbvPairAtJoined(a: string, b: string)
    requires IsSbvTime(a) && IsSbvTime(b)
    ensures SbvPairAt(a + "," + b) == Some((a, b))
  {
    var head := a + ("," + b);
    assert a + "," + b == head;
    SbvTimeBefore(a, "," + b);
    var n := |a|;
    assert SbvTimeLen(head) == n && head[n] == ',';
    assert head[n + 1..] == b;
    assert SbvTimeLen(head[n + 1..]) == |b|;
    assert head[..n] == a && head[n + 1..][..|b|] == b;
  }

  /** Two SBV times joined by a comma form one trimmed line. */
  lemma {:induction false} SbvJoinedLine(a: string, b: string)
    requires IsSbvTime(a) && IsSbvTime(b)
    ensures var head := a + "," + b; IsTrimmed(head) && |head| > 0 && '\n' !in head
  {
    var head := a + "," + b;
    SbvTimeOneLine(a);
    SbvTimeOneLine(b);
    forall k | 0 <= k < |head| ensures head[k] != '\n' {
      if k < |a| { assert head[k] == a[k]; } else if k > |a| { assert head[k] == b[k - |a| - 1]; }
    }
    assert head[0] == a[0] && head[|head| - 1] == b[|b| - 1];
  }

  /** Two SBV times joined by a comma are matched as that pair, and form
      one trimmed line. */
  lemma {:induction false} SbvPairOf(a: string, b: string)
    requires IsSbvTime(a) && IsSbvTime(b)
    ensures var head := a + "," + b;
      FindSbvPair(head) == Some((a, b)) && IsTrimmed(head) && |head| > 0 && '\n' !in head
  {
    SbvPairAtJoined(a, b);
    SbvJoinedLine(a, b);
  }

  /** A written SBV block, a timing pair then the text, is read back as the
      pair's normalised times, their milliseconds and the text. */
  lemma {:induction false} SbvReads(a: string, b: string, t: string)
    requires IsSbvTime(a) && IsSbvTime(b) && IsTrimmed(t)
    ensures SbvCue(a + "," + b + "\n" + t)
      == Some(Plain(Num(0), NormalizeSbvTime(a), NormalizeSbvTime(b), SbvMs(a), SbvMs(b), t))
  {
    var head := a + "," + b;
    assert a + "," + b + "\n" + t == head + "\n" + t;
    SbvPairOf(a, b);
    HeadLine(head, t);
    NormalizedSbv(a);
    NormalizedSbv(b);
  }

  /* ------------------------------------------------------------ codec */

  /** What every cue the SUB decoder yields satisfies: its display times
      read, split on `:` and `,`, as its milliseconds; it carries frames
      exactly when it came from MicroDVD. */
  predicate Decoded(c: Cue, f: Flavour) {
    && IsClock(c.startTime, ',') && ClockMs(c.startTime, ',') == c.startMs
    && IsClock(c.endTime, ',') && ClockMs(c.endTime, ',') == c.endMs
    && (c.startFrame.Some? <==> f == MicroDvd) && (c.endFrame.Some? <==> f == MicroDvd)
    && c.originalText.None? && !c.error && c.rawText.None? && c.assStyle.None?
  }

  /** `SUBParser.parse`: the sub-format is sniffed, then read by its own
      reader: MicroDVD line by line over the trimmed content, SubViewer block
      by block over the untrimmed content, SBV block by block over the
      trimmed content. The cues are those of the lines or blocks that
      decode, in order, numbered 1..n by position. */
  function Parse(content: string): (r: seq<Cue>)
    ensures Sniff(content) == MicroDvd ==> Pushed(r, MicroDvdLines(Lines(content)))
    ensures Sniff(content) == SubViewer ==> Pushed(r, SubViewerBlocks(SplitBlank(content)))
    ensures Sniff(content) == Sbv ==> Pushed(r, SbvBlocks(SplitBlank(Trim(content))))
    ensures forall i :: 0 <= i < |r| ==> r[i].id == Num(i + 1) && Decoded(r[i], Sniff(content))
  {
    match Sniff(content)
    case MicroDvd =>
      var os := MicroDvdLines(Lines(content));
      KeptAs(os, MicroDvd);
      CollectPushed(os);
      Collect(os)
    case SubViewer =>
      var os := SubViewerBlocks(SplitBlank(content));
      KeptAs(os, SubViewer);
      CollectPushed(os);
      Collect(os)
    case Sbv =>
      var os := SbvBlocks(SplitBlank(Trim(content)));
      KeptAs(os, Sbv);
      CollectPushed(os);
      Collect(os)
  }

  /** Cues decoded with an unset id are numbered by their position. */
  lemma KeptAs(os: seq<Option<Cue>>, f: Flavour)
    requires forall i :: 0 <= i < |os| && os[i].Some? ==> os[i].value.id == Num(0) && Decoded(os[i].value, f)
    ensures forall i :: 0 <= i < |Collect(os)| ==> Collect(os)[i].id == Num(i + 1) && Decoded(Collect(os)[i], f)
  {
    SomesPicks(os);
    forall i | 0 <= i < |Collect(os)| ensures Collect(os)[i].id == Num(i + 1) && Decoded(Collect(os)[i], f) {
      assert os[Yielding(os)[i]] == Some(Somes(os)[i]);
    }
  }

  /** `SUBParser.stringify`: numbered SRT-style blocks, whatever sub-format
      was read; the original content and the preserve flag play no part. */
  function Stringify(cs: seq<Cue>, originalContent: string, preserveFormatting: bool): (r: string)
    ensures r == Srt.Stringify(cs, originalContent, preserveFormatting)
    ensures r == Join(Entries(cs, 1), "\n\n") + "\n"
    ensures |r| > 0 && r[|r| - 1] == '\n'
    ensures |cs| == 0 ==> r == "\n"
  {
    NumberedBlocks(cs)
  }

  /** What the SUB encoder writes is SRT: the SRT decoder reads back every
      writable cue, numbered 1..n. */
  lemma {:induction false} WrittenAsSrt(cs: seq<Cue>, originalContent: string, preserveFormatting: bool)
    requires forall i :: 0 <= i < |cs| ==> Srt.Writable(cs[i])
    ensures Srt.Parse(Stringify(cs, originalContent, preserveFormatting)) == Srt.Rereads(cs, 1)
  {
    Srt.RoundTrip(cs, originalContent, preserveFormatting);
  }
}
