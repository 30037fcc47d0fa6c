/** The WebVTT codec: a `WEBVTT` header, then cue blocks of an optional
    identifier line, a timing line with dot-separated times, and text. */
module Vtt {
  import opened Text
  import opened Blocks
  import opened Clock
  import opened Cues
  import opened Layout

  /* ---------------------------------------------------------------- header */

  /** An empty line (`\n\n`) starts at `j`. */
  predicate BlankAt(s: string, j: int) {
    0 <= j && j + 2 <= |s| && s[j] == '\n' && s[j + 1] == '\n'
  }

  /** Leftmost position at or after `k` where an empty line starts. */
  function BlankFrom(s: string, k: nat): (r: Option<nat>)
    requires k <= |s|
    ensures r.Some? ==> k <= r.value && BlankAt(s, r.value)
    ensures r.Some? ==> forall j :: k <= j < r.value ==> !BlankAt(s, j)
    ensures r.None? ==> forall j :: k <= j ==> !BlankAt(s, j)
    decreases |s| - k
  {
    if k + 2 > |s| then None
    else if BlankAt(s, k) then Some(k)
    else BlankFrom(s, k + 1)
  }

  /** `content.replace(/^WEBVTT.*?\n\n/s, '')`: when the content starts with
      `WEBVTT`, everything up to and including the first empty line after it
      is dropped; otherwise (or when there is no empty line) nothing is. */
  function StripHeader(content: string): (r: string)
    ensures |r| <= |content| && r == content[|content| - |r|..]
    ensures !StartsWith(content, "WEBVTT") ==> r == content
    ensures StartsWith(content, "WEBVTT") && |r| < |content| ==>
      var k := |content| - |r| - 2;
      6 <= k && BlankAt(content, k) && forall j :: 6 <= j < k ==> !BlankAt(content, j)
    ensures StartsWith(content, "WEBVTT") && |r| == |content| ==> forall j :: 6 <= j ==> !BlankAt(content, j)
  {
    if !StartsWith(content, "WEBVTT") then content
    else
      match BlankFrom(content, 6)
      case None => content
      case Some(k) => content[k + 2..]
  }

  /** The header the encoder writes is exactly what the decoder strips. */
  lemma {:induction false} StripWrittenHeader(body: string)
    ensures StripHeader("WEBVTT\n\n" + body) == body
  {
    var s := "WEBVTT\n\n" + body;
    assert s[..6] == "WEBVTT";
    assert BlankAt(s, 6);
    assert s[8..] == body;
  }

  /* ----------------------------------------------------------------- times */

  /** How a captured time splits on `:`: three fields for `HH:MM:SS.mmm`,
      two for `MM:SS.mmm`. */
  lemma {:induction false} TimeParts(t: string)
    requires IsTimeOf(VttArrow, t)
    ensures |t| == 12 ==> Split(t, ':') == [t[0..2], t[3..5], t[6..12]]
    ensures |t| == 9 ==> Split(t, ':') == [t[0..2], t[3..9]]
  {
    if |t| == 12 {
      LongParts(t);
    } else {
      ShortParts(t);
    }
  }

  /** `a` then separator `c` then `b`, none of the parts holding `c`. */
  lemma {:induction false} SplitTwo(a: string, c: char, b: string)
    requires c !in a && c !in b
    ensures Split(a + [c] + b, c) == [a, b]
  {
    SplitAtFirst(a, c, b);
    SplitNoSeparator(b, c);
  }

  lemma {:induction false} LongParts(t: string)
    requires |t| == 12 && VttLongAt(t)
    ensures Split(t, ':') == [t[0..2], t[3..5], t[6..12]]
  {
    var a, b, c := t[0..2], t[3..5], t[6..12];
    assert ':' !in a by { assert a == [t[0], t[1]]; }
    assert ':' !in b by { assert b == [t[3], t[4]]; }
    assert ':' !in c by { assert c == [t[6], t[7], t[8], t[9], t[10], t[11]]; }
    assert t == a + [':'] + (b + [':'] + c);
    SplitAtFirst(a, ':', b + [':'] + c);
    SplitTwo(b, ':', c);
  }

  lemma {:induction false} ShortParts(t: string)
    requires |t| == 9 && VttShortAt(t)
    ensures Split(t, ':') == [t[0..2], t[3..9]]
  {
    var a, c := t[0..2], t[3..9];
    assert ':' !in a by { assert a == [t[0], t[1]]; }
    assert ':' !in c by { assert c == [t[3], t[4], t[5], t[6], t[7], t[8]]; }
    assert t == a + [':'] + c;
    SplitTwo(a, ':', c);
  }

  /** `timeToMs`: with three `:`-fields, hours, minutes and seconds; with two,
      minutes and seconds; the milliseconds follow the dot. */
  function TimeToMs(t: string): (ms: nat)
    requires IsTimeOf(VttArrow, t)
    ensures |t| == 12 ==> ms == Clock12Ms(t)
  {
    if |t| == 12 then FieldsMs(DigitsValue(t[0..2]), DigitsValue(t[3..5]), DigitsValue(t[6..8]), DigitsValue(t[9..12]))
    else FieldsMs(0, DigitsValue(t[0..2]), DigitsValue(t[3..5]), DigitsValue(t[6..9]))
  }

  /** `normalizeTime`: a two-field `MM:SS.mmm` time gets an `00:` hour field;
      the normalised time reads the same number of milliseconds. */
  function NormalizeTime(t: string): (r: string)
    requires IsTimeOf(VttArrow, t)
    ensures Timed(r) && VttLongAt(r) && IsTimeOf(VttArrow, r)
    ensures TimeToMs(r) == TimeToMs(t)
    ensures |t| == 12 ==> r == t
    ensures |t| == 9 ==> r == "00:" + t
  {
    TimeParts(t);
    var r := if |Split(t, ':')| == 2 then "00:" + t else t;
    assert |t| == 9 ==> r[0..2] == "00" && r[3..5] == t[0..2] && r[6..8] == t[3..5] && r[9..12] == t[6..9];
    assert DigitsValue("00") == 0;
    r
  }

  /* ---------------------------------------------------------------- blocks */

  /** What one block decodes to: dot-separated `HH:MM:SS.mmm` display times,
      milliseconds that agree with them, non-empty trimmed text and no
      optional field; the id is the identifier line, or unset. */
  predicate DecodedBlock(c: Cue) {
    && Timed(c.startTime) && VttLongAt(c.startTime)
    && Timed(c.endTime) && VttLongAt(c.endTime)
    && c.startMs == Clock12Ms(c.startTime) && c.endMs == Clock12Ms(c.endTime)
    && c.id.Str?
    && c.text != "" && IsTrimmed(c.text)
    && c.originalText.None? && !c.error && c.rawText.None? && c.assStyle.None?
    && c.startFrame.None? && c.endFrame.None?
  }

  /** What every decoded WebVTT cue satisfies: as `DecodedBlock`, with the id
      set (the identifier line, or the cue's position among those kept). */
  predicate Decoded(c: Cue) {
    && Timed(c.startTime) && VttLongAt(c.startTime)
    && Timed(c.endTime) && VttLongAt(c.endTime)
    && c.startMs == Clock12Ms(c.startTime) && c.endMs == Clock12Ms(c.endTime)
    && !Unset(c.id)
    && c.text != "" && IsTrimmed(c.text)
    && c.originalText.None? && !c.error && c.rawText.None? && c.assStyle.None?
    && c.startFrame.None? && c.endFrame.None?
  }

  /** Where a block's timing line is expected: second when the first line
      holds no `-->` (it is then the cue identifier), otherwise first. */
  function TimingAt(lines: seq<string>): nat
    requires |lines| >= 1
  {
    if Contains(lines[0], "-->") then 0 else 1
  }

  /** The text of a block: its lines after the timing line, rejoined and
      trimmed. */
  function TextAfter(lines: seq<string>, ti: nat): string
    requires ti < |lines|
  {
    Trim(Join(lines[ti + 1..], "\n"))
  }

  /** One cue block: a first line without `-->` is the cue identifier and the
      timing line follows it; otherwise the first line is the timing line.
      A block yields a cue exactly when it has two lines or more, the line
      where the timing is expected matches, and the text after it is not
      empty. The cue holds the matched times (given an hour field) with
      their milliseconds, that text, and the identifier line as its id (the
      empty string, which counts as unset, when there is none). */
  function ParseBlock(block: string): (r: Option<Cue>)
    ensures r.Some? ==> DecodedBlock(r.value)
    ensures var lines := Split(Trim(block), '\n');
      r.Some? <==> |lines| >= 2 && FindArrow(VttArrow, lines[TimingAt(lines)]).Some? && TextAfter(lines, TimingAt(lines)) != ""
    ensures r.Some? ==> var lines := Split(Trim(block), '\n'); var ti := TimingAt(lines);
      && |lines| >= 2 && FindArrow(VttArrow, lines[ti]).Some?
      && var m := FindArrow(VttArrow, lines[ti]).value;
      && r.value.startTime == NormalizeTime(m.0) && r.value.endTime == NormalizeTime(m.1)
      && r.value.startMs == TimeToMs(m.0) && r.value.endMs == TimeToMs(m.1)
      && r.value.text == TextAfter(lines, ti)
      && r.value.id == Str(if ti == 1 then lines[0] else "")
  {
    var lines := Split(Trim(block), '\n');
    if |lines| < 2 then None
    else
      var ti := TimingAt(lines);
      var m := FindArrow(VttArrow, lines[ti]);
      if m.None? then None
      else
        var text := TextAfter(lines, ti);
        if text == "" then None
        else
          var st := NormalizeTime(m.value.0);
          var et := NormalizeTime(m.value.1);
          Some(Plain(Str(if ti == 1 then lines[0] else ""), st, et, TimeToMs(st), TimeToMs(et), text))
  }

  /** A block yields no cue when it has fewer than two lines, when the line
      where the timing is expected does not match (an identifier line that
      is not followed by a timing line included), or when its text is
      empty. */
  lemma {:induction false} DroppedBlock(block: string)
    requires var lines := Split(Trim(block), '\n');
      || |lines| < 2
      || FindArrow(VttArrow, lines[TimingAt(lines)]).None?
      || TextAfter(lines, TimingAt(lines)) == ""
    ensures ParseBlock(block).None?
  {
  }

  /** The decoding of each block, in order. */
  function Blockwise(blocks: seq<string>): (r: seq<Option<Cue>>)
    ensures |r| == |blocks|
    ensures forall i :: 0 <= i < |blocks| ==> r[i] == ParseBlock(blocks[i])
  {
    seq(|blocks|, i requires 0 <= i < |blocks| => ParseBlock(blocks[i]))
  }

  /** `VTTParser.parse`: header stripped, the rest trimmed and split on empty
      lines, each block decoded. The cues are those of the blocks that
      decode, in order; malformed blocks are dropped, and a cue without an
      identifier is numbered by its position among the cues kept. */
  function Parse(content: string): (r: seq<Cue>)
    ensures Pushed(r, Blockwise(SplitBlank(Trim(StripHeader(content)))))
    ensures forall i :: 0 <= i < |r| ==> Decoded(r[i])
  {
    var os := Blockwise(SplitBlank(Trim(StripHeader(content))));
    KeptDecoded(os);
    CollectPushed(os);
    Collect(os)
  }

  /** Every cue kept from well-decoded blocks is decoded, with an id set. */
  lemma KeptDecoded(os: seq<Option<Cue>>)
    requires forall i :: 0 <= i < |os| && os[i].Some? ==> DecodedBlock(os[i].value)
    ensures forall i :: 0 <= i < |Somes(os)| ==> Decoded(Collect(os)[i])
  {
    SomesPicks(os);
    var xs := Somes(os);
    forall i | 0 <= i < |xs| ensures Decoded(Collect(os)[i]) {
      assert os[Yielding(os)[i]] == Some(xs[i]);
    }
  }

  /* --------------------------------------------------------------- encoder */

  /** A stored time as the encoder writes it: its first comma becomes a dot.
      A twelve-character clock stays one, with a dot, reading the same time. */
  function DotTime(t: string): (r: string)
    ensures |r| == |t|
    ensures Timed(t) ==> Timed(r) && VttLongAt(r) && Clock12Ms(r) == Clock12Ms(t)
    ensures Timed(t) && t[8] == '.' ==> r == t
  {
    if Timed(t) then
      SeparatorSwap(t, ',', '.');
      ReplaceFirst(t, ',', '.')
    else ReplaceFirst(t, ',', '.')
  }

  /** The entries the encoder writes, numbered from `first`. */
  function VttEntries(cs: seq<Cue>, first: nat): (r: seq<string>)
    ensures |r| == |cs|
    ensures forall i :: 0 <= i < |cs| ==> r[i] == Entry(first + i, DotTime(cs[i].startTime), DotTime(cs[i].endTime), cs[i].text)
  {
    seq(|cs|, i requires 0 <= i < |cs| => Entry(first + i, DotTime(cs[i].startTime), DotTime(cs[i].endTime), cs[i].text))
  }

  /** `VTTParser.stringify`: the `WEBVTT` header and an empty line, then the
      entries numbered 1..n with the stored times' commas turned into dots,
      separated by empty lines, then one line feed. */
  function Stringify(cs: seq<Cue>, originalContent: string, preserveFormatting: bool): (r: string)
    ensures StartsWith(r, "WEBVTT\n\n") && r[|r| - 1] == '\n'
    ensures StripHeader(r) == Join(VttEntries(cs, 1), "\n\n") + "\n"
    ensures |cs| == 0 ==> r == "WEBVTT\n\n\n"
  {
    var body := Join(VttEntries(cs, 1), "\n\n") + "\n";
    var r := "WEBVTT\n\n" + body;
    assert r[..8] == "WEBVTT\n\n";
    StripWrittenHeader(body);
    r
  }

  /* ------------------------------------------------------------ round trip */

  /** Cues the encoder writes in a form the decoder reads back: twelve-character
      stored times (comma or dot), and text that is non-empty, trimmed and
      holds no empty line. */
  predicate Writable(c: Cue) {
    Timed(c.startTime) && Timed(c.endTime) && Body(c.text)
  }

  /** The cue the decoder rebuilds from the entry numbered `n` written for `c`:
      the number line becomes a string identifier and the times carry dots. */
  function Reread(n: nat, c: Cue): Cue
    requires Writable(c)
  {
    Plain(Str(NatToString(n)), DotTime(c.startTime), DotTime(c.endTime), Clock12Ms(c.startTime), Clock12Ms(c.endTime), c.text)
  }

  /** Cue `i` of `Rereads`, the entries being numbered from `first`. */
  function RereadAt(cs: seq<Cue>, first: nat, i: nat): Cue
    requires i < |cs| && Writable(cs[i])
  {
    Reread(first + i, cs[i])
  }

  /** The cues the decoder rebuilds from the entries numbered from `first`. */
  function Rereads(cs: seq<Cue>, first: nat): (r: seq<Cue>)
    requires forall i :: 0 <= i < |cs| ==> Writable(cs[i])
    ensures |r| == |cs|
    ensures forall i :: 0 <= i < |cs| ==> r[i] == Reread(first + i, cs[i])
  {
    seq(|cs|, i requires 0 <= i < |cs| => RereadAt(cs, first, i))
  }

  /** A run of digits holds no arrow. */
  lemma {:induction false} DigitsHaveNoArrow(s: string)
    requires AllDigits(s)
    ensures !Contains(s, "-->")
    decreases |s|
  {
    if |s| > 0 {
      assert !StartsWith(s, "-->") by { assert IsDigit(s[0]); }
      DigitsHaveNoArrow(s[1..]);
    }
  }

  /** Decoding the entry written for a cue gives back the cue `Reread` describes. */
  lemma {:induction false} ParseEntry(n: nat, c: Cue)
    requires Writable(c)
    ensures ParseBlock(Entry(n, DotTime(c.startTime), DotTime(c.endTime), c.text)) == Some(Reread(n, c))
  {
    var st := DotTime(c.startTime);
    var et := DotTime(c.endTime);
    var e := Entry(n, st, et, c.text);
    EntryIsBlock(n, st, et, c.text);
    TrimOfTrimmed(e);
    EntryLines(n, st, et, c.text);
    var lines := Split(e, '\n');
    var num := NatToString(n);
    assert lines[0] == num;
    DigitsHaveNoArrow(num);
    assert lines[1] == st + " --> " + et;
    TimingArrow(VttArrow, st, et);
    assert lines[2..] == Split(c.text, '\n');
    TrimOfTrimmed(c.text);
  }

  lemma {:induction false} ParseEntries(cs: seq<Cue>)
    requires forall i :: 0 <= i < |cs| ==> Writable(cs[i])
    ensures Collect(Blockwise(VttEntries(cs, 1))) == Rereads(cs, 1)
  {
    var os := Blockwise(VttEntries(cs, 1));
    var xs := Rereads(cs, 1);
    forall i | 0 <= i < |os| ensures os[i] == Some(xs[i]) {
      EntryDecodes(cs, i);
    }
    CollectAll(os, xs);
  }

  lemma {:induction false} EntryDecodes(cs: seq<Cue>, i: nat)
    requires forall i :: 0 <= i < |cs| ==> Writable(cs[i])
    requires i < |cs|
    ensures Blockwise(VttEntries(cs, 1))[i] == Some(Rereads(cs, 1)[i])
  {
    ParseEntry(1 + i, cs[i]);
  }

  /** Round trip: decoding what the encoder wrote gives the same times (with
      dots), milliseconds and texts, with ids "1".."n". */
  lemma {:induction false} RoundTrip(cs: seq<Cue>, originalContent: string, preserveFormatting: bool)
    requires forall i :: 0 <= i < |cs| ==> Writable(cs[i])
    ensures Parse(Stringify(cs, originalContent, preserveFormatting)) == Rereads(cs, 1)
  {
    ParseWritten(cs, originalContent, preserveFormatting);
    if |cs| == 0 {
      assert VttEntries(cs, 1) == [] && Join(VttEntries(cs, 1), "\n\n") + "\n" == "\n";
      EmptyBody();
      assert Collect([None]) == [] by { assert Yielding([None]) == []; }
    } else {
      BodyRoundTrip(cs);
    }
  }

  /** The decoder reads past the written header straight to the entries. */
  lemma {:induction false} ParseWritten(cs: seq<Cue>, originalContent: string, preserveFormatting: bool)
    ensures var body := Join(VttEntries(cs, 1), "\n\n") + "\n";
      Parse(Stringify(cs, originalContent, preserveFormatting)) == Collect(Blockwise(SplitBlank(Trim(body))))
  {
    var body := Join(VttEntries(cs, 1), "\n\n") + "\n";
    assert Stringify(cs, originalContent, preserveFormatting) == "WEBVTT\n\n" + body;
    StripWrittenHeader(body);
  }

  /** The written entries are exactly the blocks the decoder splits off. */
  lemma {:induction false} BodyRoundTrip(cs: seq<Cue>)
    requires |cs| > 0
    requires forall i :: 0 <= i < |cs| ==> Writable(cs[i])
    ensures Collect(Blockwise(SplitBlank(Trim(Join(VttEntries(cs, 1), "\n\n") + "\n")))) == Rereads(cs, 1)
  {
    var es := VttEntries(cs, 1);
    assert SplitBlank(Trim(Join(es, "\n\n") + "\n")) == es by {
      forall i | 0 <= i < |es|
        ensures |es[i]| > 0 && IsTrimmed(es[i]) && NoBlankLine(es[i])
      {
        EntryIsBlock(i + 1, DotTime(cs[i].startTime), DotTime(cs[i].endTime), cs[i].text);
      }
      JoinedBlocks(es);
    }
    ParseEntries(cs);
  }

  /** A header with no cues decodes to no cues. */
  lemma {:induction false} EmptyBody()
    ensures Blockwise(SplitBlank(Trim("\n"))) == [None]
  {
    assert Trim("\n") == "";
    assert SplitBlank("") == [""] by { assert Scan("", 0) == [""]; }
    assert Split(Trim(""), '\n') == [""] by { SplitNoSeparator("", '\n'); }
  }

  /** Normalising never changes the milliseconds a captured time reads, and
      the decoded milliseconds are those of the time as written. */
  lemma {:induction false} ShortTimeReading(t: string)
    requires IsTimeOf(VttArrow, t) && |t| == 9
    ensures TimeToMs(NormalizeTime(t)) == FieldsMs(0, DigitsValue(t[0..2]), DigitsValue(t[3..5]), DigitsValue(t[6..9]))
  {
  }
}
