/** The SRT codec: numbered blocks of a timing line and text, separated by
    empty lines. */
module Srt {
  import opened Text
  import opened Blocks
  import opened Clock
  import opened Cues
  import opened Layout

  /** What every decoded SRT cue satisfies: comma-separated `HH:MM:SS,mmm`
      display times, milliseconds that agree with them, a positive numeric id
      and non-empty trimmed text, with no optional field set. */
  predicate Decoded(c: Cue) {
    DecodedBlock(c) && c.id.n >= 1
  }

  /** What one block decodes to: as `Decoded`, with the id still `0` when the
      block carried no index line (or index `0`). */
  predicate DecodedBlock(c: Cue) {
    && IsSrtTime(c.startTime) && IsSrtTime(c.endTime)
    && c.startMs == Clock12Ms(c.startTime) && c.endMs == Clock12Ms(c.endTime)
    && c.id.Num?
    && c.text != "" && IsTrimmed(c.text)
    && c.originalText.None? && !c.error && c.rawText.None? && c.assStyle.None?
    && c.startFrame.None? && c.endFrame.None?
  }

  /** `timeToMs` on a stored time: hours, minutes and seconds split on `:`,
      milliseconds after the comma. */
  function TimeToMs(t: string): (ms: nat)
    requires IsSrtTime(t)
    ensures ms == Clock12Ms(t)
    ensures ms == FieldsMs(DigitsValue(t[0..2]), DigitsValue(t[3..5]), DigitsValue(t[6..8]), DigitsValue(t[9..12]))
  {
    Clock12IsClock(t, ',');
    ClockMs(t, ',')
  }

  /** A captured time with its first dot turned into a comma: the stored
      form, reading the same time. */
  function NormalizeTime(t: string): (r: string)
    requires Timed(t)
    ensures IsSrtTime(r) && Clock12Ms(r) == Clock12Ms(t)
    ensures t[8] == ',' ==> r == t
  {
    SeparatorSwap(t, '.', ',');
    ReplaceFirst(t, '.', ',')
  }

  /** An index line: all digits once trimmed. */
  predicate IndexLine(line: string) {
    var t := Trim(line);
    |t| > 0 && AllDigits(t)
  }

  /** Where a block's timing line is expected: after the index line when
      there is one, otherwise first. */
  function TimingAt(lines: seq<string>): nat
    requires |lines| >= 1
  {
    if IndexLine(lines[0]) then 1 else 0
  }

  /** The text of a block: its lines after the timing line, rejoined and
      trimmed. */
  function TextAfter(lines: seq<string>, ti: nat): string
    requires ti < |lines|
  {
    Trim(Join(lines[ti + 1..], "\n"))
  }

  /** One block: an optional all-digit index line, a timing line, then text.
      A block yields a cue exactly when it has two lines or more, the line
      where the timing is expected matches the timing pattern, and the text
      after it is not empty. The cue holds the matched times (dot made a
      comma) and their milliseconds, that text, and the index as its id
      (`0` when there is no index line). */
  function ParseBlock(block: string): (r: Option<Cue>)
    ensures r.Some? ==> DecodedBlock(r.value)
    ensures var lines := Split(Trim(block), '\n');
      r.Some? <==> |lines| >= 2 && FindArrow(SrtArrow, lines[TimingAt(lines)]).Some? && TextAfter(lines, TimingAt(lines)) != ""
    ensures r.Some? ==> var lines := Split(Trim(block), '\n'); var ti := TimingAt(lines);
      && |lines| >= 2 && FindArrow(SrtArrow, lines[ti]).Some?
      && var m := FindArrow(SrtArrow, lines[ti]).value;
      && r.value.startTime == NormalizeTime(m.0) && r.value.endTime == NormalizeTime(m.1)
      && r.value.startMs == Clock12Ms(m.0) && r.value.endMs == Clock12Ms(m.1)
      && r.value.text == TextAfter(lines, ti)
      && r.value.id == Num(if ti == 1 then DigitsValue(Trim(lines[0])) else 0)
  {
    var lines := Split(Trim(block), '\n');
    if |lines| < 2 then None
    else
      var ti := TimingAt(lines);
      var m := FindArrow(SrtArrow, lines[ti]);
      if m.None? then None
      else
        var text := TextAfter(lines, ti);
        if text == "" then None
        else
          var st := NormalizeTime(m.value.0);
          var et := NormalizeTime(m.value.1);
          Some(Plain(Num(if ti == 1 then DigitsValue(Trim(lines[0])) else 0), st, et, TimeToMs(st), TimeToMs(et), text))
  }

  /** The decoding of each block, in order. */
  function Blockwise(blocks: seq<string>): (r: seq<Option<Cue>>)
    ensures |r| == |blocks|
    ensures forall i :: 0 <= i < |blocks| ==> r[i] == ParseBlock(blocks[i])
  {
    seq(|blocks|, i requires 0 <= i < |blocks| => ParseBlock(blocks[i]))
  }

  /** `SRTParser.parse`: the content is trimmed, split on empty lines, and each
      block decoded. The cues are those of the blocks that decode, in order;
      malformed blocks are dropped, never reported, and a cue without an
      index (or with index 0) is numbered by its position among the cues
      kept. */
  function Parse(content: string): (r: seq<Cue>)
    ensures Pushed(r, Blockwise(SplitBlank(Trim(content))))
    ensures forall i :: 0 <= i < |r| ==> Decoded(r[i])
  {
    var os := Blockwise(SplitBlank(Trim(content)));
    KeptDecoded(os);
    CollectPushed(os);
    Collect(os)
  }

  /** Every cue kept from well-decoded blocks is decoded, with an id set. */
  lemma KeptDecoded(os: seq<Option<Cue>>)
    requires forall i :: 0 <= i < |os| && os[i].Some? ==> DecodedBlock(os[i].value)
    ensures forall i :: 0 <= i < |Somes(os)| ==> Decoded(Collect(os)[i])
  {
    SomesPicks(os);
    var xs := Somes(os);
    forall i | 0 <= i < |xs| ensures Decoded(Collect(os)[i]) {
      assert os[Yielding(os)[i]] == Some(xs[i]);
    }
  }

  /** `SRTParser.stringify`: entries renumbered 1..n with the stored display
      times copied verbatim; the ids, the original content and the
      preserve-formatting flag play no part. */
  function Stringify(cs: seq<Cue>, originalContent: string, preserveFormatting: bool): (r: string)
    ensures r == Join(Entries(cs, 1), "\n\n") + "\n"
    ensures |r| > 0 && r[|r| - 1] == '\n'
    ensures |cs| == 0 ==> r == "\n"
  {
    NumberedBlocks(cs)
  }

  /** A block yields no cue when it has fewer than two lines, when the line
      where the timing is expected does not match (a non-numeric first line
      is that line, even when a timing line follows it), or when its text is
      empty. */
  lemma {:induction false} DroppedBlock(block: string)
    requires var lines := Split(Trim(block), '\n');
      || |lines| < 2
      || FindArrow(SrtArrow, lines[TimingAt(lines)]).None?
      || TextAfter(lines, TimingAt(lines)) == ""
    ensures ParseBlock(block).None?
  {
  }

  /** Cues that the encoder writes in a form the decoder reads back: stored
      comma-separated times, and text that is non-empty, trimmed and holds no
      empty line. */
  predicate Writable(c: Cue) {
    IsSrtTime(c.startTime) && IsSrtTime(c.endTime) && Body(c.text)
  }

  /** The cue the decoder rebuilds from the entry numbered `n` written for `c`. */
  function Reread(n: nat, c: Cue): Cue
    requires Writable(c)
  {
    Plain(Num(n), c.startTime, c.endTime, Clock12Ms(c.startTime), Clock12Ms(c.endTime), c.text)
  }

  /** The cues the decoder rebuilds from the entries numbered from `first`. */
  function Rereads(cs: seq<Cue>, first: nat): (r: seq<Cue>)
    requires forall i :: 0 <= i < |cs| ==> Writable(cs[i])
    ensures |r| == |cs|
    ensures forall i :: 0 <= i < |cs| ==> r[i] == Reread(first + i, cs[i])
  {
    seq(|cs|, i requires 0 <= i < |cs| => Reread(first + i, cs[i]))
  }

  /** The lines of the entry written for a cue numbered `n >= 1`: the index
      line reading `n`, the timing line matching the cue's times, then the
      cue's text. */
  lemma {:induction false} EntryParts(n: nat, c: Cue)
    requires n >= 1 && Writable(c)
    ensures var lines := Split(Trim(Entry(n, c.startTime, c.endTime, c.text)), '\n');
      && |lines| >= 3 && TimingAt(lines) == 1
      && DigitsValue(Trim(lines[0])) == n
      && FindArrow(SrtArrow, lines[1]) == Some((c.startTime, c.endTime))
      && TextAfter(lines, 1) == c.text
  {
    var e := Entry(n, c.startTime, c.endTime, c.text);
    EntryIsBlock(n, c.startTime, c.endTime, c.text);
    TrimOfTrimmed(e);
    EntryLines(n, c.startTime, c.endTime, c.text);
    var lines := Split(e, '\n');
    var num := NatToString(n);
    TrimOfTrimmed(num);
    assert lines[0] == num;
    assert lines[1] == c.startTime + " --> " + c.endTime;
    TimingArrow(SrtArrow, c.startTime, c.endTime);
    assert lines[2..] == Split(c.text, '\n');
    TrimOfTrimmed(c.text);
  }

  /** Decoding the entry written for a cue numbered `n >= 1` gives the cue back
      with id `n` and milliseconds recomputed from its display times. */
  lemma {:induction false} ParseEntry(n: nat, c: Cue)
    requires n >= 1 && Writable(c)
    ensures ParseBlock(Entry(n, c.startTime, c.endTime, c.text)) == Some(Reread(n, c))
  {
    EntryParts(n, c);
  }

  /** Decoding the entries written for `cs` gives the cues `Reread` describes. */
  lemma {:induction false} ParseEntries(cs: seq<Cue>)
    requires forall i :: 0 <= i < |cs| ==> Writable(cs[i])
    ensures Collect(Blockwise(Entries(cs, 1))) == Rereads(cs, 1)
  {
    EntriesYield(cs);
    CollectAll(Blockwise(Entries(cs, 1)), Rereads(cs, 1));
  }

  /** Every entry written for `cs` yields the matching cue of `Rereads`. */
  lemma {:induction false} EntriesYield(cs: seq<Cue>)
    requires forall i :: 0 <= i < |cs| ==> Writable(cs[i])
    ensures forall i :: 0 <= i < |cs| ==> Blockwise(Entries(cs, 1))[i] == Some(Rereads(cs, 1)[i])
  {
    forall i | 0 <= i < |cs| ensures Blockwise(Entries(cs, 1))[i] == Some(Rereads(cs, 1)[i]) {
      EntryYields(cs, i);
    }
  }

  /** Entry `i` written for `cs` yields cue `i` of `Rereads`. */
  lemma {:induction false} EntryYields(cs: seq<Cue>, i: nat)
    requires forall i :: 0 <= i < |cs| ==> Writable(cs[i])
    requires i < |cs|
    ensures Blockwise(Entries(cs, 1))[i] == Some(Rereads(cs, 1)[i])
  {
    var c := cs[i];
    assert Entries(cs, 1)[i] == Entry(i + 1, c.startTime, c.endTime, c.text);
    assert Rereads(cs, 1)[i] == Reread(i + 1, c);
    ParseEntry(i + 1, c);
  }

  /** Round trip: decoding what the encoder wrote gives the same display
      times, milliseconds and texts, with ids renumbered 1..n. */
  lemma {:induction false} RoundTrip(cs: seq<Cue>, originalContent: string, preserveFormatting: bool)
    requires forall i :: 0 <= i < |cs| ==> Writable(cs[i])
    ensures Parse(Stringify(cs, originalContent, preserveFormatting)) == Rereads(cs, 1)
  {
    if |cs| == 0 {
      EmptyRoundTrip();
    } else {
      BlocksRoundTrip(cs);
    }
  }

  /** No cues are written as a lone line feed, which decodes to no cues. */
  lemma {:induction false} EmptyRoundTrip()
    ensures Parse("\n") == []
  {
    assert Trim("\n") == "";
    assert SplitBlank("") == [""] by { assert Scan("", 0) == [""]; }
    assert Split(Trim(""), '\n') == [""] by { SplitNoSeparator("", '\n'); }
    assert Blockwise([""]) == [None];
  }

  /** The written entries are exactly the blocks the decoder splits off. */
  lemma {:induction false} BlocksRoundTrip(cs: seq<Cue>)
    requires |cs| > 0
    requires forall i :: 0 <= i < |cs| ==> Writable(cs[i])
    ensures Parse(NumberedBlocks(cs)) == Rereads(cs, 1)
  {
    var es := Entries(cs, 1);
    forall i | 0 <= i < |es|
      ensures |es[i]| > 0 && IsTrimmed(es[i]) && NoBlankLine(es[i])
    {
      EntryIsBlock(i + 1, cs[i].startTime, cs[i].endTime, cs[i].text);
    }
    JoinedBlocks(es);
    ParseEntries(cs);
  }
}
