/** The numbered-block layout shared by the SRT, WebVTT and SUB encoders:
    `n`, the timing line `start --> end`, then the text, one entry per block,
    blocks separated by an empty line. */
module Layout {
  import opened Text
  import opened Blocks
  import opened Clock
  import opened Cues

  /** One numbered `n\nstart --> end\ntext` entry. */
  function Entry(n: nat, st: string, et: string, text: string): string {
    NatToString(n) + "\n" + st + " --> " + et + "\n" + text
  }

  /** Text the block reader gives back unchanged: non-empty, trimmed, and
      without an empty (or whitespace-only) line inside. */
  predicate Body(text: string) {
    text != "" && IsTrimmed(text) && NoBlankLine(text)
  }

  /** The entries of `cs` with their stored times, numbered from `first`. */
  function Entries(cs: seq<Cue>, first: nat): (r: seq<string>)
    ensures |r| == |cs|
    ensures forall i :: 0 <= i < |cs| ==> r[i] == Entry(first + i, cs[i].startTime, cs[i].endTime, cs[i].text)
  {
    if |cs| == 0 then [] else [Entry(first, cs[0].startTime, cs[0].endTime, cs[0].text)] + Entries(cs[1..], first + 1)
  }

  /** The numbered-block writer shared by the SRT and SUB encoders: entries
      numbered 1..n, separated by an empty line, with one final line feed. */
  function NumberedBlocks(cs: seq<Cue>): string {
    Join(Entries(cs, 1), "\n\n") + "\n"
  }

  /** The writer reads only the display times and the text of each cue. */
  lemma {:induction false} NumberedBlocksIgnoresIdentity(cs: seq<Cue>, ds: seq<Cue>)
    requires |cs| == |ds|
    requires forall i :: 0 <= i < |cs| ==> cs[i].startTime == ds[i].startTime && cs[i].endTime == ds[i].endTime && cs[i].text == ds[i].text
    ensures NumberedBlocks(cs) == NumberedBlocks(ds)
  {
    assert Entries(cs, 1) == Entries(ds, 1);
  }

  lemma {:induction false} TimedNoNewline(t: string)
    requires Timed(t)
    ensures '\n' !in t && IsDigit(t[0]) && IsDigit(t[|t| - 1])
  {
    assert forall i :: 0 <= i < 12 ==> t[i] != '\n';
    assert t[|t| - 1] == t[11];
  }

  /** The entry, as lines. */
  lemma {:induction false} EntryLines(n: nat, st: string, et: string, text: string)
    requires Timed(st) && Timed(et)
    ensures Split(Entry(n, st, et, text), '\n') == [NatToString(n), st + " --> " + et] + Split(text, '\n')
  {
    var num := NatToString(n);
    var timing := st + " --> " + et;
    var ts := Split(text, '\n');
    var parts := [num, timing] + ts;
    assert '\n' !in num by { assert forall i :: 0 <= i < |num| ==> IsDigit(num[i]); }
    TimedNoNewline(st);
    TimedNoNewline(et);
    assert '\n' !in timing by {
      assert forall i :: 0 <= i < |timing| ==> timing[i] == (if i < 12 then st[i] else if i < 17 then " --> "[i - 12] else et[i - 17]);
    }
    assert parts[2..] == ts;
    assert parts[1..] == [timing] + ts;
    assert ([timing] + ts)[1..] == ts;
    assert Join(parts, "\n") == num + "\n" + (timing + "\n" + Join(ts, "\n"));
    assert Join(parts, "\n") == Entry(n, st, et, text);
    SplitJoin(parts, '\n');
  }

  /** The entry is a well-formed block. */
  lemma {:induction false} EntryIsBlock(n: nat, st: string, et: string, text: string)
    requires Timed(st) && Timed(et) && Body(text)
    ensures |Entry(n, st, et, text)| > 0 && IsTrimmed(Entry(n, st, et, text)) && NoBlankLine(Entry(n, st, et, text))
  {
    var num := NatToString(n);
    var timing := st + " --> " + et;
    assert '\n' !in num by { assert forall i :: 0 <= i < |num| ==> IsDigit(num[i]); }
    TimedNoNewline(st);
    TimedNoNewline(et);
    assert '\n' !in timing by {
      assert forall i :: 0 <= i < |timing| ==> timing[i] == (if i < 12 then st[i] else if i < 17 then " --> "[i - 12] else et[i - 17]);
    }
    NoNewlineNoBlank(num);
    NoNewlineNoBlank(timing);
    assert IsDigit(num[0]) && IsDigit(timing[0]) && IsDigit(timing[|timing| - 1]);
    NoBlankLineJoin(num, timing);
    var head := num + "\n" + timing;
    assert head[0] == num[0] && head[|head| - 1] == timing[|timing| - 1];
    NoBlankLineJoin(head, text);
    assert Entry(n, st, et, text) == head + "\n" + text;
  }

  /** The timing line the encoders write is matched at its start, both
      times captured whole. */
  lemma {:induction false} TimingArrow(form: ArrowForm, s: string, e: string)
    requires Timed(s) && Timed(e) && TimeLen(form, s) == 12 && TimeLen(form, e) == 12
    ensures FindArrow(form, s + " --> " + e) == Some((s, e))
  {
    var timing := s + " --> " + e;
    assert timing[..12] == s;
    assert forall i :: 0 <= i < 12 ==> timing[i] == s[i];
    TimeLenPrefix(form, s, timing);
    var a := timing[12..];
    assert a == " --> " + e;
    assert SpaceRun(a) == 1 by { assert a[1..][0] == '-'; }
    var b := a[1..];
    assert b == "--> " + e;
    assert StartsWith(b, "-->") by { assert b[..3] == "-->"; }
    var c := b[3..];
    assert c == " " + e;
    assert SpaceRun(c) == 1 by { assert c[1..][0] == e[0]; }
    var d := c[1..];
    assert d == e && d[..12] == e;
    assert ArrowAt(form, timing) == Some((s, e));
  }

  /** A time matched at the start of `t` is matched at the start of any
      string beginning with `t`. */
  lemma {:induction false} TimeLenPrefix(form: ArrowForm, t: string, u: string)
    requires |t| == 12 && |u| >= 12 && u[..12] == t && TimeLen(form, t) == 12
    ensures TimeLen(form, u) == 12
  {
    assert forall i :: 0 <= i < 12 ==> u[i] == t[i];
  }

  /** Entries joined by an empty line, with a final line feed, are split
      back into exactly those entries. */
  lemma {:induction false} JoinedBlocks(es: seq<string>)
    requires |es| >= 1
    requires forall i :: 0 <= i < |es| ==> |es[i]| > 0 && IsTrimmed(es[i]) && NoBlankLine(es[i])
    ensures SplitBlank(Trim(Join(es, "\n\n") + "\n")) == es
  {
    var body := Join(es, "\n\n");
    JoinFirstChar(es, "\n\n");
    JoinLastChar(es, "\n\n");
    TrimTrailingSpace(body, "\n");
    SplitBlankJoin(es);
  }
}
