/** The canonical cue record every codec decodes into and encodes from. */
module Cues {
  import opened Text

  /** SRT, ASS and the SUB family number their cues; a WebVTT cue may carry a
      free-text identifier. */
  datatype CueId = Num(n: nat) | Str(s: string)

  /** One timed subtitle entry. `startTime`/`endTime` are the format-native
      display strings kept beside the canonical milliseconds. `originalText` and
      `error` are set only by the translation loop (`error == false` stands for
      an absent flag); `rawText` and `assStyle` only by the ASS decoder;
      `startFrame`/`endFrame` only by the MicroDVD decoder. */
  datatype Cue = Cue(
    id: CueId,
    startTime: string,
    endTime: string,
    startMs: nat,
    endMs: nat,
    text: string,
    originalText: Option<string>,
    error: bool,
    rawText: Option<string>,
    assStyle: Option<seq<string>>,
    startFrame: Option<nat>,
    endFrame: Option<nat>)

  /** A cue with none of the optional fields. */
  function Plain(id: CueId, startTime: string, endTime: string, startMs: nat, endMs: nat, text: string): Cue {
    Cue(id, startTime, endTime, startMs, endMs, text, None, false, None, None, None, None)
  }

  /** An id the decoders treat as missing: JavaScript's `index || n` and
      `cueId || n` fall through on `0` and on the empty string. */
  predicate Unset(id: CueId) {
    id == Num(0) || id == Str("")
  }

  /** The id a decoder gives the cue pushed as number `k + 1`: its own id when
      set, otherwise `k + 1`. */
  function Number(c: Cue, k: nat): (r: Cue)
    ensures !Unset(r.id)
    ensures r.(id := c.id) == c
    ensures !Unset(c.id) ==> r == c
    ensures Unset(c.id) ==> r == c.(id := Num(k + 1))
  {
    if Unset(c.id) then c.(id := Num(k + 1)) else c
  }

  /** Every position of `os` that holds a value is among `ps`. */
  predicate Lists(ps: seq<nat>, os: seq<Option<Cue>>) {
    forall i :: 0 <= i < |os| && os[i].Some? ==> i in ps
  }

  /** The positions of `os` that hold a value, in increasing order: every
      such position, and no other. */
  function Yielding(os: seq<Option<Cue>>): (r: seq<nat>)
    ensures forall j :: 0 <= j < |r| ==> r[j] < |os| && os[r[j]].Some?
    ensures forall j, l :: 0 <= j < l < |r| ==> r[j] < r[l]
    ensures Lists(r, os)
  {
    if |os| == 0 then []
    else
      var n := |os| - 1;
      var init := Yielding(os[..n]);
      assert forall i :: 0 <= i < n ==> os[..n][i] == os[i];
      init + (if os[n].Some? then [n] else [])
  }

  /** The present values of `os`, in order: the cues a decoder's loop pushes. */
  function Somes(os: seq<Option<Cue>>): (r: seq<Cue>)
    ensures |r| <= |os|
  {
    if |os| == 0 then []
    else
      var n := |os| - 1;
      Somes(os[..n]) + (if os[n].Some? then [os[n].value] else [])
  }

  /** The kept values are those of the yielding positions, one each, in
      order: value `j` is the one at the `j`-th yielding position. */
  lemma {:induction false} SomesPicks(os: seq<Option<Cue>>)
    ensures |Somes(os)| == |Yielding(os)|
    ensures forall j :: 0 <= j < |Somes(os)| ==> os[Yielding(os)[j]] == Some(Somes(os)[j])
    decreases |os|
  {
    if |os| > 0 {
      var n := |os| - 1;
      SomesPicks(os[..n]);
      assert forall i :: 0 <= i < n ==> os[..n][i] == os[i];
    }
  }

  /** One more present value is kept last. */
  lemma {:induction false} SomesSnoc(os: seq<Option<Cue>>, x: Cue)
    ensures Somes(os + [Some(x)]) == Somes(os) + [x]
  {
    assert (os + [Some(x)])[..|os|] == os;
  }

  /** Keeping the present values distributes over concatenation. */
  lemma {:induction false} SomesAppend(a: seq<Option<Cue>>, b: seq<Option<Cue>>)
    ensures Somes(a + b) == Somes(a) + Somes(b)
    decreases |b|
  {
    if |b| > 0 {
      var n := |b| - 1;
      SomesAppend(a, b[..n]);
      assert (a + b)[..|a + b| - 1] == a + b[..n];
    } else {
      assert a + b == a;
    }
  }

  /** `r` is what a decoder's loop pushes from the per-block results `os`:
      the present values, in order, each numbered by its position among them. */
  predicate Pushed(r: seq<Cue>, os: seq<Option<Cue>>) {
    && |r| == |Yielding(os)|
    && forall j :: 0 <= j < |r| ==> r[j] == Number(os[Yielding(os)[j]].value, j)
  }

  /** When every block yields a value, the loop keeps every one of them. */
  lemma {:induction false} SomesAll(os: seq<Option<Cue>>, xs: seq<Cue>)
    requires |os| == |xs|
    requires forall i :: 0 <= i < |os| ==> os[i] == Some(xs[i])
    ensures Somes(os) == xs
    decreases |os|
  {
    if |os| > 0 {
      var n := |os| - 1;
      SomesAll(os[..n], xs[..n]);
      assert os == os[..n] + [Some(xs[n])];
      SomesSnoc(os[..n], xs[n]);
      assert xs == xs[..n] + [xs[n]];
    }
  }

  /** Ids assigned in push order: the `k`-th pushed cue falls back to `k + 1`. */
  function Numbered(xs: seq<Cue>): (r: seq<Cue>)
    ensures |r| == |xs|
    ensures forall i :: 0 <= i < |xs| ==> r[i] == Number(xs[i], i)
  {
    seq(|xs|, i requires 0 <= i < |xs| => Number(xs[i], i))
  }

  /** The decoder loop's output: the present values numbered in push order. */
  function Collect(os: seq<Option<Cue>>): (r: seq<Cue>)
    ensures |r| <= |os|
  {
    Numbered(Somes(os))
  }

  /** The loop's output is what `Pushed` describes. */
  lemma {:induction false} CollectPushed(os: seq<Option<Cue>>)
    ensures Pushed(Collect(os), os)
  {
    SomesPicks(os);
  }

  /** Cues that all carry their own id keep it. */
  lemma {:induction false} NumberedKeeps(xs: seq<Cue>)
    requires forall i :: 0 <= i < |xs| ==> !Unset(xs[i].id)
    ensures Numbered(xs) == xs
  {
  }

  /** When every block yields a cue carrying its own id, the loop's output is
      those cues, in order. */
  lemma {:induction false} CollectAll(os: seq<Option<Cue>>, xs: seq<Cue>)
    requires |os| == |xs|
    requires forall i :: 0 <= i < |os| ==> os[i] == Some(xs[i])
    requires forall i :: 0 <= i < |xs| ==> !Unset(xs[i].id)
    ensures Collect(os) == xs
  {
    SomesAll(os, xs);
    NumberedKeeps(xs);
  }
}
