/** The translation route: request validation, the batch loop of `POST /`
    (contiguous batches, one capability call per batch in order, per-cue
    merge or failure flag, progress events, one completion event) and the
    error path of `POST /single`. The AI provider is an abstract capability:
    a function from the call's position and the batch's texts to an
    outcome. */
module Translate {
  import opened Text
  import opened Cues

  /** What one `translateBatch` call comes back with: the translated texts,
      or a thrown error. */
  datatype Outcome = Translated(texts: seq<string>) | Threw(message: string)

  /** A server-sent event of the batch route. */
  datatype Event = Progress(progress: nat, completed: nat, total: nat) | Complete(subtitles: seq<Cue>)

  /** The providers `getProvider` knows; any other name yields no provider. */
  const Providers: set<string> := {"openai", "gemini", "grok"}

  /** The body fields the batch route reads. An absent string field and the
      empty string are both falsy, so both are `""` here; an absent batch
      size is `None`. */
  datatype Request = Request(
    subtitles: Option<seq<Cue>>,
    sourceLanguage: string,
    targetLanguage: string,
    model: string,
    provider: string,
    batchSize: Option<nat>,
    customInstructions: string)

  /** A status-400 rejection with its message. */
  datatype Rejection = Rejection(status: nat, error: string)

  /* ------------------------------------------------------- validation */

  /** The two checks both routes make before any provider call: the
      required fields first, then the provider name. */
  function Validate(present: bool, provider: string): (r: Option<Rejection>)
    ensures r.None? <==> present && provider in Providers
    ensures r.Some? ==> r.value.status == 400
    ensures r.Some? && present ==> r.value.error == "Unsupported provider: " + provider
    ensures !present ==> r == Some(Rejection(400, "Missing required fields"))
  {
    if !present then Some(Rejection(400, "Missing required fields"))
    else if provider !in Providers then Some(Rejection(400, "Unsupported provider: " + provider))
    else None
  }

  /** The batch route's required fields: the cue list, the target
      language, the model and the provider. */
  predicate Present(req: Request) {
    req.subtitles.Some? && req.targetLanguage != "" && req.model != "" && req.provider != ""
  }

  /* ---------------------------------------------------------- batches */

  function Min(a: nat, b: nat): nat {
    if a <= b then a else b
  }

  /** The batches the route cuts: `cs.slice(i, i + size)` for
      `i = 0, size, 2*size, ...` while `i < |cs|`. There are as many as it
      takes to hold the cues, and no more. */
  function Batches(cs: seq<Cue>, size: nat): (r: seq<seq<Cue>>)
    requires size >= 1
    ensures |r| == 0 <==> |cs| == 0
    ensures |r| > 0 ==> (|r| - 1) * size < |cs| <= |r| * size
    decreases |cs|
  {
    if |cs| == 0 then []
    else if |cs| <= size then [cs]
    else
      var rest := Batches(cs[size..], size);
      CountStep(|cs|, size, |rest|);
      [cs[..size]] + rest
  }

  lemma {:induction false} CountStep(n: nat, size: nat, m: nat)
    requires size >= 1 && n > size
    requires m > 0 && (m - 1) * size < n - size <= m * size
    ensures m * size < n <= (m + 1) * size
  {
    assert (m - 1) * size == m * size - size;
    assert (m + 1) * size == m * size + size;
  }

  /** `cs.slice(k * size, k * size + size)`. */
  function Slice(cs: seq<Cue>, size: nat, k: nat): seq<Cue>
    requires k * size < |cs|
  {
    cs[k * size..Min(|cs|, k * size + size)]
  }

  /** Batch `k` is the slice starting at `k * size`. */
  lemma {:induction false} BatchSlices(cs: seq<Cue>, size: nat)
    requires size >= 1
    ensures forall k :: 0 <= k < |Batches(cs, size)| ==> k * size < |cs| && Batches(cs, size)[k] == Slice(cs, size, k)
    decreases |cs|
  {
    var r := Batches(cs, size);
    if |cs| > size {
      BatchSlices(cs[size..], size);
      var rest := Batches(cs[size..], size);
      assert r == [cs[..size]] + rest;
      forall k | 0 <= k < |r|
        ensures k * size < |cs| && r[k] == Slice(cs, size, k)
      {
        if k > 0 {
          SliceAt(cs, size, k);
        }
      }
    } else if |cs| > 0 {
      assert r == [cs];
    }
  }

  lemma {:induction false} SliceAt(cs: seq<Cue>, size: nat, k: nat)
    requires size >= 1 && |cs| > size && k >= 1
    requires (k - 1) * size < |cs| - size
    ensures k * size < |cs| && Slice(cs[size..], size, k - 1) == Slice(cs, size, k)
  {
    var a := (k - 1) * size;
    assert a + size == k * size;
    ShiftSlice(cs, size, a);
  }

  lemma {:induction false} ShiftSlice(cs: seq<Cue>, size: nat, a: nat)
    requires size <= |cs| && a < |cs| - size
    ensures cs[size..][a..Min(|cs| - size, a + size)] == cs[a + size..Min(|cs|, a + size + size)]
  {
    var e := Min(|cs| - size, a + size);
    assert e + size == Min(|cs|, a + size + size);
    var u := cs[size..][a..e];
    var v := cs[a + size..e + size];
    assert |u| == |v|;
    forall i | 0 <= i < |u|
      ensures u[i] == v[i]
    {
      assert u[i] == cs[size + a + i] == v[i];
    }
  }

  /** `c * a < c * b` with `c` positive means `a < b`. */
  lemma MulLess(c: int, a: int, b: int)
    requires c > 0 && c * a < c * b
    ensures a < b
  {
  }

  lemma DivBounds(a: nat, d: nat)
    requires d >= 1
    ensures d * (a / d) <= a < d * (a / d) + d
  {
  }

  /** The number of batches is the ceiling of cues over batch size. */
  lemma {:induction false} BatchCount(cs: seq<Cue>, size: nat)
    requires size >= 1
    ensures |Batches(cs, size)| == (|cs| + size - 1) / size
  {
    var n, count := |cs|, |Batches(cs, size)|;
    var q := (n + size - 1) / size;
    DivBounds(n + size - 1, size);
    if count > 0 {
      assert (count - 1) * size == size * count - size;
      MulLess(size, q, count + 1);
      MulLess(size, count - 1, q);
    } else {
      MulLess(size, q, 1);
    }
  }

  /** The batches laid end to end. */
  function Flatten(bs: seq<seq<Cue>>): (r: seq<Cue>)
    decreases |bs|
  {
    if |bs| == 0 then [] else bs[0] + Flatten(bs[1..])
  }

  lemma {:induction false} FlattenSnoc(bs: seq<seq<Cue>>, b: seq<Cue>)
    ensures Flatten(bs + [b]) == Flatten(bs) + b
    decreases |bs|
  {
    if |bs| == 0 {
      assert [b][1..] == [];
    } else {
      assert (bs + [b])[1..] == bs[1..] + [b];
      FlattenSnoc(bs[1..], b);
    }
  }

  /** Nothing is lost or reordered: the batches concatenate back to the
      input, and none is empty or longer than the batch size. */
  lemma {:induction false} BatchesCover(cs: seq<Cue>, size: nat)
    requires size >= 1
    ensures Flatten(Batches(cs, size)) == cs
    ensures forall k :: 0 <= k < |Batches(cs, size)| ==> 0 < |Batches(cs, size)[k]| <= size
    decreases |cs|
  {
    var bs := Batches(cs, size);
    if |cs| > size {
      BatchesCover(cs[size..], size);
      assert bs == [cs[..size]] + Batches(cs[size..], size);
      assert cs == cs[..size] + cs[size..];
    } else if |cs| > 0 {
      assert bs == [cs] && bs[1..] == [];
    }
  }

  /* ------------------------------------------------------------ merge */

  /** Every field but the text, the original text and the error flag. */
  predicate SameCue(a: Cue, b: Cue) {
    a.(text := b.text, originalText := b.originalText, error := b.error) == b
  }

  /** The cue a successful batch puts out at `index`: the original text
      saved, the translation taken when there is a non-empty one. */
  function Merge(c: Cue, ts: seq<string>, index: nat): (r: Cue)
    ensures SameCue(r, c) && r.error == c.error && r.originalText == Some(c.text)
    ensures r.text == c.text || (index < |ts| && r.text == ts[index])
    ensures index < |ts| && ts[index] != "" ==> r.text == ts[index]
  {
    c.(originalText := Some(c.text), text := if index < |ts| && ts[index] != "" then ts[index] else c.text)
  }

  /** The cue a failed batch puts out: the original text saved and kept,
      the error flag set. */
  function Flag(c: Cue): (r: Cue)
    ensures SameCue(r, c) && r.text == c.text && r.originalText == Some(c.text) && r.error
  {
    c.(originalText := Some(c.text), error := true)
  }

  /** The cue at position `index` of a batch once its call is back. */
  function Apply(c: Cue, index: nat, out: Outcome): (r: Cue)
    ensures SameCue(r, c) && r.originalText == Some(c.text)
    ensures out.Threw? ==> r.error && r.text == c.text
    ensures out.Translated? ==> r.error == c.error && (r.text == c.text || (index < |out.texts| && r.text == out.texts[index]))
  {
    match out
    case Translated(ts) => Merge(c, ts, index)
    case Threw(_) => Flag(c)
  }

  /** A batch's cues after its call, in order. */
  function Settle(batch: seq<Cue>, out: Outcome): (r: seq<Cue>)
    ensures |r| == |batch|
    ensures forall i :: 0 <= i < |batch| ==> r[i] == Apply(batch[i], i, out)
  {
    seq(|batch|, i requires 0 <= i < |batch| => Apply(batch[i], i, out))
  }

  /** The texts sent for a batch. */
  function Texts(batch: seq<Cue>): (r: seq<string>)
    ensures |r| == |batch|
    ensures forall i :: 0 <= i < |batch| ==> r[i] == batch[i].text
  {
    seq(|batch|, i requires 0 <= i < |batch| => batch[i].text)
  }

  /* --------------------------------------------------------- progress */

  /** `Math.round(ok / count * 100)` in exact arithmetic: half rounds up. */
  function Percent(ok: nat, count: nat): (p: nat)
    requires count >= 1
  {
    (200 * ok + count) / (2 * count)
  }

  /** The percentage is the integer nearest `100 * ok / count`, halves
      going up. */
  lemma {:induction false} PercentRounds(ok: nat, count: nat)
    requires count >= 1
    ensures 2 * count * Percent(ok, count) <= 200 * ok + count < 2 * count * (Percent(ok, count) + 1)
  {
    DivBounds(200 * ok + count, 2 * count);
  }

  /** One more success never lowers the percentage. */
  lemma {:induction false} PercentGrows(ok: nat, count: nat)
    requires count >= 1
    ensures Percent(ok, count) <= Percent(ok + 1, count)
  {
    PercentRounds(ok, count);
    PercentRounds(ok + 1, count);
    MulLess(2 * count, Percent(ok, count), Percent(ok + 1, count) + 1);
  }

  /** The percentage stays at or below 100, and is 100 when every batch
      succeeded. */
  lemma {:induction false} PercentBounded(ok: nat, count: nat)
    requires count >= 1 && ok <= count
    ensures Percent(ok, count) <= 100
    ensures ok == count ==> Percent(ok, count) == 100
  {
    var p := Percent(ok, count);
    PercentRounds(ok, count);
    assert 200 * ok + count <= 2 * count * 100 + count;
    MulLess(2 * count, p, 101);
    if ok == count {
      MulLess(2 * count, 99, p);
    }
  }

  /** A failed batch keeps the percentage below 100 exactly while there are
      fewer than 200 batches: from 200 on, all but one success already
      rounds to 100. */
  lemma {:induction false} PercentShort(ok: nat, count: nat)
    requires ok < count
    ensures count < 200 ==> Percent(ok, count) < 100
    ensures count >= 200 ==> Percent(count - 1, count) == 100
  {
    if count < 200 {
      var p := Percent(ok, count);
      PercentRounds(ok, count);
      assert 200 * ok + count < 2 * count * 100;
      MulLess(2 * count, p, 100);
    } else {
      var p := Percent(count - 1, count);
      PercentRounds(count - 1, count);
      PercentBounded(count - 1, count);
      assert 2 * count * 100 <= 200 * (count - 1) + count;
      MulLess(2 * count, 100, p + 1);
    }
  }

  /* ------------------------------------------------------------- loop */

  /** What the loop has built after some batches: the cues pushed, the
      events written, the texts of each call made, and how many calls
      succeeded. */
  datatype Run = Run(translated: seq<Cue>, events: seq<Event>, calls: seq<seq<string>>, ok: nat)

  /** One turn of the loop: call the capability with the batch's texts, push
      the batch's cues, and after a success write a progress event. */
  function Turn(st: Run, batch: seq<Cue>, out: Outcome, count: nat, total: nat): (r: Run)
    requires count >= 1
    ensures r.calls == st.calls + [Texts(batch)]
    ensures r.translated == st.translated + Settle(batch, out)
    ensures out.Threw? ==> r.events == st.events && r.ok == st.ok
    ensures out.Translated? ==>
      (r.ok == st.ok + 1 && r.events == st.events + [Progress(Percent(st.ok + 1, count), |r.translated|, total)])
  {
    var calls := st.calls + [Texts(batch)];
    var translated := st.translated + Settle(batch, out);
    match out
    case Translated(_) => Run(translated, st.events + [Progress(Percent(st.ok + 1, count), |translated|, total)], calls, st.ok + 1)
    case Threw(_) => Run(translated, st.events, calls, st.ok)
  }

  /** The outcome of the call for batch `k`. */
  function Call(cap: (nat, seq<string>) -> Outcome, bs: seq<seq<Cue>>, k: nat): Outcome
    requires k < |bs|
  {
    cap(k, Texts(bs[k]))
  }

  /** The loop after its first `n` batches. */
  function After(bs: seq<seq<Cue>>, n: nat, cap: (nat, seq<string>) -> Outcome, total: nat): (r: Run)
    requires n <= |bs|
    decreases n
  {
    if n == 0 then Run([], [], [], 0)
    else Turn(After(bs, n - 1, cap, total), bs[n - 1], Call(cap, bs, n - 1), |bs|, total)
  }

  /** The settled batches, one per call, in batch order. */
  function Settled(bs: seq<seq<Cue>>, n: nat, cap: (nat, seq<string>) -> Outcome): (r: seq<seq<Cue>>)
    requires n <= |bs|
    ensures |r| == n
    ensures forall k :: 0 <= k < n ==> r[k] == Settle(bs[k], Call(cap, bs, k))
  {
    seq(n, k requires 0 <= k < n => Settle(bs[k], Call(cap, bs, k)))
  }

  /** The capability is called once per batch, in batch order, with that
      batch's texts; the pushed cues are the settled batches end to end. */
  lemma {:induction false} AfterCalls(bs: seq<seq<Cue>>, n: nat, cap: (nat, seq<string>) -> Outcome, total: nat)
    requires n <= |bs|
    ensures |After(bs, n, cap, total).calls| == n
    ensures forall k :: 0 <= k < n ==> After(bs, n, cap, total).calls[k] == Texts(bs[k])
    ensures After(bs, n, cap, total).translated == Flatten(Settled(bs, n, cap))
    decreases n
  {
    if n > 0 {
      AfterCalls(bs, n - 1, cap, total);
      assert Settled(bs, n, cap) == Settled(bs, n - 1, cap) + [Settle(bs[n - 1], Call(cap, bs, n - 1))];
      FlattenSnoc(Settled(bs, n - 1, cap), Settle(bs[n - 1], Call(cap, bs, n - 1)));
    }
  }

  /** How many of the first `n` calls succeeded. */
  function OkCount(bs: seq<seq<Cue>>, n: nat, cap: (nat, seq<string>) -> Outcome): (r: nat)
    requires n <= |bs|
    ensures r <= n
  {
    if n == 0 then 0 else OkCount(bs, n - 1, cap) + (if Call(cap, bs, n - 1).Translated? then 1 else 0)
  }

  /** The events written so far: one progress event per successful call,
      each carrying the cue total and a percentage no higher than that of
      the calls that succeeded; `completed` strictly grows and `progress`
      never falls; the last one carries the current percentage. */
  predicate ProgressSoFar(st: Run, count: nat, total: nat)
    requires count >= 1
  {
    && |st.events| == st.ok
    && (forall j :: 0 <= j < |st.events| ==>
          (st.events[j].Progress? && st.events[j].total == total
           && st.events[j].progress <= Percent(st.ok, count) && st.events[j].completed <= |st.translated|))
    && (forall j, j' :: 0 <= j < j' < |st.events| ==>
          (st.events[j].completed < st.events[j'].completed && st.events[j].progress <= st.events[j'].progress))
    && (|st.events| > 0 ==> st.events[|st.events| - 1].progress == Percent(st.ok, count))
  }

  /** Each turn keeps the progress invariant, batches being non-empty. */
  lemma {:induction false} TurnProgress(st: Run, batch: seq<Cue>, out: Outcome, count: nat, total: nat)
    requires count >= 1 && |batch| > 0
    requires ProgressSoFar(st, count, total)
    ensures ProgressSoFar(Turn(st, batch, out, count, total), count, total)
  {
    PercentGrows(st.ok, count);
    var r := Turn(st, batch, out, count, total);
    if out.Translated? {
      assert |r.translated| > |st.translated|;
      forall j | 0 <= j < |r.events|
        ensures r.events[j].Progress? && r.events[j].total == total
          && r.events[j].progress <= Percent(r.ok, count) && r.events[j].completed <= |r.translated|
      {
        if j < |st.events| {
          assert r.events[j] == st.events[j];
        }
      }
      forall j, j' | 0 <= j < j' < |r.events|
        ensures r.events[j].completed < r.events[j'].completed && r.events[j].progress <= r.events[j'].progress
      {
        assert r.events[j] == st.events[j];
        if j' < |st.events| {
          assert r.events[j'] == st.events[j'];
        }
      }
    }
  }

  /** The progress invariant holds after every number of batches, and the
      progress events count the successful calls. */
  lemma {:induction false} AfterProgress(bs: seq<seq<Cue>>, n: nat, cap: (nat, seq<string>) -> Outcome, total: nat)
    requires 1 <= |bs| && n <= |bs|
    requires forall k :: 0 <= k < |bs| ==> |bs[k]| > 0
    ensures ProgressSoFar(After(bs, n, cap, total), |bs|, total)
    ensures After(bs, n, cap, total).ok == OkCount(bs, n, cap)
    decreases n
  {
    if n > 0 {
      AfterProgress(bs, n - 1, cap, total);
      TurnProgress(After(bs, n - 1, cap, total), bs[n - 1], Call(cap, bs, n - 1), |bs|, total);
    }
  }

  /** When every call succeeds, so does the count. */
  lemma {:induction false} AllOk(bs: seq<seq<Cue>>, n: nat, cap: (nat, seq<string>) -> Outcome)
    requires n <= |bs|
    requires forall k :: 0 <= k < n ==> Call(cap, bs, k).Translated?
    ensures OkCount(bs, n, cap) == n
    decreases n
  {
    if n > 0 {
      AllOk(bs, n - 1, cap);
    }
  }

  /** When every call fails, none counts. */
  lemma {:induction false} NoneOk(bs: seq<seq<Cue>>, n: nat, cap: (nat, seq<string>) -> Outcome)
    requires n <= |bs|
    requires forall k :: 0 <= k < n ==> Call(cap, bs, k).Threw?
    ensures OkCount(bs, n, cap) == 0
    decreases n
  {
    if n > 0 {
      NoneOk(bs, n - 1, cap);
    }
  }

  /* ------------------------------------------------------- positions */

  /** In batches of `size` (the last possibly shorter), element `j` of
      batch `k` sits at `k * size + j` of the concatenation. */
  lemma {:induction false} FlattenAt(xs: seq<seq<Cue>>, size: nat, k: nat, j: nat)
    requires forall i :: 0 <= i < |xs| - 1 ==> |xs[i]| == size
    requires k < |xs| && j < |xs[k]|
    ensures k * size + j < |Flatten(xs)| && Flatten(xs)[k * size + j] == xs[k][j]
    decreases k
  {
    if k > 0 {
      FlattenAt(xs[1..], size, k - 1, j);
      assert (k - 1) * size + j + size == k * size + j;
      assert |xs[0]| == size;
    }
  }

  /** The batches all have the batch size but the last. */
  lemma {:induction false} BatchLengths(cs: seq<Cue>, size: nat)
    requires size >= 1
    ensures forall k :: 0 <= k < |Batches(cs, size)| - 1 ==> |Batches(cs, size)[k]| == size
    decreases |cs|
  {
    if |cs| > size {
      BatchLengths(cs[size..], size);
      var r := Batches(cs, size);
      assert r == [cs[..size]] + Batches(cs[size..], size);
      assert forall k :: 1 <= k < |r| ==> r[k] == Batches(cs[size..], size)[k - 1];
    }
  }

  /** The settled batches keep the batch lengths. */
  lemma {:induction false} SettledLengths(bs: seq<seq<Cue>>, cap: (nat, seq<string>) -> Outcome, size: nat)
    requires forall i :: 0 <= i < |bs| - 1 ==> |bs[i]| == size
    ensures forall i :: 0 <= i < |bs| - 1 ==> |Settled(bs, |bs|, cap)[i]| == size
  {
  }

  /* -------------------------------------------------------- the route */

  /** The calls cut the input as the route does: as many as it takes to
      hold the cues at `size` per call, none empty, all full but the last. */
  predicate CutAsRoute(n: nat, size: nat, calls: seq<seq<string>>)
    requires size >= 1
  {
    && |calls| == (n + size - 1) / size
    && forall k :: 0 <= k < |calls| ==> 0 < |calls[k]| <= size && (k < |calls| - 1 ==> |calls[k]| == size)
  }

  /** Text `j` of call `k` is the text of input cue `k * size + j`, and cue
      `k * size + j` of the result is that input cue once call `k` is
      back. */
  predicate SettledByCalls(cs: seq<Cue>, size: nat, cap: (nat, seq<string>) -> Outcome, translated: seq<Cue>, calls: seq<seq<string>>)
  {
    && |translated| == |cs|
    && forall k, j :: 0 <= k < |calls| && 0 <= j < |calls[k]| ==> SettledAt(cs, size, cap, translated, calls, k, j)
  }

  /** Position `j` of call `k`, as `SettledByCalls` states it. */
  predicate SettledAt(cs: seq<Cue>, size: nat, cap: (nat, seq<string>) -> Outcome, translated: seq<Cue>, calls: seq<seq<string>>, k: nat, j: nat)
    requires k < |calls| && j < |calls[k]|
  {
    && k * size + j < |cs| && k * size + j < |translated| && calls[k][j] == cs[k * size + j].text
    && translated[k * size + j] == Apply(cs[k * size + j], j, cap(k, calls[k]))
  }

  /** The event stream: progress events, one per successful call, each
      carrying the cue total and at most 100 percent, `completed` strictly
      growing and `progress` never falling; then the one completion event
      carrying the result. */
  predicate Streams(events: seq<Event>, oks: nat, total: nat, translated: seq<Cue>) {
    && |events| == oks + 1 && events[|events| - 1] == Complete(translated)
    && (forall j :: 0 <= j < |events| - 1 ==> (events[j].Progress? && events[j].total == total && events[j].progress <= 100))
    && (forall j, j' :: 0 <= j < j' < |events| - 1 ==>
         (events[j].completed < events[j'].completed && events[j].progress <= events[j'].progress))
  }

  /** The batch loop and the completion event after it, for a positive
      batch size. The capability is called once per batch, in order, with
      the texts of `cs[k * size..k * size + size]`; cue `k * size + j` of the
      result is input cue `k * size + j` with its original text saved and
      either the translation merged or the error flag set, every other field
      unchanged. Progress events, one per successful call, precede the one
      completion event, which carries the result. */
  method TranslateAll(cs: seq<Cue>, size: nat, cap: (nat, seq<string>) -> Outcome)
    returns (translated: seq<Cue>, events: seq<Event>, calls: seq<seq<string>>)
    requires size >= 1
    ensures CutAsRoute(|cs|, size, calls)
    ensures SettledByCalls(cs, size, cap, translated, calls)
    ensures forall i :: 0 <= i < |cs| ==> SameCue(translated[i], cs[i]) && translated[i].originalText == Some(cs[i].text)
    ensures Streams(events, OkCount(Batches(cs, size), |Batches(cs, size)|, cap), |cs|, translated)
    ensures (forall k :: 0 <= k < |calls| ==> cap(k, calls[k]).Translated?) ==>
      (|events| == |calls| + 1 && (|calls| > 0 ==> events[|events| - 2].Progress? && events[|events| - 2].progress == 100))
    ensures (forall k :: 0 <= k < |calls| ==> cap(k, calls[k]).Threw?) ==> events == [Complete(translated)]
    ensures |calls| > 0 && cap(|calls| - 1, calls[|calls| - 1]).Translated? ==>
      |events| >= 2 && events[|events| - 2].Progress? && events[|events| - 2].completed == |cs|
  {
    var bs := Batches(cs, size);
    var st := Run([], [], [], 0);
    var k := 0;
    while k < |bs|
      invariant k <= |bs|
      invariant st == After(bs, k, cap, |cs|)
    {
      st := Turn(st, bs[k], cap(k, Texts(bs[k])), |bs|, |cs|);
      k := k + 1;
    }
    translated, calls := st.translated, st.calls;
    events := st.events + [Complete(translated)];
    assert CutAsRoute(|cs|, size, calls) by {
      CallsOfRun(cs, size, cap, st);
    }
    assert SettledByCalls(cs, size, cap, translated, calls) by {
      CuesOfRun(cs, size, cap, st);
    }
    assert forall i :: 0 <= i < |cs| ==> SameCue(translated[i], cs[i]) && translated[i].originalText == Some(cs[i].text) by {
      FieldsOfRun(cs, size, cap, st);
    }
    assert Streams(events, OkCount(bs, |bs|, cap), |cs|, translated) by {
      EventsOfRun(cs, size, cap, st);
    }
    RunEnds(cs, size, cap, st, events);
  }

  /** The stream's tail in the three cases the route's callers distinguish. */
  lemma {:induction false} RunEnds(cs: seq<Cue>, size: nat, cap: (nat, seq<string>) -> Outcome, st: Run, events: seq<Event>)
    requires size >= 1
    requires st == After(Batches(cs, size), |Batches(cs, size)|, cap, |cs|)
    requires events == st.events + [Complete(st.translated)]
    ensures (forall k :: 0 <= k < |st.calls| ==> cap(k, st.calls[k]).Translated?) ==>
      (|events| == |st.calls| + 1 && (|st.calls| > 0 ==> events[|events| - 2].Progress? && events[|events| - 2].progress == 100))
    ensures (forall k :: 0 <= k < |st.calls| ==> cap(k, st.calls[k]).Threw?) ==> events == [Complete(st.translated)]
    ensures |st.calls| > 0 && cap(|st.calls| - 1, st.calls[|st.calls| - 1]).Translated? ==>
      |events| >= 2 && events[|events| - 2].Progress? && events[|events| - 2].completed == |cs|
  {
    if forall k :: 0 <= k < |st.calls| ==> cap(k, st.calls[k]).Translated? {
      AllSucceeded(cs, size, cap, st);
    }
    if forall k :: 0 <= k < |st.calls| ==> cap(k, st.calls[k]).Threw? {
      AllFailed(cs, size, cap, st);
    }
    if |st.calls| > 0 && cap(|st.calls| - 1, st.calls[|st.calls| - 1]).Translated? {
      LastCompletes(cs, size, cap, st);
    }
  }

  lemma {:induction false} CallsOfRun(cs: seq<Cue>, size: nat, cap: (nat, seq<string>) -> Outcome, st: Run)
    requires size >= 1
    requires st == After(Batches(cs, size), |Batches(cs, size)|, cap, |cs|)
    ensures |st.calls| == |Batches(cs, size)|
    ensures CutAsRoute(|cs|, size, st.calls)
  {
    var bs := Batches(cs, size);
    AfterCalls(bs, |bs|, cap, |cs|);
    BatchesCover(cs, size);
    BatchCount(cs, size);
    BatchLengths(cs, size);
  }

  lemma {:induction false} CuesOfRun(cs: seq<Cue>, size: nat, cap: (nat, seq<string>) -> Outcome, st: Run)
    requires size >= 1
    requires st == After(Batches(cs, size), |Batches(cs, size)|, cap, |cs|)
    ensures SettledByCalls(cs, size, cap, st.translated, st.calls)
  {
    var bs := Batches(cs, size);
    AfterCalls(bs, |bs|, cap, |cs|);
    BatchesCover(cs, size);
    BatchLengths(cs, size);
    SettledLengths(bs, cap, size);
    Positions(cs, bs, Settled(bs, |bs|, cap), size, cap, st.translated, st.calls);
  }

  /** The concatenations position by position. */
  lemma {:induction false} Positions(cs: seq<Cue>, bs: seq<seq<Cue>>, settled: seq<seq<Cue>>, size: nat,
                                     cap: (nat, seq<string>) -> Outcome, translated: seq<Cue>, calls: seq<seq<string>>)
    requires Flatten(bs) == cs && Flatten(settled) == translated
    requires |settled| == |bs| == |calls|
    requires forall k :: 0 <= k < |bs| ==> calls[k] == Texts(bs[k]) && settled[k] == Settle(bs[k], cap(k, calls[k]))
    requires forall i :: 0 <= i < |bs| - 1 ==> |bs[i]| == size
    ensures SettledByCalls(cs, size, cap, translated, calls)
  {
    FlattenLength(bs, settled);
    forall k, j | 0 <= k < |calls| && 0 <= j < |calls[k]|
      ensures SettledAt(cs, size, cap, translated, calls, k, j)
    {
      PositionAt(cs, bs, settled, size, cap, translated, calls, k, j);
    }
  }

  lemma {:induction false} PositionAt(cs: seq<Cue>, bs: seq<seq<Cue>>, settled: seq<seq<Cue>>, size: nat,
                                      cap: (nat, seq<string>) -> Outcome, translated: seq<Cue>, calls: seq<seq<string>>,
                                      k: nat, j: nat)
    requires Flatten(bs) == cs && Flatten(settled) == translated
    requires |settled| == |bs| == |calls|
    requires forall k :: 0 <= k < |bs| ==> calls[k] == Texts(bs[k]) && settled[k] == Settle(bs[k], cap(k, calls[k]))
    requires forall i :: 0 <= i < |bs| - 1 ==> |bs[i]| == size
    requires k < |calls| && j < |calls[k]|
    ensures SettledAt(cs, size, cap, translated, calls, k, j)
  {
    assert calls[k] == Texts(bs[k]) && settled[k] == Settle(bs[k], cap(k, calls[k]));
    CueAt(bs, settled, size, k, j);
  }

  /** One position of the concatenations. */
  lemma {:induction false} CueAt(bs: seq<seq<Cue>>, settled: seq<seq<Cue>>, size: nat, k: nat, j: nat)
    requires |settled| == |bs| && k < |bs| && j < |bs[k]|
    requires forall i :: 0 <= i < |bs| - 1 ==> |bs[i]| == size
    requires forall i :: 0 <= i < |bs| ==> |settled[i]| == |bs[i]|
    ensures k * size + j < |Flatten(bs)| && k * size + j < |Flatten(settled)|
    ensures Flatten(bs)[k * size + j] == bs[k][j] && Flatten(settled)[k * size + j] == settled[k][j]
  {
    FlattenAt(bs, size, k, j);
    FlattenAt(settled, size, k, j);
  }

  /** Concatenations of equally long parts are equally long. */
  lemma {:induction false} FlattenLength(xs: seq<seq<Cue>>, ys: seq<seq<Cue>>)
    requires |xs| == |ys| && forall k :: 0 <= k < |xs| ==> |xs[k]| == |ys[k]|
    ensures |Flatten(xs)| == |Flatten(ys)|
    decreases |xs|
  {
    if |xs| > 0 {
      FlattenLength(xs[1..], ys[1..]);
    }
  }

  lemma {:induction false} FieldsOfRun(cs: seq<Cue>, size: nat, cap: (nat, seq<string>) -> Outcome, st: Run)
    requires size >= 1
    requires st == After(Batches(cs, size), |Batches(cs, size)|, cap, |cs|)
    ensures |st.translated| == |cs|
    ensures forall i :: 0 <= i < |cs| ==> SameCue(st.translated[i], cs[i]) && st.translated[i].originalText == Some(cs[i].text)
  {
    var bs := Batches(cs, size);
    AfterCalls(bs, |bs|, cap, |cs|);
    BatchesCover(cs, size);
    SettledPrefix(bs, |bs|, cap);
    assert bs[..|bs|] == bs;
  }

  lemma {:induction false} EventsOfRun(cs: seq<Cue>, size: nat, cap: (nat, seq<string>) -> Outcome, st: Run)
    requires size >= 1
    requires st == After(Batches(cs, size), |Batches(cs, size)|, cap, |cs|)
    ensures Streams(st.events + [Complete(st.translated)], OkCount(Batches(cs, size), |Batches(cs, size)|, cap), |cs|, st.translated)
  {
    var bs := Batches(cs, size);
    var events := st.events + [Complete(st.translated)];
    if |bs| > 0 {
      BatchesCover(cs, size);
      AfterProgress(bs, |bs|, cap, |cs|);
      PercentBounded(st.ok, |bs|);
      assert forall j :: 0 <= j < |events| - 1 ==> events[j] == st.events[j];
    } else {
      assert st.events == [];
    }
  }

  /** When every call succeeds there is a progress event per call, the
      last at 100 percent. */
  lemma {:induction false} AllSucceeded(cs: seq<Cue>, size: nat, cap: (nat, seq<string>) -> Outcome, st: Run)
    requires size >= 1
    requires st == After(Batches(cs, size), |Batches(cs, size)|, cap, |cs|)
    requires forall k :: 0 <= k < |st.calls| ==> cap(k, st.calls[k]).Translated?
    ensures |st.events| == |st.calls|
    ensures |st.calls| > 0 ==> st.events[|st.events| - 1].Progress? && st.events[|st.events| - 1].progress == 100
  {
    var bs := Batches(cs, size);
    AfterCalls(bs, |bs|, cap, |cs|);
    if |bs| > 0 {
      assert forall k :: 0 <= k < |bs| ==> |bs[k]| > 0 by {
        BatchesCover(cs, size);
      }
      assert forall k :: 0 <= k < |bs| ==> Call(cap, bs, k).Translated? by {
        forall k | 0 <= k < |bs|
          ensures Call(cap, bs, k).Translated?
        {
          assert st.calls[k] == Texts(bs[k]);
          assert cap(k, st.calls[k]).Translated?;
        }
      }
      FullProgress(bs, cap, |cs|);
    }
  }

  /** When every call succeeds there is one progress event per call and
      the last one reports 100 percent. */
  lemma {:induction false} FullProgress(bs: seq<seq<Cue>>, cap: (nat, seq<string>) -> Outcome, total: nat)
    requires 1 <= |bs|
    requires forall k :: 0 <= k < |bs| ==> |bs[k]| > 0
    requires forall k :: 0 <= k < |bs| ==> Call(cap, bs, k).Translated?
    ensures var st := After(bs, |bs|, cap, total);
      |st.events| == |bs| && st.events[|bs| - 1].Progress? && st.events[|bs| - 1].progress == 100
  {
    var st := After(bs, |bs|, cap, total);
    AfterProgress(bs, |bs|, cap, total);
    AllOk(bs, |bs|, cap);
    PercentBounded(st.ok, |bs|);
  }

  /** When the last call succeeds, the last progress event reports every
      cue as completed, those of failed batches included. */
  lemma {:induction false} LastCompletes(cs: seq<Cue>, size: nat, cap: (nat, seq<string>) -> Outcome, st: Run)
    requires size >= 1
    requires st == After(Batches(cs, size), |Batches(cs, size)|, cap, |cs|)
    requires |st.calls| > 0 && cap(|st.calls| - 1, st.calls[|st.calls| - 1]).Translated?
    ensures |st.events| > 0 && st.events[|st.events| - 1].Progress? && st.events[|st.events| - 1].completed == |cs|
  {
    var bs := Batches(cs, size);
    AfterCalls(bs, |bs|, cap, |cs|);
    FieldsOfRun(cs, size, cap, st);
    var n := |bs|;
    assert Call(cap, bs, n - 1) == cap(n - 1, st.calls[n - 1]);
    assert st == Turn(After(bs, n - 1, cap, |cs|), bs[n - 1], Call(cap, bs, n - 1), n, |cs|);
  }

  /** When every call fails there is no progress event. */
  lemma {:induction false} AllFailed(cs: seq<Cue>, size: nat, cap: (nat, seq<string>) -> Outcome, st: Run)
    requires size >= 1
    requires st == After(Batches(cs, size), |Batches(cs, size)|, cap, |cs|)
    requires forall k :: 0 <= k < |st.calls| ==> cap(k, st.calls[k]).Threw?
    ensures st.events == []
  {
    var bs := Batches(cs, size);
    AfterCalls(bs, |bs|, cap, |cs|);
    if |bs| > 0 {
      assert |st.events| == OkCount(bs, |bs|, cap) by {
        BatchesCover(cs, size);
        AfterProgress(bs, |bs|, cap, |cs|);
      }
      assert forall k :: 0 <= k < |bs| ==> Call(cap, bs, k) == cap(k, st.calls[k]);
      NoneOk(bs, |bs|, cap);
    }
  }

  /** Cue by cue, the settled batches end to end agree with the input on
      every field but the text, the original text and the error flag, and
      save the input's text. */
  lemma {:induction false} SettledPrefix(bs: seq<seq<Cue>>, n: nat, cap: (nat, seq<string>) -> Outcome)
    requires n <= |bs|
    ensures |Flatten(Settled(bs, n, cap))| == |Flatten(bs[..n])|
    ensures forall i :: 0 <= i < |Flatten(bs[..n])| ==>
      (SameCue(Flatten(Settled(bs, n, cap))[i], Flatten(bs[..n])[i])
       && Flatten(Settled(bs, n, cap))[i].originalText == Some(Flatten(bs[..n])[i].text))
    decreases n
  {
    if n > 0 {
      SettledPrefix(bs, n - 1, cap);
      var last := Settle(bs[n - 1], Call(cap, bs, n - 1));
      var before := Settled(bs, n - 1, cap);
      assert Settled(bs, n, cap) == before + [last];
      FlattenSnoc(before, last);
      assert bs[..n] == bs[..n - 1] + [bs[n - 1]];
      FlattenSnoc(bs[..n - 1], bs[n - 1]);
      KeptConcat(Flatten(before), Flatten(bs[..n - 1]), last, bs[n - 1]);
    } else {
      assert bs[..0] == [];
    }
  }

  /** Cue-wise agreement on every field but the text, the original text
      saved, survives concatenation. */
  lemma {:induction false} KeptConcat(a: seq<Cue>, b: seq<Cue>, x: seq<Cue>, y: seq<Cue>)
    requires |a| == |b| && |x| == |y|
    requires forall i :: 0 <= i < |b| ==> SameCue(a[i], b[i]) && a[i].originalText == Some(b[i].text)
    requires forall i :: 0 <= i < |y| ==> SameCue(x[i], y[i]) && x[i].originalText == Some(y[i].text)
    ensures forall i :: 0 <= i < |b + y| ==> SameCue((a + x)[i], (b + y)[i]) && (a + x)[i].originalText == Some((b + y)[i].text)
  {
    forall i | 0 <= i < |b + y|
      ensures SameCue((a + x)[i], (b + y)[i]) && (a + x)[i].originalText == Some((b + y)[i].text)
    {
      if i >= |b| {
        assert (a + x)[i] == x[i - |b|] && (b + y)[i] == y[i - |b|];
      } else {
        assert (a + x)[i] == a[i] && (b + y)[i] == b[i];
      }
    }
  }

  /* ------------------------------------------------------- the handlers */

  /** What the batch route answers: a rejection before any call, or the
      event stream with the calls it made. */
  datatype Reply = Rejected(rejection: Rejection) | Streamed(events: seq<Event>, calls: seq<seq<string>>)

  /** The batch size a request asks for, 10 when it names none. */
  function SizeOf(req: Request): nat {
    if req.batchSize.Some? then req.batchSize.value else 10
  }

  /** `POST /`: a request missing a required field or naming an unknown
      provider is rejected with status 400 and no call is made; otherwise
      the loop runs over the request's cues and its events are streamed. A
      zero batch size is excluded, as the route's loop never ends on it. */
  method Handle(req: Request, cap: (nat, seq<string>) -> Outcome) returns (reply: Reply)
    requires req.batchSize != Some(0)
    ensures reply.Rejected? <==> !(Present(req) && req.provider in Providers)
    ensures reply.Rejected? ==> Some(reply.rejection) == Validate(Present(req), req.provider)
    ensures reply.Streamed? ==>
      (&& |reply.events| >= 1 && reply.events[|reply.events| - 1].Complete?
       && CutAsRoute(|req.subtitles.value|, SizeOf(req), reply.calls)
       && SettledByCalls(req.subtitles.value, SizeOf(req), cap, reply.events[|reply.events| - 1].subtitles, reply.calls)
       && Streams(reply.events, OkCount(Batches(req.subtitles.value, SizeOf(req)), |Batches(req.subtitles.value, SizeOf(req))|, cap),
                  |req.subtitles.value|, reply.events[|reply.events| - 1].subtitles))
  {
    var rejection := Validate(Present(req), req.provider);
    if rejection.Some? {
      return Rejected(rejection.value);
    }
    var translated, events, calls := TranslateAll(req.subtitles.value, SizeOf(req), cap);
    return Streamed(events, calls);
  }

  /** The body fields the single-text route reads. */
  datatype SingleRequest = SingleRequest(text: string, sourceLanguage: string, targetLanguage: string, model: string, provider: string)

  /** What one `translateSingle` call comes back with. */
  datatype SingleOutcome = Done(translated: string) | Raised(message: string)

  /** What the single-text route answers. */
  datatype SingleReply = Answer(translated: string) | Error(status: nat, error: string)

  /** The single-text route's required fields. */
  predicate SinglePresent(req: SingleRequest) {
    req.text != "" && req.targetLanguage != "" && req.model != "" && req.provider != ""
  }

  /** `POST /single`: after the same validation as the batch route, the
      call's translation is the answer, and a failed call is answered with
      status 500 and its message; there is no cue to flag. */
  function Single(req: SingleRequest, call: SingleOutcome): (r: SingleReply)
    ensures !(SinglePresent(req) && req.provider in Providers) ==>
      r == Error(400, Validate(SinglePresent(req), req.provider).value.error)
    ensures SinglePresent(req) && req.provider in Providers ==>
      (call.Raised? <==> r.Error?) && (r.Error? ==> r == Error(500, call.message))
      && (r.Answer? ==> r.translated == call.translated)
  {
    match Validate(SinglePresent(req), req.provider)
    case Some(rejection) => Error(rejection.status, rejection.error)
    case None =>
      match call
      case Done(t) => Answer(t)
      case Raised(m) => Error(500, m)
  }
}
