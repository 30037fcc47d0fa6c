/** The blank-line block splitter, `content.split(/\n\s*\n/)`, shared by the
    SRT, WebVTT, SubViewer and SBV decoders, and the fact that makes their
    round trips work: joining blank-line-free blocks with an empty line and
    splitting again gives the blocks back. */
module Blocks {
  import opened Text

  /** Largest index below `n` holding a line feed, if any. */
  function LastNewline(s: string, n: nat): (r: Option<nat>)
    requires n <= |s|
    ensures r.Some? ==> r.value < n && s[r.value] == '\n'
    ensures r.Some? ==> forall k :: r.value < k < n ==> s[k] != '\n'
    ensures r.None? ==> forall k :: 0 <= k < n ==> s[k] != '\n'
  {
    if n == 0 then None else if s[n - 1] == '\n' then Some(n - 1) else LastNewline(s, n - 1)
  }

  /** Length of the match of `\n\s*\n` anchored at the start of `s`: a line
      feed, then the greedy whitespace run cut back to its last line feed. */
  function SeparatorAt(s: string): (r: Option<nat>)
    ensures r.Some? ==> 2 <= r.value <= |s|
    ensures r.Some? ==> s[0] == '\n' && s[r.value - 1] == '\n' && AllSpace(s[..r.value])
    ensures r.None? && |s| > 0 && s[0] == '\n' ==> forall k :: 1 <= k < |s| && s[k] == '\n' ==> !AllSpace(s[1..k])
  {
    if |s| > 0 && s[0] == '\n' then
      var u := s[1..];
      var n := SpaceRun(u);
      match LastNewline(u, n)
      case None =>
        assert forall k :: 1 <= k < |s| && s[k] == '\n' ==> !AllSpace(s[1..k]) by {
          forall k | 1 <= k < |s| && s[k] == '\n'
            ensures !AllSpace(s[1..k])
          {
            if k - 1 >= n {
              assert s[1..k][n] == u[n];
            }
          }
        }
        None
      case Some(k) =>
        assert s[..k + 2] == [s[0]] + u[..n][..k + 1];
        Some(k + 2)
    else None
  }

  /** No position of `t` starts a blank-line separator. */
  predicate NoBlankLine(t: string) {
    forall p :: 0 <= p < |t| ==> SeparatorAt(t[p..]).None?
  }

  /** `s.split(/\n\s*\n/)`: the pieces between successive leftmost separators. */
  function SplitBlank(s: string): (r: seq<string>)
    ensures |r| >= 1
    decreases |s|, 1, 0
  {
    Scan(s, 0)
  }

  /** Splits `s` knowing no separator starts before position `p`. */
  function Scan(s: string, p: nat): (r: seq<string>)
    requires p <= |s|
    ensures |r| >= 1
    decreases |s|, 0, |s| - p
  {
    if p == |s| then [s]
    else
      match SeparatorAt(s[p..])
      case Some(n) => [s[..p]] + SplitBlank(s[p + n..])
      case None => Scan(s, p + 1)
  }

  lemma {:induction false} SpaceRunConcat(a: string, b: string)
    requires SpaceRun(a) < |a|
    ensures SpaceRun(a + b) == SpaceRun(a)
    decreases |a|
  {
    if IsSpace(a[0]) {
      assert (a + b)[1..] == a[1..] + b;
      SpaceRunConcat(a[1..], b);
    }
  }

  lemma {:induction false} LastNewlinePrefix(a: string, b: string, n: nat)
    requires n <= |a|
    ensures LastNewline(a + b, n) == LastNewline(a, n)
    decreases n
  {
    if n > 0 {
      LastNewlinePrefix(a, b, n - 1);
    }
  }

  /** What follows a non-blank last character cannot change a separator match. */
  lemma {:induction false} SeparatorConcat(a: string, b: string)
    requires |a| > 0 && !IsSpace(a[|a| - 1])
    ensures SeparatorAt(a + b) == SeparatorAt(a)
  {
    if a[0] == '\n' {
      var u := a[1..];
      assert (a + b)[1..] == u + b;
      assert u[|u| - 1] == a[|a| - 1];
      assert SpaceRun(u) < |u|;
      SpaceRunConcat(u, b);
      LastNewlinePrefix(u, b, SpaceRun(u));
    }
  }

  lemma {:induction false} NoNewlineNoBlank(t: string)
    requires '\n' !in t
    ensures NoBlankLine(t)
  {
    forall p | 0 <= p < |t|
      ensures SeparatorAt(t[p..]).None?
    {
      assert t[p..][0] == t[p];
    }
  }

  /** Two blank-line-free, trimmed, non-empty strings on consecutive lines are still blank-line free. */
  lemma {:induction false} NoBlankLineJoin(x: string, y: string)
    requires |x| > 0 && |y| > 0 && IsTrimmed(x) && IsTrimmed(y)
    requires NoBlankLine(x) && NoBlankLine(y)
    ensures NoBlankLine(x + "\n" + y)
  {
    var s := x + "\n" + y;
    forall p | 0 <= p < |s|
      ensures SeparatorAt(s[p..]).None?
    {
      if p < |x| {
        assert s[p..] == x[p..] + ("\n" + y);
        assert x[p..][|x[p..]| - 1] == x[|x| - 1];
        SeparatorConcat(x[p..], "\n" + y);
      } else if p == |x| {
        var u := s[p..][1..];
        assert u == y;
        assert SpaceRun(u) == 0;
      } else {
        assert s[p..] == y[p - |x| - 1..];
      }
    }
  }

  /** Scanning a blank-line-free block followed by one empty line stops exactly after the block. */
  lemma {:induction false} ScanBlock(e: string, rest: string, p: nat)
    requires |e| > 0 && IsTrimmed(e) && NoBlankLine(e)
    requires |rest| > 0 && !IsSpace(rest[0])
    requires p <= |e|
    ensures Scan(e + "\n\n" + rest, p) == [e] + SplitBlank(rest)
    decreases |e| - p
  {
    var s := e + "\n\n" + rest;
    if p == |e| {
      ScanStop(e, rest);
    } else {
      assert s == e + ("\n\n" + rest);
      ScanInside(e, "\n\n" + rest, p);
      assert Scan(s, p) == Scan(s, p + 1);
      ScanBlock(e, rest, p + 1);
    }
  }

  /** At the end of the block the empty line is the separator. */
  lemma {:induction false} ScanStop(e: string, rest: string)
    requires |rest| > 0 && !IsSpace(rest[0])
    ensures Scan(e + "\n\n" + rest, |e|) == [e] + SplitBlank(rest)
  {
    var s := e + "\n\n" + rest;
    var p := |e|;
    assert s[p..] == "\n\n" + rest;
    var u := s[p..][1..];
    assert u == "\n" + rest;
    assert u[1..] == rest;
    assert SpaceRun(u) == 1;
    assert SeparatorAt(s[p..]) == Some(2);
    assert s[..p] == e;
    assert s[p + 2..] == rest;
  }

  /** Inside the block no separator starts. */
  lemma {:induction false} ScanInside(e: string, tail: string, p: nat)
    requires |e| > 0 && IsTrimmed(e) && NoBlankLine(e)
    requires p < |e|
    ensures SeparatorAt((e + tail)[p..]).None?
  {
    assert (e + tail)[p..] == e[p..] + tail;
    assert e[p..][|e[p..]| - 1] == e[|e| - 1];
    SeparatorConcat(e[p..], tail);
  }

  lemma {:induction false} ScanLast(e: string, p: nat)
    requires NoBlankLine(e) && p <= |e|
    ensures Scan(e, p) == [e]
    decreases |e| - p
  {
    if p < |e| {
      ScanLast(e, p + 1);
    }
  }

  /** Blocks that are non-empty, trimmed and blank-line free survive being
      joined with an empty line and split again. */
  lemma {:induction false} SplitBlankJoin(es: seq<string>)
    requires |es| >= 1
    requires forall i :: 0 <= i < |es| ==> |es[i]| > 0 && IsTrimmed(es[i]) && NoBlankLine(es[i])
    ensures SplitBlank(Join(es, "\n\n")) == es
    decreases |es|
  {
    if |es| == 1 {
      ScanLast(es[0], 0);
    } else {
      var rest := Join(es[1..], "\n\n");
      JoinFirstChar(es[1..], "\n\n");
      SplitBlankJoin(es[1..]);
      ScanBlock(es[0], rest, 0);
      assert Join(es, "\n\n") == es[0] + "\n\n" + rest;
      assert [es[0]] + es[1..] == es;
    }
  }
}
