/** String primitives shared by every codec: whitespace and trimming,
    splitting on one character, joining, prefixes, decimal digits and
    literal replacement. Each follows the JavaScript `String` operation the
    codecs call, restricted to ASCII: whitespace is the six ASCII characters
    that `\s` and `trim` recognise, and `\d` is `0`..`9`. */
module Text {

  datatype Option<T> = None | Some(value: T)

  /** ASCII whitespace: space, tab, line feed, carriage return, vertical tab, form feed. */
  predicate IsSpace(c: char) {
    c == ' ' || c == '\t' || c == '\n' || c == '\r' || c as int == 11 || c as int == 12
  }

  predicate AllSpace(s: string) {
    forall i :: 0 <= i < |s| ==> IsSpace(s[i])
  }

  /** No whitespace at either end (the empty string is trimmed). */
  predicate IsTrimmed(s: string) {
    |s| == 0 || (!IsSpace(s[0]) && !IsSpace(s[|s| - 1]))
  }

  /** Drops leading whitespace. */
  function TrimStart(s: string): (r: string)
    ensures |r| <= |s|
    ensures |r| == 0 || !IsSpace(r[0])
    ensures |r| > 0 ==> r[|r| - 1] == s[|s| - 1]
  {
    if |s| > 0 && IsSpace(s[0]) then TrimStart(s[1..]) else s
  }

  /** Drops trailing whitespace. */
  function TrimEnd(s: string): (r: string)
    ensures |r| <= |s|
    ensures |r| == 0 || !IsSpace(r[|r| - 1])
    ensures |r| > 0 ==> r[0] == s[0]
  {
    if |s| > 0 && IsSpace(s[|s| - 1]) then TrimEnd(s[..|s| - 1]) else s
  }

  /** `String.prototype.trim`. */
  function Trim(s: string): (r: string)
    ensures IsTrimmed(r)
    ensures |r| <= |s|
  {
    TrimEnd(TrimStart(s))
  }

  /** Trimming drops only whitespace, and only at the ends. */
  lemma {:induction false} TrimStartDrops(s: string)
    ensures var r := TrimStart(s); r == s[|s| - |r|..] && AllSpace(s[..|s| - |r|])
    decreases |s|
  {
    if |s| > 0 && IsSpace(s[0]) {
      TrimStartDrops(s[1..]);
      var r := TrimStart(s[1..]);
      assert s[..|s| - |r|] == [s[0]] + s[1..][..|s[1..]| - |r|];
    }
  }

  lemma {:induction false} TrimEndDrops(s: string)
    ensures var r := TrimEnd(s); r == s[..|r|] && AllSpace(s[|r|..])
    decreases |s|
  {
    if |s| > 0 && IsSpace(s[|s| - 1]) {
      TrimEndDrops(s[..|s| - 1]);
      var r := TrimEnd(s[..|s| - 1]);
      assert s[|r|..] == s[..|s| - 1][|r|..] + [s[|s| - 1]];
    }
  }

  /** `trim` is the string with its whitespace ends removed: the result sits
      between an all-whitespace prefix and an all-whitespace suffix. */
  lemma TrimDrops(s: string)
    ensures exists a ::
      && 0 <= a <= |s| - |Trim(s)| && s[a..a + |Trim(s)|] == Trim(s)
      && AllSpace(s[..a]) && AllSpace(s[a + |Trim(s)|..])
  {
    TrimStartDrops(s);
    var t := TrimStart(s);
    TrimEndDrops(t);
    var r := TrimEnd(t);
    var a := |s| - |t|;
    assert s[a..a + |r|] == r;
    assert s[a + |r|..] == t[|r|..];
  }

  /** Only an all-whitespace string trims to the empty string. */
  lemma TrimEmpty(s: string)
    ensures Trim(s) == "" <==> AllSpace(s)
  {
    TrimStartDrops(s);
    var t := TrimStart(s);
    TrimEndDrops(t);
    if Trim(s) == "" {
      assert s == s[..|s| - |t|] + t;
      assert t[0..] == t;
    } else {
      var r := Trim(s);
      assert s[|s| - |t|] == t[0] == r[0];
    }
  }

  lemma {:induction false} TrimOfTrimmed(s: string)
    requires IsTrimmed(s)
    ensures Trim(s) == s
  {
  }

  /** Trimming a trimmed string followed by whitespace gives the string back. */
  lemma {:induction false} TrimTrailingSpace(s: string, w: string)
    requires IsTrimmed(s) && |s| > 0
    requires AllSpace(w)
    ensures Trim(s + w) == s
    decreases |w|
  {
    assert TrimStart(s + w) == s + w;
    if |w| > 0 {
      var u := s + w;
      assert u[..|u| - 1] == s + w[..|w| - 1];
      TrimTrailingSpace(s, w[..|w| - 1]);
      assert TrimStart(s + w[..|w| - 1]) == s + w[..|w| - 1];
    } else {
      assert s + w == s;
    }
  }

  /** Length of the longest all-whitespace prefix of `s`: what a greedy `\s*` consumes. */
  function SpaceRun(s: string): (n: nat)
    ensures n <= |s|
    ensures AllSpace(s[..n])
    ensures n < |s| ==> !IsSpace(s[n])
  {
    if |s| > 0 && IsSpace(s[0]) then
      var n := 1 + SpaceRun(s[1..]);
      assert s[..n] == [s[0]] + s[1..][..n - 1];
      n
    else 0
  }

  predicate StartsWith(s: string, p: string) {
    |p| <= |s| && s[..|p|] == p
  }

  /** `String.prototype.includes`. */
  predicate Contains(s: string, p: string)
    decreases |s|
  {
    StartsWith(s, p) || (|s| > 0 && Contains(s[1..], p))
  }

  /** Joins parts with a separator, as `Array.prototype.join`. */
  function Join(parts: seq<string>, sep: string): string
  {
    if |parts| == 0 then ""
    else if |parts| == 1 then parts[0]
    else parts[0] + sep + Join(parts[1..], sep)
  }

  /** `String.prototype.split` on one character: the parts hold no separator
      and joining them back with it gives the input. */
  function Split(s: string, c: char): (r: seq<string>)
    ensures |r| >= 1
    ensures forall i :: 0 <= i < |r| ==> c !in r[i]
    ensures Join(r, [c]) == s
    decreases |s|
  {
    if |s| == 0 then [""]
    else
      var rest := Split(s[1..], c);
      if s[0] == c then
        assert ([""] + rest)[1..] == rest;
        [""] + rest
      else
        var r := [[s[0]] + rest[0]] + rest[1..];
        assert r[1..] == rest[1..];
        r
  }

  lemma {:induction false} SplitNoSeparator(s: string, c: char)
    requires c !in s
    ensures Split(s, c) == [s]
    decreases |s|
  {
    if |s| > 0 {
      SplitNoSeparator(s[1..], c);
      assert [s[0]] + s[1..] == s;
    }
  }

  lemma {:induction false} SplitAtFirst(x: string, c: char, y: string)
    requires c !in x
    ensures Split(x + [c] + y, c) == [x] + Split(y, c)
    decreases |x|
  {
    if |x| == 0 {
      assert x + [c] + y == [c] + y;
      assert ([c] + y)[1..] == y;
    } else {
      var s := x + [c] + y;
      assert s[0] == x[0] && s[0] != c;
      assert s[1..] == x[1..] + [c] + y;
      SplitAtFirst(x[1..], c, y);
      var rest := Split(s[1..], c);
      assert rest == [x[1..]] + Split(y, c);
      assert Split(s, c) == [[s[0]] + rest[0]] + rest[1..];
      assert rest[1..] == Split(y, c);
      assert [x[0]] + x[1..] == x;
    }
  }

  /** Splitting at a separator between two strings splits each of them. */
  lemma {:induction false} SplitConcat(x: string, c: char, y: string)
    ensures Split(x + [c] + y, c) == Split(x, c) + Split(y, c)
    decreases |x|
  {
    var s := x + [c] + y;
    if |x| == 0 {
      assert s == [c] + y && s[1..] == y;
      SplitSeparator(s, c);
    } else {
      assert s[0] == x[0] && s[1..] == x[1..] + [c] + y;
      SplitConcat(x[1..], c, y);
      var rest := Split(x[1..], c);
      if x[0] != c {
        SplitOther(s, c);
        SplitOther(x, c);
        HeadConcat([x[0]], rest, Split(y, c));
      } else {
        SplitSeparator(s, c);
        SplitSeparator(x, c);
      }
    }
  }

  /** A leading separator closes an empty first piece. */
  lemma {:induction false} SplitSeparator(s: string, c: char)
    requires |s| > 0 && s[0] == c
    ensures Split(s, c) == [""] + Split(s[1..], c)
  {
  }

  /** Any other first character starts the first piece. */
  lemma {:induction false} SplitOther(s: string, c: char)
    requires |s| > 0 && s[0] != c
    ensures var rest := Split(s[1..], c); Split(s, c) == [[s[0]] + rest[0]] + rest[1..]
  {
  }

  /** Gluing a prefix to the first piece commutes with appending pieces. */
  lemma {:induction false} HeadConcat(a: string, rest: seq<string>, ys: seq<string>)
    requires |rest| >= 1
    ensures [a + (rest + ys)[0]] + (rest + ys)[1..] == ([a + rest[0]] + rest[1..]) + ys
  {
    assert (rest + ys)[0] == rest[0];
    assert (rest + ys)[1..] == rest[1..] + ys;
  }

  /** Splitting the join of separator-free parts gives the parts back. */
  lemma {:induction false} SplitJoin(parts: seq<string>, c: char)
    requires |parts| >= 1
    requires forall i :: 0 <= i < |parts| ==> c !in parts[i]
    ensures Split(Join(parts, [c]), c) == parts
    decreases |parts|
  {
    if |parts| == 1 {
      SplitNoSeparator(parts[0], c);
    } else {
      SplitJoin(parts[1..], c);
      SplitAtFirst(parts[0], c, Join(parts[1..], [c]));
      assert [parts[0]] + parts[1..] == parts;
    }
  }

  /** A block written as a head line, a line feed and trimmed text: its
      trimmed lines are the head, then lines that join back into the text
      (none when the text is empty, the line feed being trimmed away). */
  lemma {:induction false} HeadLine(head: string, t: string)
    requires IsTrimmed(head) && |head| > 0 && '\n' !in head
    requires IsTrimmed(t)
    ensures var lines := Split(Trim(head + "\n" + t), '\n');
      lines[0] == head && Join(lines[1..], "\n") == t
  {
    var s := head + "\n" + t;
    if t == "" {
      assert s == head + "\n";
      TrimTrailingSpace(head, "\n");
      SplitNoSeparator(head, '\n');
    } else {
      assert s[0] == head[0] && s[|s| - 1] == t[|t| - 1];
      TrimOfTrimmed(s);
      SplitAtFirst(head, '\n', t);
    }
  }

  lemma {:induction false} JoinAppend(parts: seq<string>, last: string, sep: string)
    requires |parts| >= 1
    ensures Join(parts + [last], sep) == Join(parts, sep) + sep + last
    decreases |parts|
  {
    if |parts| == 1 {
      assert (parts + [last])[1..] == [last];
    } else {
      assert (parts + [last])[1..] == parts[1..] + [last];
      JoinAppend(parts[1..], last, sep);
    }
  }

  lemma {:induction false} JoinFirstChar(parts: seq<string>, sep: string)
    requires |parts| >= 1 && |parts[0]| > 0
    ensures |Join(parts, sep)| > 0 && Join(parts, sep)[0] == parts[0][0]
  {
  }

  lemma {:induction false} JoinLastChar(parts: seq<string>, sep: string)
    requires |parts| >= 1 && |parts[|parts| - 1]| > 0
    ensures var j := Join(parts, sep); |j| > 0 && j[|j| - 1] == parts[|parts| - 1][|parts[|parts| - 1]| - 1]
    decreases |parts|
  {
    if |parts| > 1 {
      JoinLastChar(parts[1..], sep);
    }
  }

  /* ---------------------------------------------------------------- digits */

  predicate IsDigit(c: char) {
    '0' <= c <= '9'
  }

  predicate AllDigits(s: string) {
    forall i :: 0 <= i < |s| ==> IsDigit(s[i])
  }

  function DigitValue(c: char): nat
    requires IsDigit(c)
  {
    (c as int) - ('0' as int)
  }

  function Digit(d: nat): char
    requires d < 10
  {
    (('0' as int) + d) as char
  }

  /** The remainder is the one `x` below `n` with `a == q * n + x`. */
  lemma {:induction false} ModUnique(a: nat, q: nat, x: nat, n: nat)
    requires n > 0 && a == q * n + x && x < n
    ensures a % n == x
  {
    var q' := a / n;
    var x' := a % n;
    assert a == q' * n + x';
    if q' < q {
      MulStep(q', q, n);
    } else if q' > q {
      MulStep(q, q', n);
    }
  }

  lemma {:induction false} MulStep(a: nat, b: nat, n: nat)
    requires a < b
    ensures a * n + n <= b * n
  {
    var k := b - a;
    assert b * n == a * n + k * n by { assert b == a + k; }
    assert k * n == (k - 1) * n + n;
  }

  /** `parseInt(s, 10)` of an all-digit string. */
  function DigitsValue(s: string): nat
    requires AllDigits(s)
  {
    if |s| == 0 then 0 else DigitsValue(s[..|s| - 1]) * 10 + DigitValue(s[|s| - 1])
  }

  /** `Number.prototype.toString()` of a natural number: decimal digits with no
      leading zero, whose value is the number. */
  function NatToString(n: nat): (r: string)
    ensures |r| >= 1 && AllDigits(r)
    ensures DigitsValue(r) == n
    ensures r[0] == '0' ==> n == 0
    ensures n < 10 <==> |r| == 1
    ensures n < 100 <==> |r| <= 2
    ensures n < 1000 <==> |r| <= 3
  {
    if n < 10 then [Digit(n)]
    else
      var r := NatToString(n / 10) + [Digit(n % 10)];
      assert r[..|r| - 1] == NatToString(n / 10);
      r
  }

  function Repeat(c: char, n: nat): (r: string)
    ensures |r| == n
    ensures forall i :: 0 <= i < n ==> r[i] == c
  {
    if n == 0 then "" else [c] + Repeat(c, n - 1)
  }

  /** `String.prototype.padStart` with a one-character fill. */
  function PadStart(s: string, width: nat, fill: char): (r: string)
    ensures |r| == if |s| >= width then |s| else width
    ensures r[|r| - |s|..] == s
    ensures forall i :: 0 <= i < |r| - |s| ==> r[i] == fill
  {
    if |s| >= width then s else Repeat(fill, width - |s|) + s
  }

  /** Leading zeros do not change a decimal value. */
  lemma {:induction false} LeadingZeros(z: string, s: string)
    requires forall i :: 0 <= i < |z| ==> z[i] == '0'
    requires AllDigits(s)
    ensures AllDigits(z + s) && DigitsValue(z + s) == DigitsValue(s)
    decreases |s| + |z|
  {
    var u := z + s;
    if |s| == 0 {
      assert u == z;
      if |z| > 0 {
        LeadingZeros(z[..|z| - 1], "");
        assert z[..|z| - 1] + "" == z[..|z| - 1];
      }
    } else {
      assert u[..|u| - 1] == z + s[..|s| - 1];
      LeadingZeros(z, s[..|s| - 1]);
    }
  }

  /** A number padded with zeros to a width still reads back as the number. */
  lemma {:induction false} PaddedNumber(n: nat, width: nat)
    ensures var r := PadStart(NatToString(n), width, '0');
      AllDigits(r) && DigitsValue(r) == n
  {
    var s := NatToString(n);
    var r := PadStart(s, width, '0');
    if |s| < width {
      var z := Repeat('0', width - |s|);
      assert r == z + s;
      LeadingZeros(z, s);
    } else {
      assert r == s;
    }
  }

  /** `toLowerCase` restricted to ASCII letters. */
  function Lower(s: string): (r: string)
    ensures |r| == |s|
    ensures forall i :: 0 <= i < |s| ==> r[i] == if 'A' <= s[i] <= 'Z' then (s[i] as int + 32) as char else s[i]
  {
    if |s| == 0 then "" else [if 'A' <= s[0] <= 'Z' then (s[0] as int + 32) as char else s[0]] + Lower(s[1..])
  }

  /* ----------------------------------------------------------- replacement */

  /** `s.replace(a, b)` with a one-character string pattern: only the first occurrence is replaced. */
  function ReplaceFirst(s: string, a: char, b: char): (r: string)
    ensures |r| == |s|
    ensures a !in s ==> r == s
  {
    if |s| == 0 then s
    else if s[0] == a then [b] + s[1..]
    else [s[0]] + ReplaceFirst(s[1..], a, b)
  }

  /** The first occurrence of `a`, at `k`, is the one replaced. */
  lemma {:induction false} ReplaceFirstAt(s: string, k: nat, a: char, b: char)
    requires k < |s| && s[k] == a && a !in s[..k]
    ensures ReplaceFirst(s, a, b) == s[..k] + [b] + s[k + 1..]
    decreases k
  {
    if k > 0 {
      assert s[0] == s[..k][0];
      assert s[1..][..k - 1] == s[1..k];
      ReplaceFirstAt(s[1..], k - 1, a, b);
      assert s[1..][k..] == s[k + 1..];
      assert s[..k] == [s[0]] + s[1..k];
    }
  }

  /** A global replacement of a literal pattern (`s.replace(/pat/g, rep)`),
      scanning left to right over non-overlapping occurrences. */
  function ReplaceAll(s: string, pat: string, rep: string): string
    requires |pat| > 0
    decreases |s|
  {
    if |s| < |pat| then s
    else if s[..|pat|] == pat then rep + ReplaceAll(s[|pat|..], pat, rep)
    else [s[0]] + ReplaceAll(s[1..], pat, rep)
  }

  /** Every character of the output is either an input character or comes
      from the replacement; characters in neither `pat` nor `rep` survive in order. */
  lemma {:induction false} ReplaceAllKeeps(s: string, pat: string, rep: string, c: char)
    requires |pat| > 0 && c !in pat && c !in rep
    ensures Count(ReplaceAll(s, pat, rep), c) == Count(s, c)
    decreases |s|
  {
    if |s| < |pat| {
    } else if s[..|pat|] == pat {
      ReplaceAllKeeps(s[|pat|..], pat, rep, c);
      CountConcat(rep, ReplaceAll(s[|pat|..], pat, rep), c);
      CountConcat(s[..|pat|], s[|pat|..], c);
      CountAbsent(rep, c);
      CountAbsent(pat, c);
      assert s == s[..|pat|] + s[|pat|..];
    } else {
      ReplaceAllKeeps(s[1..], pat, rep, c);
      assert s == [s[0]] + s[1..];
      CountConcat([s[0]], s[1..], c);
      CountConcat([s[0]], ReplaceAll(s[1..], pat, rep), c);
    }
  }

  function Count(s: string, c: char): nat
  {
    if |s| == 0 then 0 else (if s[0] == c then 1 else 0) + Count(s[1..], c)
  }

  lemma {:induction false} CountConcat(a: string, b: string, c: char)
    ensures Count(a + b, c) == Count(a, c) + Count(b, c)
  {
    if |a| > 0 {
      assert (a + b)[1..] == a[1..] + b;
      CountConcat(a[1..], b, c);
    } else {
      assert a + b == b;
    }
  }

  /** `s.split(c).length` is one more than the number of `c` in `s`. */
  lemma {:induction false} SplitLength(s: string, c: char)
    ensures |Split(s, c)| == Count(s, c) + 1
    decreases |s|
  {
    if |s| > 0 {
      SplitLength(s[1..], c);
    }
  }

  lemma {:induction false} CountAbsent(s: string, c: char)
    requires c !in s
    ensures Count(s, c) == 0
  {
    if |s| > 0 {
      assert c !in s[1..];
      CountAbsent(s[1..], c);
    }
  }

  /** Position of the first element equal to `x`, or -1 (`Array.prototype.indexOf`). */
  function IndexOf(xs: seq<string>, x: string): (r: int)
    ensures -1 <= r < |xs|
    ensures r == -1 <==> x !in xs
    ensures r >= 0 ==> xs[r] == x && x !in xs[..r]
  {
    if |xs| == 0 then -1
    else if xs[0] == x then 0
    else
      var k := IndexOf(xs[1..], x);
      if k == -1 then -1
      else
        assert xs[..k + 1] == [xs[0]] + xs[1..][..k];
        k + 1
  }
  /** The first position holding `x` is the index found. */
  lemma {:induction false} IndexOfAt(xs: seq<string>, x: string, k: nat)
    requires k < |xs| && xs[k] == x
    requires forall j :: 0 <= j < k ==> xs[j] != x
    ensures IndexOf(xs, x) == k
  {
    var r := IndexOf(xs, x);
    assert r >= 0;
    assert forall j :: 0 <= j < r ==> xs[..r][j] == xs[j];
  }

}
