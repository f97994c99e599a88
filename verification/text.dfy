/**
 * The string primitives the generator relies on: Python's notion of whitespace,
 * `str.strip()`, `str.split(sep)`, `sep.join(parts)`, the lines produced by
 * iterating over a text file, and the decimal rendering of a count.
 */
module Text {

  /** The characters CPython treats as whitespace, both in `str.strip()` and in the regex class `\s`. */
  predicate IsSpace(c: char) {
    ('\t' <= c <= '\r') || ('\U{1C}' <= c <= '\U{1F}') || c == ' ' || c == '\U{85}' || c == '\U{A0}'
    || c == '\U{1680}' || ('\U{2000}' <= c <= '\U{200A}') || c == '\U{2028}' || c == '\U{2029}'
    || c == '\U{202F}' || c == '\U{205F}' || c == '\U{3000}'
  }

  predicate AllSpace(s: string) {
    forall i :: 0 <= i < |s| ==> IsSpace(s[i])
  }

  lemma AllSpaceCons(c: char, s: string)
    ensures AllSpace([c] + s) <==> IsSpace(c) && AllSpace(s)
  {
    var t := [c] + s;
    if AllSpace(t) {
      assert IsSpace(t[0]);
      forall k | 0 <= k < |s|
        ensures IsSpace(s[k])
      {
        assert t[k + 1] == s[k];
      }
    }
    if IsSpace(c) && AllSpace(s) {
      forall k | 0 <= k < |t|
        ensures IsSpace(t[k])
      {
        if k > 0 {
          assert t[k] == s[k - 1];
        }
      }
    }
  }

  /** A string `str.strip()` leaves as it is: empty, or starting and ending with a non-space. */
  predicate IsStripped(s: string) {
    s == [] || (!IsSpace(s[0]) && !IsSpace(s[|s| - 1]))
  }

  /** `s.lstrip()`: drops the leading whitespace. */
  function LStrip(s: string): string
    decreases |s|
  {
    if s != [] && IsSpace(s[0]) then LStrip(s[1..]) else s
  }

  /** `s.rstrip()`: drops the trailing whitespace. */
  function RStrip(s: string): string
    decreases |s|
  {
    if s != [] && IsSpace(s[|s| - 1]) then RStrip(s[..|s| - 1]) else s
  }

  /** `s.strip()`. */
  function Strip(s: string): string
  {
    RStrip(LStrip(s))
  }

  /** `lstrip()` leaves the suffix that follows a whitespace-only prefix and starts with a non-space. */
  lemma {:induction false} LStripShape(s: string)
    ensures |LStrip(s)| <= |s| && LStrip(s) == s[|s| - |LStrip(s)|..]
    ensures AllSpace(s[..|s| - |LStrip(s)|])
    ensures LStrip(s) != [] ==> !IsSpace(LStrip(s)[0])
    decreases |s|
  {
    if s != [] && IsSpace(s[0]) {
      LStripShape(s[1..]);
      var n := |s| - |LStrip(s)|;
      assert s[..n] == [s[0]] + s[1..][..n - 1];
    }
  }

  /** `rstrip()` leaves the prefix that precedes a whitespace-only suffix and ends with a non-space. */
  lemma {:induction false} RStripShape(s: string)
    ensures |RStrip(s)| <= |s| && RStrip(s) == s[..|RStrip(s)|]
    ensures AllSpace(s[|RStrip(s)|..])
    ensures RStrip(s) != [] ==> !IsSpace(RStrip(s)[|RStrip(s)| - 1])
    decreases |s|
  {
    if s != [] && IsSpace(s[|s| - 1]) {
      RStripShape(s[..|s| - 1]);
      var n := |RStrip(s)|;
      assert s[n..] == s[..|s| - 1][n..] + [s[|s| - 1]];
    }
  }

  /** `strip()` leaves a stripped string, and the empty one exactly for whitespace-only input. */
  lemma StripShape(s: string)
    ensures IsStripped(Strip(s))
    ensures Strip(s) == [] <==> AllSpace(s)
  {
    var l := LStrip(s);
    LStripShape(s);
    RStripShape(l);
    if Strip(s) == [] {
      assert AllSpace(l);
      assert s == s[..|s| - |l|] + l;
    }
  }

  lemma {:induction false} LStripSkips(a: string, x: string)
    requires AllSpace(a)
    requires x == [] || !IsSpace(x[0])
    ensures LStrip(a + x) == x
    decreases |a|
  {
    if a != [] {
      assert (a + x)[1..] == a[1..] + x;
      LStripSkips(a[1..], x);
    } else {
      assert a + x == x;
    }
  }

  lemma {:induction false} RStripSkips(x: string, b: string)
    requires AllSpace(b)
    requires x == [] || !IsSpace(x[|x| - 1])
    ensures RStrip(x + b) == x
    decreases |b|
  {
    if b != [] {
      assert (x + b)[..|x + b| - 1] == x + b[..|b| - 1];
      RStripSkips(x, b[..|b| - 1]);
    } else {
      assert x + b == x;
    }
  }

  /** `strip()` removes exactly the surrounding whitespace: a stripped core survives any padding. */
  lemma StripPadded(a: string, t: string, b: string)
    requires AllSpace(a) && AllSpace(b) && IsStripped(t)
    ensures Strip(a + t + b) == t
  {
    if t == [] {
      assert a + t + b == a + b;
      assert AllSpace(a + b);
      StripShape(a + b);
    } else {
      assert a + t + b == a + (t + b);
      LStripSkips(a, t + b);
      RStripSkips(t, b);
    }
  }

  /** Any string is its stripped core between a whitespace prefix and a whitespace suffix. */
  lemma StripSplit(s: string) returns (a: string, b: string)
    ensures s == a + (Strip(s) + b)
    ensures AllSpace(a) && AllSpace(b)
  {
    var l := LStrip(s);
    LStripShape(s);
    RStripShape(l);
    a := s[..|s| - |l|];
    b := l[|Strip(s)|..];
    assert l == Strip(s) + b;
  }

  /** A string whose only newline can be its last character strips to a string with no newline. */
  lemma StripNoNewline(s: string)
    requires forall i :: 0 <= i < |s| - 1 ==> s[i] != '\n'
    ensures '\n' !in Strip(s)
  {
    var m := Strip(s);
    var a, b := StripSplit(s);
    StripShape(s);
    forall q | 0 <= q < |m|
      ensures m[q] != '\n'
    {
      assert s[|a| + q] == m[q];
      if |a| + q == |s| - 1 {
        assert q == |m| - 1;
        assert !IsSpace(m[q]);
      }
    }
  }

  /** The index of the first occurrence of `c`, as `str.split(c, 1)` and `str.index(c)` find it. */
  function FirstIndex(s: string, c: char): (k: nat)
    requires c in s
    ensures k < |s| && s[k] == c && c !in s[..k]
  {
    if s[0] == c then 0 else 1 + FirstIndex(s[1..], c)
  }

  /** The first occurrence is the one with no earlier occurrence. */
  lemma {:induction false} FirstIndexAt(s: string, c: char, k: nat)
    requires k < |s| && s[k] == c && c !in s[..k]
    ensures FirstIndex(s, c) == k
  {
    if k > 0 {
      assert s[0] in s[..k];
      assert s[1..][..k - 1] == s[1..k];
      assert forall j :: 0 <= j < k - 1 ==> s[1..k][j] == s[..k][j + 1];
      FirstIndexAt(s[1..], c, k - 1);
    }
  }

  /** `s.split(sep)` for a one-character separator: never empty, no part holds `sep`. */
  function SplitOn(s: string, sep: char): (parts: seq<string>)
    ensures |parts| >= 1
    ensures forall i :: 0 <= i < |parts| ==> sep !in parts[i]
    decreases |s|
  {
    if s == [] then [[]]
    else
      var rest := SplitOn(s[1..], sep);
      if s[0] == sep then [[]] + rest else [[s[0]] + rest[0]] + rest[1..]
  }

  /** `sep.join(parts)`. */
  function Join(parts: seq<string>, sep: char): string
  {
    if |parts| == 0 then []
    else if |parts| == 1 then parts[0]
    else parts[0] + [sep] + Join(parts[1..], sep)
  }

  /** Joining the parts of a split gives back the original text. */
  lemma {:induction false} JoinSplit(s: string, sep: char)
    ensures Join(SplitOn(s, sep), sep) == s
    decreases |s|
  {
    if s != [] {
      JoinSplit(s[1..], sep);
      var rest := SplitOn(s[1..], sep);
      if s[0] != sep && |rest| > 1 {
        assert Join(rest, sep) == rest[0] + [sep] + Join(rest[1..], sep);
      }
    }
  }

  lemma {:induction false} SplitNoSep(a: string, sep: char)
    requires sep !in a
    ensures SplitOn(a, sep) == [a]
    decreases |a|
  {
    if a != [] {
      SplitNoSep(a[1..], sep);
      assert a[0] != sep;
      assert [a[0]] + a[1..] == a;
    }
  }

  lemma {:induction false} SplitAtSep(a: string, sep: char, b: string)
    requires sep !in a
    ensures SplitOn(a + [sep] + b, sep) == [a] + SplitOn(b, sep)
    decreases |a|
  {
    if a == [] {
      assert a + [sep] + b == [sep] + b;
      assert ([sep] + b)[1..] == b;
    } else {
      assert (a + [sep] + b)[1..] == a[1..] + [sep] + b;
      SplitAtSep(a[1..], sep, b);
      assert [a[0]] + a[1..] == a;
    }
  }

  /** Splitting a join gives back the parts, provided no part holds the separator. */
  lemma {:induction false} SplitJoin(parts: seq<string>, sep: char)
    requires |parts| >= 1
    requires forall i :: 0 <= i < |parts| ==> sep !in parts[i]
    ensures SplitOn(Join(parts, sep), sep) == parts
    decreases |parts|
  {
    if |parts| == 1 {
      SplitNoSep(parts[0], sep);
    } else {
      SplitJoin(parts[1..], sep);
      SplitAtSep(parts[0], sep, Join(parts[1..], sep));
      assert [parts[0]] + parts[1..] == parts;
    }
  }

  /**
   * The lines that `for line in f` yields for a file holding `s`: each ends with its
   * newline, except a last line that the file does not terminate; an empty file yields none.
   */
  function FileLines(s: string): seq<string>
    decreases |s|
  {
    if s == [] then []
    else if '\n' in s then
      var k := FirstIndex(s, '\n');
      [s[..k + 1]] + FileLines(s[k + 1..])
    else [s]
  }

  /** Every line read is non-empty, ends with its newline unless it is the last, and holds no other newline. */
  lemma {:induction false} FileLinesShape(s: string)
    ensures forall i :: 0 <= i < |FileLines(s)| ==> FileLines(s)[i] != []
    ensures forall i :: 0 <= i < |FileLines(s)| - 1 ==> FileLines(s)[i][|FileLines(s)[i]| - 1] == '\n'
    ensures forall i :: 0 <= i < |FileLines(s)| ==> '\n' !in FileLines(s)[i][..|FileLines(s)[i]| - 1]
    decreases |s|
  {
    if s != [] && '\n' in s {
      var k := FirstIndex(s, '\n');
      assert s[..k + 1][..k] == s[..k];
      FileLinesShape(s[k + 1..]);
    }
  }

  function Concat(parts: seq<string>): string
  {
    if parts == [] then [] else parts[0] + Concat(parts[1..])
  }

  /** Reading a file line by line loses nothing: the lines put together are the file. */
  lemma {:induction false} ConcatFileLines(s: string)
    ensures Concat(FileLines(s)) == s
    decreases |s|
  {
    if s != [] && '\n' in s {
      var k := FirstIndex(s, '\n');
      ConcatFileLines(s[k + 1..]);
      assert s[..k + 1] + s[k + 1..] == s;
    }
  }

  /** A newline-terminated line at the head of a file is the first line read. */
  lemma FileLinesCons(a: string, b: string)
    requires '\n' !in a
    ensures FileLines(a + "\n" + b) == [a + "\n"] + FileLines(b)
  {
    var s := a + "\n" + b;
    assert s[|a|] == '\n';
    var k := FirstIndex(s, '\n');
    assert s[..|a|] == a;
    assert k == |a|;
    assert s[..k + 1] == a + "\n";
    assert s[k + 1..] == b;
  }

  /** The digit character for 0..9. */
  function Digit(d: nat): char
    requires d < 10
  {
    "0123456789"[d]
  }

  /** Python's `str(n)` for a non-negative integer, as an f-string renders it. */
  function Decimal(n: nat): (s: string)
    ensures s != []
    ensures forall i :: 0 <= i < |s| ==> '0' <= s[i] <= '9'
  {
    if n < 10 then [Digit(n)] else Decimal(n / 10) + [Digit(n % 10)]
  }

  function ParseDecimal(s: string): nat
    requires forall i :: 0 <= i < |s| ==> '0' <= s[i] <= '9'
  {
    if s == [] then 0 else ParseDecimal(s[..|s| - 1]) * 10 + (s[|s| - 1] as int - '0' as int)
  }

  /** The decimal rendering of a count reads back as that count. */
  lemma {:induction false} DecimalRoundTrip(n: nat)
    ensures ParseDecimal(Decimal(n)) == n
  {
    if n >= 10 {
      DecimalRoundTrip(n / 10);
      var s := Decimal(n);
      assert s[..|s| - 1] == Decimal(n / 10);
    }
  }

  /** Like `str(n)`, the rendering has no leading zero, except for zero itself. */
  lemma {:induction false} DecimalNoLeadingZero(n: nat)
    ensures Decimal(n)[0] != '0' || n == 0
  {
    if n >= 10 {
      DecimalNoLeadingZero(n / 10);
    }
  }
}
