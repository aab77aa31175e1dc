/**
 * The pieces of Rust's `str` API that the search engine relies on, over
 * strings as sequences of Unicode scalar values: trimming, ASCII lower-casing,
 * `lines()`, `split_once`, `splitn`, `usize` parsing and printing, and the
 * lexicographic order of `String`.
 */
module Text {
  import opened Wrappers

  /** The largest `usize` on a 64-bit target. */
  const USIZE_MAX: nat := 0xFFFF_FFFF_FFFF_FFFF

  /** `char::is_whitespace`: the Unicode White_Space property. */
  predicate IsWhitespace(c: char) {
    ('\U{0009}' <= c <= '\U{000D}') || c == ' ' || c == '\U{0085}' || c == '\U{00A0}'
    || c == '\U{1680}' || ('\U{2000}' <= c <= '\U{200A}') || c == '\U{2028}' || c == '\U{2029}'
    || c == '\U{202F}' || c == '\U{205F}' || c == '\U{3000}'
  }

  predicate AllWhitespace(s: string) {
    forall k :: 0 <= k < |s| ==> IsWhitespace(s[k])
  }

  /** `str::trim_start`: drops leading whitespace. */
  function TrimStart(s: string): (r: string)
    ensures |r| <= |s|
    ensures r == [] || !IsWhitespace(r[0])
  {
    if s != [] && IsWhitespace(s[0]) then TrimStart(s[1..]) else s
  }

  /** What `TrimStart` drops is whitespace, and what it keeps is a suffix. */
  lemma {:induction false} TrimStartSuffix(s: string)
    ensures TrimStart(s) == s[|s| - |TrimStart(s)|..]
    ensures AllWhitespace(s[..|s| - |TrimStart(s)|])
    decreases |s|
  {
    if s != [] && IsWhitespace(s[0]) {
      TrimStartSuffix(s[1..]);
      var n := |s| - |TrimStart(s)|;
      assert s[..n] == [s[0]] + s[1..][..n - 1];
    }
  }

  /** `str::trim_end`: drops trailing whitespace. */
  function TrimEnd(s: string): (r: string)
    ensures |r| <= |s|
    ensures r == [] || !IsWhitespace(r[|r| - 1])
  {
    if s != [] && IsWhitespace(s[|s| - 1]) then TrimEnd(s[..|s| - 1]) else s
  }

  /** What `TrimEnd` drops is whitespace, and what it keeps is a prefix. */
  lemma {:induction false} TrimEndPrefix(s: string)
    ensures TrimEnd(s) == s[..|TrimEnd(s)|]
    ensures AllWhitespace(s[|TrimEnd(s)|..])
    decreases |s|
  {
    if s != [] && IsWhitespace(s[|s| - 1]) {
      var t := s[..|s| - 1];
      TrimEndPrefix(t);
      var n := |TrimEnd(s)|;
      assert s[n..] == t[n..] + [s[|s| - 1]];
    }
  }

  /** `str::trim`. */
  function Trim(s: string): string {
    TrimEnd(TrimStart(s))
  }

  lemma TrimIsBlank(s: string)
    ensures Trim(s) == [] <==> AllWhitespace(s)
  {
    var t := TrimStart(s);
    TrimStartSuffix(s);
    TrimEndPrefix(t);
    if Trim(s) == [] {
      assert AllWhitespace(t[|Trim(s)|..]);
      forall k | 0 <= k < |s| - |t| ensures IsWhitespace(s[k]) {
        assert s[..|s| - |t|][k] == s[k];
      }
    }
  }

  /** Trimming keeps out what the text keeps out. */
  lemma TrimAvoids(s: string, c: char)
    requires c !in s
    ensures c !in Trim(s)
  {
    TrimStartSuffix(s);
    TrimEndPrefix(TrimStart(s));
  }

  function AsciiLower(c: char): char {
    if 'A' <= c <= 'Z' then (c as int + 32) as char else c
  }

  /** `str::to_ascii_lowercase`. */
  function ToAsciiLower(s: string): (r: string)
    ensures |r| == |s|
  {
    if s == [] then [] else [AsciiLower(s[0])] + ToAsciiLower(s[1..])
  }

  /** Lower-casing works character by character. */
  lemma {:induction false} ToAsciiLowerAt(s: string, k: nat)
    requires k < |s|
    ensures ToAsciiLower(s)[k] == AsciiLower(s[k])
    decreases k
  {
    if k > 0 {
      ToAsciiLowerAt(s[1..], k - 1);
    }
  }

  /** Text without upper-case ASCII letters is its own lower-case form. */
  lemma {:induction false} ToAsciiLowerNoUpper(s: string)
    requires forall k :: 0 <= k < |s| ==> !('A' <= s[k] <= 'Z')
    ensures ToAsciiLower(s) == s
    decreases |s|
  {
    if s != [] {
      ToAsciiLowerNoUpper(s[1..]);
    }
  }

  /** Text that neither starts nor ends with whitespace is its own trimmed form. */
  lemma TrimUnpadded(s: string)
    requires s != [] ==> !IsWhitespace(s[0]) && !IsWhitespace(s[|s| - 1])
    ensures Trim(s) == s
  {
  }

  /** Position of the first `c` in `s`, or `|s|` when there is none. */
  function IndexOf(s: string, c: char): (i: nat)
    ensures i <= |s|
    ensures c !in s[..i]
    ensures i < |s| ==> s[i] == c
  {
    if s == [] then 0
    else if s[0] == c then 0
    else
      var j := IndexOf(s[1..], c);
      assert s[..j + 1] == [s[0]] + s[1..][..j];
      j + 1
  }

  /** `str::split_once(c)`: the text before and after the first `c`. */
  function SplitOnce(s: string, c: char): (r: Option<(string, string)>)
    ensures r.None? <==> c !in s
    ensures r.Some? ==> s == r.value.0 + [c] + r.value.1 && c !in r.value.0
  {
    var i := IndexOf(s, c);
    if i == |s| then (assert s[..i] == s; None)
    else (assert s == s[..i] + [c] + s[i + 1..]; Some((s[..i], s[i + 1..])))
  }

  /** Splitting at the first `c` of `a + [c] + b`, where `a` holds no `c`, gives `a` and `b` back. */
  lemma SplitOnceAt(a: string, c: char, b: string)
    requires c !in a
    ensures SplitOnce(a + [c] + b, c) == Some((a, b))
  {
    var s := a + [c] + b;
    IndexOfAfter(a, c, b);
    assert s[..|a|] == a;
    assert s[|a| + 1..] == b;
  }

  /** Pieces glued back together with `sep` between them. */
  function Join(parts: seq<string>, sep: char): string {
    if parts == [] then []
    else if |parts| == 1 then parts[0]
    else parts[0] + [sep] + Join(parts[1..], sep)
  }

  /**
   * `str::splitn(n, c)`: at most `n` pieces; every piece but the last is free
   * of `c`, and the last holds the unsplit remainder.
   */
  function SplitN(s: string, c: char, n: nat): (r: seq<string>)
    requires n >= 1
    ensures 1 <= |r| <= n
    ensures Join(r, c) == s
    ensures forall k :: 0 <= k < |r| - 1 ==> c !in r[k]
    ensures |r| < n ==> c !in r[|r| - 1]
    decreases n
  {
    if n == 1 then [s]
    else
      var i := IndexOf(s, c);
      if i == |s| then (assert s[..i] == s; [s])
      else
        var rest := SplitN(s[i + 1..], c, n - 1);
        assert s == s[..i] + [c] + s[i + 1..];
        [s[..i]] + rest
  }

  /** Joining pieces free of `c` with another separator gives a text free of `c`. */
  lemma {:induction false} JoinAvoids(parts: seq<string>, sep: char, c: char)
    requires c != sep && forall k :: 0 <= k < |parts| ==> c !in parts[k]
    ensures c !in Join(parts, sep)
    decreases |parts|
  {
    if |parts| > 1 {
      JoinAvoids(parts[1..], sep, c);
    }
  }

  /** The first piece of `splitn` ends at the first `c`. */
  lemma SplitNCons(a: string, c: char, b: string, n: nat)
    requires c !in a && n >= 2
    ensures SplitN(a + [c] + b, c, n) == [a] + SplitN(b, c, n - 1)
  {
    var s := a + [c] + b;
    IndexOfAfter(a, c, b);
    assert s[..|a|] == a;
    assert s[|a| + 1..] == b;
  }

  /** `str::split(c)`: every piece, none of which contains `c`. */
  function Split(s: string, c: char): (r: seq<string>)
    ensures |r| >= 1
    ensures Join(r, c) == s
    ensures forall k :: 0 <= k < |r| ==> c !in r[k]
    decreases |s|
  {
    var i := IndexOf(s, c);
    if i == |s| then (assert s[..i] == s; [s])
    else
      assert s == s[..i] + [c] + s[i + 1..];
      [s[..i]] + Split(s[i + 1..], c)
  }

  /** Splitting a joined list of `c`-free pieces gives the pieces back. */
  lemma {:induction false} SplitJoin(parts: seq<string>, c: char)
    requires parts != []
    requires forall k :: 0 <= k < |parts| ==> c !in parts[k]
    ensures Split(Join(parts, c), c) == parts
    decreases |parts|
  {
    var s := Join(parts, c);
    if |parts| == 1 {
      assert IndexOf(s, c) == |s|;
    } else {
      var rest := Join(parts[1..], c);
      assert s == parts[0] + [c] + rest;
      IndexOfAfter(parts[0], c, rest);
      assert s[..|parts[0]|] == parts[0];
      assert s[|parts[0]| + 1..] == rest;
      SplitJoin(parts[1..], c);
    }
  }

  lemma IndexOfAfter(a: string, c: char, b: string)
    requires c !in a
    ensures IndexOf(a + [c] + b, c) == |a|
  {
    var s := a + [c] + b;
    assert s[|a|] == c;
    assert forall k :: 0 <= k < |a| ==> s[k] == a[k];
  }

  /** Drops the line terminator `\r` left behind when a line ended in `\r\n`. */
  function StripCarriageReturn(line: string): string {
    if line != [] && line[|line| - 1] == '\r' then line[..|line| - 1] else line
  }

  /**
   * `str::lines`: split at `\n`, strip a `\r` before each `\n`, and produce no
   * empty final line for text that ends with a line terminator.
   */
  function Lines(s: string): (r: seq<string>)
    ensures forall k :: 0 <= k < |r| ==> '\n' !in r[k]
    ensures s == [] <==> r == []
    decreases |s|
  {
    if s == [] then []
    else
      var i := IndexOf(s, '\n');
      if i == |s| then (assert s[..i] == s; [s])
      else
        assert '\n' !in StripCarriageReturn(s[..i]) by {
          assert StripCarriageReturn(s[..i]) <= s[..i];
        }
        [StripCarriageReturn(s[..i])] + Lines(s[i + 1..])
  }

  /** The first line of `a + "\n" + rest` is `a`, when `a` holds no line break. */
  lemma LinesCons(a: string, rest: string)
    requires '\n' !in a && (a == [] || a[|a| - 1] != '\r')
    ensures Lines(a + "\n" + rest) == [a] + Lines(rest)
  {
    var s := a + "\n" + rest;
    IndexOfAfter(a, '\n', rest);
    assert s[..|a|] == a;
    assert s[|a| + 1..] == rest;
  }

  /** Text before its first line break becomes its first line. */
  lemma LinesAfterBreak(a: string, rest: string)
    requires '\n' !in a
    ensures Lines(a + ['\n'] + rest) == [StripCarriageReturn(a)] + Lines(rest)
  {
    var s := a + ['\n'] + rest;
    IndexOfAfter(a, '\n', rest);
    assert s[..|a|] == a;
    assert s[|a| + 1..] == rest;
  }

  /** Text that ends a line is its first line, a break, and the text after it. */
  lemma SplitAtBreak(s: string) returns (a: string, rest: string)
    requires s != [] && s[|s| - 1] == '\n'
    ensures '\n' !in a && s == a + ['\n'] + rest
    ensures rest == [] || rest[|rest| - 1] == '\n'
  {
    var j := IndexOf(s, '\n');
    assert s[..|s|] == s;
    assert j < |s|;
    a, rest := s[..j], s[j + 1..];
    assert s == a + ['\n'] + rest;
  }

  lemma LinesSnocStep(a: string, rest: string, row: string)
    requires '\n' !in a
    requires Lines(rest + (row + ['\n'])) == Lines(rest) + [row]
    ensures Lines(a + ['\n'] + rest + (row + ['\n'])) == Lines(a + ['\n'] + rest) + [row]
  {
    var t := row + ['\n'];
    LinesAfterBreak(a, rest);
    LinesAfterBreak(a, rest + t);
    Regroup(a + ['\n'], rest, t);
    Regroup([StripCarriageReturn(a)], Lines(rest), [row]);
  }

  /** Three pieces joined: each separated from the next by one `sep`. */
  lemma JoinThree(a: string, b: string, c: string, sep: char)
    ensures Join([a, b, c], sep) == a + [sep] + b + [sep] + c
  {
    var fields := [a, b, c];
    assert fields[1..] == [b, c] && fields[1..][1..] == [c];
    assert Join([b, c], sep) == b + [sep] + c;
  }

  lemma Regroup<T>(x: seq<T>, y: seq<T>, z: seq<T>)
    ensures x + y + z == x + (y + z)
  {
  }

  /** A line and a line break appended to text that ends a line become its next line. */
  lemma {:induction false} LinesSnoc(s: string, row: string)
    requires s == [] || s[|s| - 1] == '\n'
    requires IsLine(row)
    ensures Lines(s + (row + ['\n'])) == Lines(s) + [row]
    decreases |s|
  {
    if s == [] {
      LinesAfterBreak(row, []);
      assert s + (row + ['\n']) == row + ['\n'] + [];
    } else {
      var a, rest := SplitAtBreak(s);
      LinesSnoc(rest, row);
      LinesSnocStep(a, rest, row);
    }
  }

  /** A line as `str::lines` yields it: no `\n` inside, no `\r` at its end. */
  predicate IsLine(row: string) {
    '\n' !in row && (row == [] || row[|row| - 1] != '\r')
  }

  /** The first `n` rows, each followed by a line break. */
  function Terminated(rows: seq<string>, n: nat): string
    requires n <= |rows|
    decreases n
  {
    if n == 0 then [] else Terminated(rows, n - 1) + (rows[n - 1] + ['\n'])
  }

  /** Rows written one per line read back as the same rows. */
  lemma {:induction false} LinesTerminated(rows: seq<string>, n: nat)
    requires n <= |rows|
    requires forall k :: 0 <= k < |rows| ==> IsLine(rows[k])
    ensures Lines(Terminated(rows, n)) == rows[..n]
    decreases n
  {
    if n > 0 {
      LinesTerminated(rows, n - 1);
      TerminatedEndsLine(rows, n - 1);
      assert IsLine(rows[n - 1]);
      LinesSnoc(Terminated(rows, n - 1), rows[n - 1]);
      PrefixSnoc(rows, n);
    }
  }

  /** Terminated text is empty or ends with a line break. */
  lemma TerminatedEndsLine(rows: seq<string>, n: nat)
    requires n <= |rows|
    ensures var s := Terminated(rows, n); s == [] || s[|s| - 1] == '\n'
  {
  }

  /** Four fields joined by a separator, grouped from the right. */
  lemma RegroupFields<T>(a: seq<T>, b: seq<T>, c: seq<T>, d: seq<T>, sep: T)
    ensures a + [sep] + b + [sep] + c + [sep] + d == a + [sep] + (b + [sep] + (c + [sep] + d))
  {
  }

  /** Three adjacent slices, put back together, form the suffix they start. */
  lemma AdjacentSlices<T>(xs: seq<T>, i: nat, j: nat, k: nat)
    requires i <= j <= k <= |xs|
    ensures xs[i..j] + (xs[j..k] + xs[k..]) == xs[i..]
  {
  }

  /** The prefix as long as the sequence is the sequence. */
  lemma WholePrefix<T>(xs: seq<T>)
    ensures xs[..|xs|] == xs
  {
  }

  /** A prefix one longer is the shorter prefix and the next element. */
  lemma PrefixSnoc<T>(xs: seq<T>, n: nat)
    requires 0 < n <= |xs|
    ensures xs[..n - 1] + [xs[n - 1]] == xs[..n]
  {
  }

  /** A text without a line break is a single line. */
  lemma LinesSingle(a: string)
    requires a != [] && '\n' !in a
    ensures Lines(a) == [a]
  {
    assert IndexOf(a, '\n') == |a|;
  }

  /** `s.trim_start_matches("./")`: strips every leading `./`. */
  function TrimDotSlash(s: string): (r: string)
    ensures |r| <= |s| && r == s[|s| - |r|..]
    ensures !(|r| >= 2 && r[0] == '.' && r[1] == '/')
    decreases |s|
  {
    if |s| >= 2 && s[0] == '.' && s[1] == '/' then TrimDotSlash(s[2..]) else s
  }

  /** `str::replace(c, rep)` for a single-character pattern. */
  function ReplaceChar(s: string, c: char, rep: string): (r: string)
    ensures c !in rep ==> c !in r
    ensures c !in s ==> r == s
  {
    if s == [] then []
    else (if s[0] == c then rep else [s[0]]) + ReplaceChar(s[1..], c, rep)
  }

  lemma ReplaceCharKeeps(s: string, c: char, rep: string, d: char)
    requires d != c && d !in rep && d !in s
    ensures d !in ReplaceChar(s, c, rep)
  {
    if s != [] {
      ReplaceCharKeeps(s[1..], c, rep, d);
    }
  }

  predicate IsDigit(c: char) {
    '0' <= c <= '9'
  }

  function DigitValue(c: char): nat
    requires IsDigit(c)
  {
    c as int - '0' as int
  }

  function DigitChar(d: nat): (c: char)
    requires d < 10
    ensures IsDigit(c) && DigitValue(c) == d
  {
    ('0' as int + d) as char
  }

  predicate AllDigits(s: string) {
    forall k :: 0 <= k < |s| ==> IsDigit(s[k])
  }

  /** The decimal value of a string of digits, read most significant first. */
  function DigitsValue(s: string): nat
    requires AllDigits(s)
  {
    if s == [] then 0 else DigitsValue(s[..|s| - 1]) * 10 + DigitValue(s[|s| - 1])
  }

  /**
   * `str::parse::<usize>()`: an optional `+`, then one or more ASCII digits
   * whose value fits in 64 bits; anything else (blank, sign alone, `-`,
   * spaces, overflow) is an error.
   */
  function ParseUsize(s: string): (r: Option<nat>)
    ensures r.Some? ==> r.value <= USIZE_MAX
    ensures s == [] ==> r.None?
    ensures (exists k :: 0 <= k < |s| && !IsDigit(s[k]) && s[k] != '+') ==> r.None?
  {
    var digits := if s != [] && s[0] == '+' then s[1..] else s;
    if digits == [] || !AllDigits(digits) then
      None
    else
      var v := DigitsValue(digits);
      if v <= USIZE_MAX then Some(v) else None
  }

  /** A string of digits holds no character that is not a digit. */
  lemma DigitsAvoid(s: string, c: char)
    requires AllDigits(s) && !IsDigit(c)
    ensures c !in s
  {
  }

  /** `usize::to_string`: decimal digits without leading zeros. */
  function NatToString(n: nat): (r: string)
    ensures r != [] && AllDigits(r)
    ensures DigitsValue(r) == n
    ensures |r| == 1 || r[0] != '0'
  {
    if n < 10 then [DigitChar(n)]
    else
      var r := NatToString(n / 10) + [DigitChar(n % 10)];
      assert r[..|r| - 1] == NatToString(n / 10);
      r
  }

  /** Printing a `usize` and parsing it back gives the same number. */
  lemma ParsePrinted(n: nat)
    requires n <= USIZE_MAX
    ensures ParseUsize(NatToString(n)) == Some(n)
  {
  }

  /** Right-aligns `s` in a field of `width` characters (`{:>width$}`). */
  function PadLeft(s: string, width: nat): string
    decreases width
  {
    if |s| >= width then s else [' '] + PadLeft(s, width - 1)
  }

  /** Padding fills the field exactly, with spaces before the text. */
  lemma {:induction false} PadLeftFacts(s: string, width: nat)
    ensures var r := PadLeft(s, width);
      |r| == (if |s| < width then width else |s|)
      && r[|r| - |s|..] == s
      && forall k :: 0 <= k < |r| - |s| ==> r[k] == ' '
    decreases width
  {
    if |s| < width {
      PadLeftFacts(s, width - 1);
      var tail := PadLeft(s, width - 1);
      var r := [' '] + tail;
      assert PadLeft(s, width) == r;
      assert r[|r| - |s|..] == tail[|tail| - |s|..];
      assert forall k :: 0 < k < |r| - |s| ==> r[k] == tail[k - 1];
    }
  }

  /**
   * The order of Rust `String`s: byte-wise on UTF-8, which is the order of
   * Unicode scalar values taken character by character.
   */
  predicate LexLe(a: string, b: string) {
    a == [] || (b != [] && (a[0] < b[0] || (a[0] == b[0] && LexLe(a[1..], b[1..]))))
  }

  lemma {:induction false} LexLeTotal(a: string, b: string)
    ensures LexLe(a, b) || LexLe(b, a)
  {
    if a != [] && b != [] && a[0] == b[0] {
      LexLeTotal(a[1..], b[1..]);
    }
  }

  lemma {:induction false} LexLeAntisymmetric(a: string, b: string)
    requires LexLe(a, b) && LexLe(b, a)
    ensures a == b
  {
    if a != [] && b != [] {
      LexLeAntisymmetric(a[1..], b[1..]);
      assert a == [a[0]] + a[1..] && b == [b[0]] + b[1..];
    }
  }

  lemma {:induction false} LexLeTransitive(a: string, b: string, c: string)
    requires LexLe(a, b) && LexLe(b, c)
    ensures LexLe(a, c)
  {
    if a != [] && b != [] && c != [] && a[0] == b[0] == c[0] {
      LexLeTransitive(a[1..], b[1..], c[1..]);
    }
  }
}
