/**
 * The string operations of Rust's `str` that the scanner relies on:
 * `starts_with`, `split` with a string or char pattern, `split_once`, `join`,
 * `trim`, `lines`, integer `Display` and `str::parse` for unsigned integers.
 */
module Text {
  import opened Common

  predicate StartsWith(s: string, prefix: string)
  {
    |prefix| <= |s| && s[..|prefix|] == prefix
  }

  predicate OccursAt(s: string, pat: string, i: nat)
  {
    i + |pat| <= |s| && s[i..i + |pat|] == pat
  }

  predicate Contains(s: string, pat: string)
  {
    exists i: nat | i <= |s| :: OccursAt(s, pat, i)
  }

  predicate EndsWith(s: string, suffix: string)
  {
    |suffix| <= |s| && s[|s| - |suffix|..] == suffix
  }

  /** The leftmost occurrence of `pat` in `s` at or after `from` (the search `str::find` does). */
  function FindFrom(s: string, pat: string, from: nat): (r: Option<nat>)
    ensures r.Some? ==> from <= r.value && OccursAt(s, pat, r.value)
    ensures r.Some? ==> forall i: nat :: from <= i < r.value ==> !OccursAt(s, pat, i)
    ensures r.None? ==> forall i: nat :: from <= i ==> !OccursAt(s, pat, i)
    decreases |s| - from
  {
    if from + |pat| > |s| then None
    else if OccursAt(s, pat, from) then Some(from)
    else FindFrom(s, pat, from + 1)
  }

  /** `s.split(pat)`: the pieces between leftmost, non-overlapping occurrences of `pat`. */
  function Split(s: string, pat: string): (parts: seq<string>)
    requires |pat| > 0
    ensures |parts| >= 1
    decreases |s|
  {
    match FindFrom(s, pat, 0)
    case None => [s]
    case Some(i) => [s[..i]] + Split(s[i + |pat|..], pat)
  }

  /** `parts.join(sep)`. */
  function Join(parts: seq<string>, sep: string): string
  {
    if |parts| == 0 then ""
    else if |parts| == 1 then parts[0]
    else parts[0] + sep + Join(parts[1..], sep)
  }

  /** `s.split_once(c)`: the text before and after the first `c`. */
  function SplitOnce(s: string, c: char): (r: Option<(string, string)>)
    ensures r.Some? <==> c in s
    ensures r.Some? ==> c !in r.value.0 && s == r.value.0 + [c] + r.value.1
  {
    match FindFrom(s, [c], 0)
    case None =>
      assert forall i :: 0 <= i < |s| ==> s[i] != c by {
        forall i | 0 <= i < |s| ensures s[i] != c {
          assert !OccursAt(s, [c], i);
        }
      }
      None
    case Some(i) =>
      assert forall j :: 0 <= j < i ==> s[j] != c by {
        forall j | 0 <= j < i ensures s[j] != c {
          assert !OccursAt(s, [c], j);
        }
      }
      assert s == s[..i] + [c] + s[i + 1..];
      Some((s[..i], s[i + 1..]))
  }

  lemma ConcatAssoc(x: string, y: string, z: string)
    ensures x + (y + z) == (x + y) + z
  {
  }

  /** Splitting then joining with the same separator gives the text back. */
  lemma {:induction false} JoinSplit(s: string, pat: string)
    requires |pat| > 0
    ensures Join(Split(s, pat), pat) == s
    decreases |s|
  {
    var f := FindFrom(s, pat, 0);
    if f.Some? {
      var i := f.value;
      var rest := s[i + |pat|..];
      var tail := Split(rest, pat);
      JoinSplit(rest, pat);
      assert Split(s, pat) == [s[..i]] + tail;
      assert Join([s[..i]] + tail, pat) == s[..i] + pat + Join(tail, pat);
      assert s == s[..i] + pat + rest;
    }
  }

  /** When the first occurrence of `pat` in `a + pat + b` is the one after `a`, `split` cuts there. */
  lemma SplitFirst(a: string, pat: string, b: string)
    requires |pat| > 0
    requires forall i: nat :: i < |a| ==> !OccursAt(a + pat + b, pat, i)
    ensures Split(a + pat + b, pat) == [a] + Split(b, pat)
  {
    var s := a + pat + b;
    assert OccursAt(s, pat, |a|) by {
      assert s[|a|..|a| + |pat|] == pat;
    }
    var f := FindFrom(s, pat, 0);
    assert f == Some(|a|);
    assert s[..|a|] == a;
    assert s[|a| + |pat|..] == b;
  }

  /** A piece free of the one-character pattern splits off cleanly. */
  lemma SplitFirstChar(a: string, c: char, b: string)
    requires c !in a
    ensures Split(a + [c] + b, [c]) == [a] + Split(b, [c])
  {
    var s := a + [c] + b;
    forall i: nat | i < |a| ensures !OccursAt(s, [c], i) {
      assert s[i] == a[i];
    }
    SplitFirst(a, [c], b);
  }

  /** `split_once` cuts at a character the first piece does not contain. */
  lemma SplitOnceAt(a: string, c: char, b: string)
    requires c !in a
    ensures SplitOnce(a + [c] + b, c) == Some((a, b))
  {
    var s := a + [c] + b;
    assert s[|a|] == c;
    var r := SplitOnce(s, c);
    var x := r.value.0;
    assert x == s[..|a|] == a;
    assert r.value.1 == s[|a| + 1..] == b;
  }

  /** Joining pieces free of the separator character and splitting again gives the pieces back. */
  lemma {:induction false} SplitJoinChar(parts: seq<string>, c: char)
    requires |parts| >= 1
    requires forall i :: 0 <= i < |parts| ==> c !in parts[i]
    ensures Split(Join(parts, [c]), [c]) == parts
  {
    if |parts| == 1 {
      SplitNoChar(parts[0], c);
    } else {
      SplitJoinChar(parts[1..], c);
      SplitFirstChar(parts[0], c, Join(parts[1..], [c]));
      assert [parts[0]] + parts[1..] == parts;
    }
  }

  /** A text free of the one-character pattern does not split at all. */
  lemma SplitNoChar(s: string, c: char)
    requires c !in s
    ensures Split(s, [c]) == [s]
  {
    forall i: nat | i < |s| ensures !OccursAt(s, [c], i) {
      assert s[i] != c;
      assert i + 1 <= |s| ==> s[i..i + 1] == [s[i]];
    }
  }

  /** A piece with no space in it never holds the start of an occurrence of `" - "`. */
  lemma NoSpaceSplitsFirst(a: string, b: string)
    requires ' ' !in a
    ensures Split(a + " - " + b, " - ") == [a] + Split(b, " - ")
  {
    var s := a + " - " + b;
    forall i: nat | i < |a| ensures !OccursAt(s, " - ", i) {
      assert s[i] == a[i];
    }
    SplitFirst(a, " - ", b);
  }

  /**
   * A field followed by `" - "` is cut at that separator when the field neither contains
   * `" - "` nor ends with `" -"` (otherwise an earlier, overlapping occurrence wins).
   */
  lemma DashFieldSplitsFirst(a: string, b: string)
    requires !Contains(a, " - ") && !EndsWith(a, " -")
    ensures Split(a + " - " + b, " - ") == [a] + Split(b, " - ")
  {
    var s := a + " - " + b;
    forall i: nat | i < |a| ensures !OccursAt(s, " - ", i) {
      if OccursAt(s, " - ", i) {
        DashAt(s, i);
        if i + 3 <= |a| {
          assert a[i..i + 3] == s[i..i + 3];
          assert OccursAt(a, " - ", i);
        }
        assert false;
      }
    }
    SplitFirst(a, " - ", b);
  }

  lemma DashAt(s: string, i: nat)
    requires OccursAt(s, " - ", i)
    ensures s[i] == ' ' && s[i + 1] == '-' && s[i + 2] == ' '
  {
    assert s[i..i + 3][0] == s[i] && s[i..i + 3][1] == s[i + 1] && s[i..i + 3][2] == s[i + 2];
  }

  /** Rust's `char::is_whitespace`: the Unicode White_Space property. */
  predicate IsWhitespace(c: char)
  {
    var n := c as int;
    (9 <= n <= 13) || n == 0x20 || n == 0x85 || n == 0xA0 || n == 0x1680
    || (0x2000 <= n <= 0x200A) || n == 0x2028 || n == 0x2029 || n == 0x202F
    || n == 0x205F || n == 0x3000
  }

  function TrimStart(s: string): (r: string)
    ensures |r| <= |s| && r == s[|s| - |r|..]
    ensures r != [] ==> !IsWhitespace(r[0])
    ensures forall i :: 0 <= i < |s| - |r| ==> IsWhitespace(s[i])
  {
    if s != [] && IsWhitespace(s[0]) then TrimStart(s[1..]) else s
  }

  function TrimEnd(s: string): (r: string)
    ensures |r| <= |s| && r == s[..|r|]
    ensures r != [] ==> !IsWhitespace(r[|r| - 1])
    ensures forall i :: |r| <= i < |s| ==> IsWhitespace(s[i])
  {
    if s != [] && IsWhitespace(s[|s| - 1]) then TrimEnd(s[..|s| - 1]) else s
  }

  /** `str::trim`. */
  function Trim(s: string): string
  {
    TrimEnd(TrimStart(s))
  }

  lemma TrimUnchanged(s: string)
    requires s != [] ==> !IsWhitespace(s[0]) && !IsWhitespace(s[|s| - 1])
    ensures Trim(s) == s
  {
  }

  /**
   * `str::lines`: split at `'\n'`; a `'\r'` just before a `'\n'` is dropped; a final
   * empty piece (after a trailing newline, or of the empty text) is not a line.
   */
  function Lines(s: string): seq<string>
  {
    var pieces := Split(s, "\n");
    var last := pieces[|pieces| - 1];
    var full := seq(|pieces| - 1, i requires 0 <= i < |pieces| - 1 => StripCarriageReturn(pieces[i]));
    if last == "" then full else full + [last]
  }

  function StripCarriageReturn(s: string): string
  {
    if s != [] && s[|s| - 1] == '\r' then s[..|s| - 1] else s
  }

  /**
   * Non-empty lines with no line break inside and no `'\r'` at the end, joined with `'\n'`,
   * are given back by `lines`.
   */
  lemma LinesOfJoin(parts: seq<string>)
    requires |parts| >= 1 && parts[|parts| - 1] != ""
    requires forall i :: 0 <= i < |parts| ==> '\n' !in parts[i]
    requires forall i :: 0 <= i < |parts| ==> parts[i] == [] || parts[i][|parts[i]| - 1] != '\r'
    ensures Lines(Join(parts, "\n")) == parts
  {
    SplitJoinChar(parts, '\n');
    forall i | 0 <= i < |parts| - 1
      ensures StripCarriageReturn(parts[i]) == parts[i]
    {
    }
    LinesOfPieces(Join(parts, "\n"), parts);
  }

  lemma LinesOfPieces(s: string, pieces: seq<string>)
    requires Split(s, "\n") == pieces && |pieces| >= 1 && pieces[|pieces| - 1] != ""
    requires forall i :: 0 <= i < |pieces| - 1 ==> StripCarriageReturn(pieces[i]) == pieces[i]
    ensures Lines(s) == pieces
  {
    var n := |pieces| - 1;
    var full := seq(n, i requires 0 <= i < n => StripCarriageReturn(pieces[i]));
    assert full == pieces[..n];
    assert pieces == pieces[..n] + [pieces[n]];
  }

  predicate IsDigit(c: char)
  {
    '0' <= c <= '9'
  }

  predicate AllDigits(s: string)
  {
    forall i :: 0 <= i < |s| ==> IsDigit(s[i])
  }

  /** A digit string has no `'.'`, `'/'`, `':'`, space or line break in it. */
  lemma DigitsFree(s: string)
    requires AllDigits(s)
    ensures '.' !in s && '/' !in s && '\n' !in s && '#' !in s && ':' !in s && ' ' !in s
  {
  }

  function DigitValue(c: char): nat
    requires IsDigit(c)
  {
    c as int - '0' as int
  }

  function DigitChar(d: nat): (c: char)
    requires d < 10
    ensures IsDigit(c) && DigitValue(c) == d
  {
    ('0' as int + d) as char
  }

  /** The number a run of decimal digits spells, most significant first. */
  function DecimalValue(s: string): nat
    requires AllDigits(s)
  {
    if s == [] then 0 else 10 * DecimalValue(s[..|s| - 1]) + DigitValue(s[|s| - 1])
  }

  /** Rust's `Display` for unsigned integers: decimal, no padding. */
  function FormatDecimal(n: nat): (r: string)
    ensures |r| >= 1 && AllDigits(r)
    ensures n == 0 <==> r == "0"
    ensures n > 0 ==> r[0] != '0'
  {
    if n < 10 then [DigitChar(n)] else FormatDecimal(n / 10) + [DigitChar(n % 10)]
  }

  lemma {:induction false} DecimalRoundTrip(n: nat)
    ensures DecimalValue(FormatDecimal(n)) == n
  {
    if n >= 10 {
      DecimalRoundTrip(n / 10);
      var r := FormatDecimal(n);
      assert r[..|r| - 1] == FormatDecimal(n / 10);
    }
  }

  lemma FormatDecimalShort(n: nat)
    requires n < 1000
    ensures |FormatDecimal(n)| <= 3
  {
    if n >= 10 {
      assert |FormatDecimal(n / 10)| <= 2 by {
        if n / 10 >= 10 {
          assert FormatDecimal(n / 10) == FormatDecimal(n / 100) + [DigitChar(n / 10 % 10)];
        }
      }
    }
  }

  /**
   * `str::parse::<uN>` where `max` is `uN::MAX`: an optional `'+'`, then one or more ASCII
   * digits (leading zeros allowed) whose value does not exceed `max`.
   */
  function ParseUnsigned(s: string, max: nat): (r: Option<nat>)
    ensures r.Some? ==> r.value <= max
  {
    if s == [] then None
    else
      var digits := if s[0] == '+' then s[1..] else s;
      if digits == [] || !AllDigits(digits) then None
      else if DecimalValue(digits) <= max then Some(DecimalValue(digits))
      else None
  }

  /** Parsing the decimal text of a value in range gives the value back. */
  lemma ParseFormatDecimal(n: nat, max: nat)
    requires n <= max
    ensures ParseUnsigned(FormatDecimal(n), max) == Some(n)
  {
    DecimalRoundTrip(n);
  }
}
