/**
 * Byte lengths of UTF-8 text, for the Rust string operations the description rule of
 * `src/discord.rs` uses: `str::len`, `is_char_boundary` and cutting at a character boundary.
 */
module Utf8 {
  /** Bytes UTF-8 takes for one character. */
  function Utf8Width(c: char): (r: nat)
    ensures 1 <= r <= 4
  {
    if c as int < 0x80 then 1 else if c as int < 0x800 then 2 else if c as int < 0x1_0000 then 3 else 4
  }

  /** `str::len`: the UTF-8 byte length. */
  function Utf8Length(s: string): (r: nat)
    ensures |s| <= r <= 4 * |s|
  {
    if s == [] then 0 else Utf8Width(s[0]) + Utf8Length(s[1..])
  }

  lemma {:induction false} Utf8LengthAppend(a: string, b: string)
    ensures Utf8Length(a + b) == Utf8Length(a) + Utf8Length(b)
  {
    if a != [] {
      Utf8LengthAppend(a[1..], b);
      assert (a + b)[1..] == a[1..] + b;
    } else {
      assert a + b == b;
    }
  }

  /** The longest run of whole characters at the start of `s` that fits in `n` bytes. */
  function FloorPrefix(s: string, n: nat): (r: string)
    ensures |r| <= |s| && r == s[..|r|]
    ensures Utf8Length(r) <= n
    ensures |r| < |s| ==> Utf8Length(r) + Utf8Width(s[|r|]) > n
  {
    if s == [] || Utf8Width(s[0]) > n then []
    else
      var rest := FloorPrefix(s[1..], n - Utf8Width(s[0]));
      assert ([s[0]] + rest)[1..] == rest;
      [s[0]] + rest
  }

  /** `s.is_char_boundary(n)` for `n` within the text: byte `n` starts a character. */
  predicate IsCharBoundary(s: string, n: nat)
  {
    Utf8Length(FloorPrefix(s, n)) == n
  }

  /** ASCII text takes one byte per character. */
  lemma {:induction false} AsciiLength(s: string)
    requires forall i :: 0 <= i < |s| ==> s[i] as int < 0x80
    ensures Utf8Length(s) == |s|
  {
    if s != [] {
      AsciiLength(s[1..]);
    }
  }

  /** `n` copies of `c`. */
  function Repeat(c: char, n: nat): (r: string)
    ensures |r| == n
  {
    if n == 0 then [] else [c] + Repeat(c, n - 1)
  }

  lemma RepeatCons(c: char, m: nat, m': nat)
    requires m' == m + 1
    ensures Repeat(c, m') == [c] + Repeat(c, m)
  {
  }

  /** A leading character that fits is kept, and the rest is cut in the bytes left over. */
  lemma FloorPrefixCons(c: char, rest: string, n: nat, left: nat)
    requires Utf8Width(c) + left == n
    ensures FloorPrefix([c] + rest, n) == [c] + FloorPrefix(rest, left)
  {
    assert ([c] + rest)[1..] == rest;
  }

  /** A run of two-byte characters takes twice its length in bytes. */
  lemma {:induction false} TwoByteRunLength(c: char, m: nat)
    requires Utf8Width(c) == 2
    ensures Utf8Length(Repeat(c, m)) == 2 * m
  {
    if m > 0 {
      TwoByteRunLength(c, m - 1);
      assert Repeat(c, m)[1..] == Repeat(c, m - 1);
    }
  }

  /** `2 * k + 1` bytes of a run of two-byte characters hold `k` of them: the odd byte is left over. */
  lemma {:induction false} TwoByteRunFloor(c: char, m: nat, k: nat, n: nat)
    requires Utf8Width(c) == 2 && k <= m && n == 2 * k + 1
    ensures FloorPrefix(Repeat(c, m), n) == Repeat(c, k)
  {
    if k == 0 {
      if m > 0 {
        assert Repeat(c, m)[0] == c;
      }
    } else {
      var m1, k1, left := m - 1, k - 1, n - 2;
      TwoByteRunFloor(c, m1, k1, left);
      TwoByteRunCons(c, m1, k1, left, m, k, n);
    }
  }

  /** The inductive step of `TwoByteRunFloor`: one more character and two more bytes. */
  lemma TwoByteRunCons(c: char, m: nat, k: nat, n: nat, m': nat, k': nat, n': nat)
    requires Utf8Width(c) == 2 && m' == m + 1 && k' == k + 1 && n' == n + 2
    requires FloorPrefix(Repeat(c, m), n) == Repeat(c, k)
    ensures FloorPrefix(Repeat(c, m'), n') == Repeat(c, k')
  {
    var shorter := Repeat(c, m);
    RepeatCons(c, m, m');
    RepeatCons(c, k, k');
    FloorPrefixCons(c, shorter, n', n);
    calc {
      FloorPrefix(Repeat(c, m'), n');
      FloorPrefix([c] + shorter, n');
      [c] + FloorPrefix(shorter, n);
      [c] + Repeat(c, k);
      Repeat(c, k');
    }
  }
}
