/**
 * IPv4 address arithmetic, the block-list parser and the start-address samplers of
 * `src/network.rs`. Reading `assets/ips.txt` is given as the file's content (or its
 * absence), and every call into the random number generator is a `draw` parameter
 * constrained to the range the source asks for.
 */
module Network {
  import opened Common
  import opened Text

  /** `std::net::Ipv4Addr`: four octets, most significant first. */
  datatype Ipv4 = Ipv4(o0: Byte, o1: Byte, o2: Byte, o3: Byte)

  /** One entry of the block list: a network address and a prefix length (an `(Ipv4Addr, u8)`). */
  datatype Subnet = Subnet(network: Ipv4, prefix: Byte)

  /** `u32::from_be_bytes(ip.octets())`. */
  function ToU32(a: Ipv4): (r: U32)
  {
    ((a.o0 * 0x100 + a.o1) * 0x100 + a.o2) * 0x100 + a.o3
  }

  /** `Ipv4Addr::from(x.to_be_bytes())`. */
  function FromU32(x: U32): (r: Ipv4)
  {
    Ipv4(x / 0x100 / 0x100 / 0x100, x / 0x100 / 0x100 % 0x100, x / 0x100 % 0x100, x % 0x100)
  }

  /** Splitting off the low octet of `q * 256 + r`. */
  lemma LowOctet(q: nat, r: nat)
    requires r < 0x100
    ensures (q * 0x100 + r) / 0x100 == q && (q * 0x100 + r) % 0x100 == r
  {
  }

  /** Reading the octets back out of the 32-bit value gives the address. */
  lemma FromToU32(a: Ipv4)
    ensures FromU32(ToU32(a)) == a
  {
    var x2 := a.o0 * 0x100 + a.o1;
    var x1 := x2 * 0x100 + a.o2;
    LowOctet(x1, a.o3);
    LowOctet(x2, a.o2);
    LowOctet(a.o0, a.o1);
  }

  /** Packing the octets of a 32-bit value gives the value. */
  lemma ToFromU32(x: U32)
    ensures ToU32(FromU32(x)) == x
  {
    var x1 := x / 0x100;
    var x2 := x1 / 0x100;
    assert x == x1 * 0x100 + x % 0x100;
    assert x1 == x2 * 0x100 + x1 % 0x100;
    assert x2 == x2 / 0x100 * 0x100 + x2 % 0x100;
  }

  /** The two views of an address are one and the same. */
  lemma U32RoundTrip(a: Ipv4, x: U32)
    ensures FromU32(ToU32(a)) == a
    ensures ToU32(FromU32(x)) == x
  {
    FromToU32(a);
    ToFromU32(x);
  }

  /** `Display` for `Ipv4Addr`: dotted decimal. */
  function FormatIpv4(a: Ipv4): string
  {
    FormatDecimal(a.o0) + "." + FormatDecimal(a.o1) + "." + FormatDecimal(a.o2) + "." + FormatDecimal(a.o3)
  }

  function OctetTexts(a: Ipv4): seq<string>
  {
    [FormatDecimal(a.o0), FormatDecimal(a.o1), FormatDecimal(a.o2), FormatDecimal(a.o3)]
  }

  /** Dotted decimal is the four octet texts joined with `'.'`. */
  lemma FormatIpv4IsJoin(a: Ipv4)
    ensures FormatIpv4(a) == Join(OctetTexts(a), ".")
  {
    var t := OctetTexts(a);
    assert t[1..][1..][1..] == [t[3]];
    assert t[1..][1..] == [t[2], t[3]];
    assert Join(t[1..][1..], ".") == t[2] + "." + t[3];
  }

  /** Dotted decimal has no `'/'`, `':'`, space or line break, and starts and ends with a digit. */
  lemma FormatIpv4Chars(a: Ipv4)
    ensures '/' !in FormatIpv4(a) && '\n' !in FormatIpv4(a)
    ensures ':' !in FormatIpv4(a) && ' ' !in FormatIpv4(a)
    ensures FormatIpv4(a) != [] && IsDigit(FormatIpv4(a)[0])
    ensures IsDigit(FormatIpv4(a)[|FormatIpv4(a)| - 1])
  {
    DigitsFree(FormatDecimal(a.o0));
    DigitsFree(FormatDecimal(a.o1));
    DigitsFree(FormatDecimal(a.o2));
    DigitsFree(FormatDecimal(a.o3));
    var d3 := FormatDecimal(a.o3);
    var s := FormatIpv4(a);
    assert s[|s| - 1] == d3[|d3| - 1];
  }

  /**
   * One decimal group of the `Ipv4Addr` parser: one to three ASCII digits, no leading zero
   * unless the group is a lone `0`, value at most 255 (no sign, unlike `u8::from_str`).
   */
  function ParseOctet(s: string): (r: Option<Byte>)
    ensures r.Some? ==> 1 <= |s| <= 3 && AllDigits(s)
  {
    if 1 <= |s| <= 3 && AllDigits(s) && !(|s| > 1 && s[0] == '0') && DecimalValue(s) <= 255
    then Some(DecimalValue(s))
    else None
  }

  /** A digit string without a leading zero spells a positive number. */
  lemma {:induction false} DecimalValuePositive(s: string)
    requires s != [] && AllDigits(s) && s[0] != '0'
    ensures DecimalValue(s) > 0
  {
    if |s| > 1 {
      DecimalValuePositive(s[..|s| - 1]);
    }
  }

  /** A digit string without a leading zero is the decimal text of its value. */
  lemma {:induction false} CanonicalDecimal(s: string)
    requires s != [] && AllDigits(s) && (|s| > 1 ==> s[0] != '0')
    ensures FormatDecimal(DecimalValue(s)) == s
  {
    var init := s[..|s| - 1];
    var d := DigitValue(s[|s| - 1]);
    if |s| > 1 {
      DecimalValuePositive(init);
      CanonicalDecimal(init);
      var n := DecimalValue(s);
      assert n == 10 * DecimalValue(init) + d;
      assert n / 10 == DecimalValue(init) && n % 10 == d;
      assert DigitChar(d) == s[|s| - 1];
      assert s == init + [s[|s| - 1]];
    } else {
      assert DigitChar(d) == s[0];
    }
  }

  /** The octet parser accepts exactly the decimal text of each octet value. */
  lemma ParseOctetIff(s: string, n: Byte)
    ensures ParseOctet(s) == Some(n) <==> s == FormatDecimal(n)
  {
    if ParseOctet(s) == Some(n) {
      CanonicalDecimal(s);
    }
    if s == FormatDecimal(n) {
      FormatDecimalShort(n);
      DecimalRoundTrip(n);
    }
  }

  /** `str::parse::<Ipv4Addr>`: exactly four groups separated by `'.'`. */
  function ParseIpv4(s: string): Option<Ipv4>
  {
    var parts := Split(s, ".");
    if |parts| != 4 then None
    else
      var g0, g1, g2, g3 := ParseOctet(parts[0]), ParseOctet(parts[1]), ParseOctet(parts[2]), ParseOctet(parts[3]);
      if g0.Some? && g1.Some? && g2.Some? && g3.Some?
      then Some(Ipv4(g0.value, g1.value, g2.value, g3.value))
      else None
  }

  /** The address parser accepts exactly dotted decimal: it is the inverse of `Display`. */
  lemma ParseIpv4Iff(s: string, a: Ipv4)
    ensures ParseIpv4(s) == Some(a) <==> s == FormatIpv4(a)
  {
    var t := OctetTexts(a);
    FormatIpv4IsJoin(a);
    if s == FormatIpv4(a) {
      forall i | 0 <= i < 4 ensures '.' !in t[i] {
        DigitsFree(t[i]);
      }
      SplitJoinChar(t, '.');
      ParseOctetIff(t[0], a.o0);
      ParseOctetIff(t[1], a.o1);
      ParseOctetIff(t[2], a.o2);
      ParseOctetIff(t[3], a.o3);
    }
    if ParseIpv4(s) == Some(a) {
      var parts := Split(s, ".");
      ParseOctetIff(parts[0], a.o0);
      ParseOctetIff(parts[1], a.o1);
      ParseOctetIff(parts[2], a.o2);
      ParseOctetIff(parts[3], a.o3);
      assert parts == t;
      JoinSplit(s, ".");
    }
  }

  /**
   * One line of the block list, as the loop body of `load_subnets` treats it: trimmed; blank and
   * `#` lines skipped; otherwise cut at the first `'/'` into an address and a `u8` prefix, and
   * kept only when both parse and the prefix is at most 32.
   */
  function ParseLine(raw: string): (r: Option<Subnet>)
    ensures r.Some? ==> r.value.prefix <= 32
    ensures Trim(raw) == [] || StartsWith(Trim(raw), "#") ==> r.None?
  {
    var line := Trim(raw);
    if line == [] || StartsWith(line, "#") then None
    else
      match SplitOnce(line, '/')
      case None => None
      case Some((ipText, prefixText)) =>
        var ip := ParseIpv4(ipText);
        var prefix := ParseUnsigned(prefixText, 255);
        if ip.Some? && prefix.Some? && prefix.value <= 32 then Some(Subnet(ip.value, prefix.value))
        else None
  }

  /** How an entry of the block list is written: `a.b.c.d/p`. */
  function FormatSubnet(s: Subnet): string
  {
    FormatIpv4(s.network) + "/" + FormatDecimal(s.prefix)
  }

  /** A well-formed block-list line is read back as the entry it was written from. */
  lemma ParseLineFormat(s: Subnet)
    requires s.prefix <= 32
    ensures ParseLine(FormatSubnet(s)) == Some(s)
  {
    var ipText := FormatIpv4(s.network);
    var prefixText := FormatDecimal(s.prefix);
    var line := FormatSubnet(s);
    FormatIpv4Chars(s.network);
    assert line[0] == ipText[0];
    assert line[|line| - 1] == prefixText[|prefixText| - 1];
    TrimUnchanged(line);
    assert !StartsWith(line, "#") by {
      assert line[..1][0] == ipText[0];
    }
    SplitOnceAt(ipText, '/', prefixText);
    ParseIpv4Iff(ipText, s.network);
    ParseFormatDecimal(s.prefix, 255);
  }

  /** The values `f` yields for the elements of `xs`, in order, skipping those it yields none for. */
  function FilterMap<A, B>(xs: seq<A>, f: A -> Option<B>): (r: seq<B>)
    ensures |r| <= |xs|
  {
    if xs == [] then []
    else
      var last := f(xs[|xs| - 1]);
      FilterMap(xs[..|xs| - 1], f) + (if last.Some? then [last.value] else [])
  }

  /** Elements are handled one at a time: the result for a concatenation is the concatenation. */
  lemma {:induction false} FilterMapAppend<A, B>(xs: seq<A>, ys: seq<A>, f: A -> Option<B>)
    ensures FilterMap(xs + ys, f) == FilterMap(xs, f) + FilterMap(ys, f)
    decreases |ys|
  {
    if ys != [] {
      var ys' := ys[..|ys| - 1];
      FilterMapAppend(xs, ys', f);
      assert (xs + ys)[..|xs + ys| - 1] == xs + ys';
    } else {
      assert xs + ys == xs;
    }
  }

  /** A value is in the result exactly when `f` yields it for some element. */
  lemma {:induction false} FilterMapMember<A, B>(xs: seq<A>, f: A -> Option<B>, y: B)
    ensures y in FilterMap(xs, f) <==> exists i :: 0 <= i < |xs| && f(xs[i]) == Some(y)
  {
    if xs != [] {
      var n := |xs| - 1;
      var init := xs[..n];
      FilterMapMember(init, f, y);
      if y in FilterMap(xs, f) && y in FilterMap(init, f) {
        var i :| 0 <= i < |init| && f(init[i]) == Some(y);
        assert xs[i] == init[i];
      }
      if exists i :: 0 <= i < |xs| && f(xs[i]) == Some(y) {
        var i :| 0 <= i < |xs| && f(xs[i]) == Some(y);
        if i < n {
          assert init[i] == xs[i];
        }
      }
    }
  }

  /** When `f` yields a value for every element, the result lists those values. */
  lemma {:induction false} FilterMapAll<A, B>(xs: seq<A>, f: A -> Option<B>, ys: seq<B>)
    requires |xs| == |ys|
    requires forall i :: 0 <= i < |xs| ==> f(xs[i]) == Some(ys[i])
    ensures FilterMap(xs, f) == ys
  {
    if xs != [] {
      var n := |xs| - 1;
      FilterMapAll(xs[..n], f, ys[..n]);
      assert ys == ys[..n] + [ys[n]];
    }
  }

  /** The entries `load_subnets` keeps from the given lines, in file order. */
  function SubnetsFromLines(lines: seq<string>): (r: seq<Subnet>)
    ensures forall i :: 0 <= i < |r| ==> r[i].prefix <= 32
  {
    var r := FilterMap(lines, ParseLine);
    assert forall i :: 0 <= i < |r| ==> r[i].prefix <= 32 by {
      forall i | 0 <= i < |r| ensures r[i].prefix <= 32 {
        FilterMapMember(lines, ParseLine, r[i]);
      }
    }
    r
  }

  /** An entry is loaded exactly when some line of the file parses to it. */
  lemma SubnetsFromLinesMember(lines: seq<string>, s: Subnet)
    ensures s in SubnetsFromLines(lines) <==> exists i :: 0 <= i < |lines| && ParseLine(lines[i]) == Some(s)
  {
    FilterMapMember(lines, ParseLine, s);
  }

  /** Lines are handled one at a time, so the file order of the kept entries is kept. */
  lemma SubnetsFromLinesAppend(a: seq<string>, b: seq<string>)
    ensures SubnetsFromLines(a + b) == SubnetsFromLines(a) + SubnetsFromLines(b)
  {
    FilterMapAppend(a, b, ParseLine);
  }

  /**
   * `load_subnets` after the file read: `content` is the text of `assets/ips.txt`, or `None`
   * when it could not be read, in which case the list is empty.
   */
  method LoadSubnets(content: Option<string>) returns (subnets: seq<Subnet>)
    ensures content.None? ==> subnets == []
    ensures content.Some? ==> subnets == SubnetsFromLines(Lines(content.value))
    ensures forall i :: 0 <= i < |subnets| ==> subnets[i].prefix <= 32
  {
    if content.None? {
      return [];
    }
    var lines := Lines(content.value);
    subnets := [];
    var i := 0;
    while i < |lines|
      invariant 0 <= i <= |lines|
      invariant subnets == SubnetsFromLines(lines[..i])
    {
      assert lines[..i + 1][..i] == lines[..i];
      var kept := ParseLine(lines[i]);
      if kept.Some? {
        subnets := subnets + [kept.value];
      }
      i := i + 1;
    }
    assert lines[..i] == lines;
  }

  /** The block-list file that lists the given entries one per line. */
  function BlockListText(subnets: seq<Subnet>): string
  {
    Join(FormattedSubnets(subnets), "\n")
  }

  function FormattedSubnets(subnets: seq<Subnet>): (r: seq<string>)
    ensures |r| == |subnets|
  {
    seq(|subnets|, i requires 0 <= i < |subnets| => FormatSubnet(subnets[i]))
  }

  /** Dotted-decimal lines contain no line break and end in a digit. */
  lemma FormatSubnetChars(s: Subnet)
    ensures '\n' !in FormatSubnet(s)
    ensures FormatSubnet(s) != [] && IsDigit(FormatSubnet(s)[|FormatSubnet(s)| - 1])
  {
    FormatIpv4Chars(s.network);
    DigitsFree(FormatDecimal(s.prefix));
    var p := FormatDecimal(s.prefix);
    assert FormatSubnet(s)[|FormatSubnet(s)| - 1] == p[|p| - 1];
  }

  /** `str::lines` of the written file gives back exactly the written lines. */
  lemma LinesOfBlockList(subnets: seq<Subnet>)
    ensures Lines(BlockListText(subnets)) == FormattedSubnets(subnets)
  {
    var f := FormattedSubnets(subnets);
    if subnets == [] {
      assert Split("", "\n") == [""];
    } else {
      forall i | 0 <= i < |f| ensures '\n' !in f[i] && f[i] != [] && f[i][|f[i]| - 1] != '\r' {
        FormatSubnetChars(subnets[i]);
      }
      LinesOfJoin(f);
    }
  }

  /** Reading back a block list written one entry per line loads exactly those entries, in order. */
  lemma LoadBlockList(subnets: seq<Subnet>)
    requires forall i :: 0 <= i < |subnets| ==> subnets[i].prefix <= 32
    ensures SubnetsFromLines(Lines(BlockListText(subnets))) == subnets
  {
    LinesOfBlockList(subnets);
    FormattedLinesLoad(subnets);
  }

  lemma FormattedLinesLoad(subnets: seq<Subnet>)
    requires forall i :: 0 <= i < |subnets| ==> subnets[i].prefix <= 32
    ensures SubnetsFromLines(FormattedSubnets(subnets)) == subnets
  {
    var f := FormattedSubnets(subnets);
    forall i | 0 <= i < |f| ensures ParseLine(f[i]) == Some(subnets[i]) {
      ParseLineFormat(subnets[i]);
    }
    FilterMapAll(f, ParseLine, subnets);
  }

  // ---------------------------------------------------------------------------------------
  // Sampling a start address
  // ---------------------------------------------------------------------------------------

  /** The bitwise OR of two naturals, one binary digit at a time. */
  function BitOr(a: nat, b: nat): nat
    decreases a + b
  {
    if a == 0 then b
    else if b == 0 then a
    else 2 * BitOr(a / 2, b / 2) + (if a % 2 == 1 || b % 2 == 1 then 1 else 0)
  }

  /** OR of two numbers below 2^k stays below 2^k. */
  lemma {:induction false} BitOrBound(a: nat, b: nat, k: nat)
    requires a < Pow2(k) && b < Pow2(k)
    ensures BitOr(a, b) < Pow2(k)
    decreases a + b
  {
    if a != 0 && b != 0 {
      BitOrBound(a / 2, b / 2, k - 1);
    }
  }

  /** `x >> k`: the bits of `x` from position `k` up (for an address, its block under prefix `32 - k`). */
  function HighBits(x: nat, k: nat): nat
  {
    if k == 0 then x else HighBits(x / 2, k - 1)
  }

  /** `x & (2^k - 1)`: the `k` low bits of `x` (for an address, its host part). */
  function LowBits(x: nat, k: nat): (r: nat)
    ensures r < Pow2(k)
  {
    if k == 0 then 0 else 2 * LowBits(x / 2, k - 1) + x % 2
  }

  /** A number below 2^k has no bits from position `k` up. */
  lemma {:induction false} HighBitsOfSmall(x: nat, k: nat)
    requires x < Pow2(k)
    ensures HighBits(x, k) == 0
  {
    if k > 0 {
      HighBitsOfSmall(x / 2, k - 1);
    }
  }

  /** OR with a value below 2^k leaves the bits from position `k` up as they were. */
  lemma {:induction false} BitOrHighBits(a: nat, b: nat, k: nat)
    requires b < Pow2(k)
    ensures HighBits(BitOr(a, b), k) == HighBits(a, k)
    decreases k
  {
    if k > 0 && b != 0 {
      if a == 0 {
        HighBitsOfSmall(b, k);
        HighBitsOfSmall(0, k);
      } else {
        BitOrHighBits(a / 2, b / 2, k - 1);
        var bit := if a % 2 == 1 || b % 2 == 1 then 1 else 0;
        assert (2 * BitOr(a / 2, b / 2) + bit) / 2 == BitOr(a / 2, b / 2);
      }
    }
  }

  /** OR with a value below 2^k adds it when the `k` low bits are all zero. */
  lemma {:induction false} BitOrAligned(a: nat, b: nat, k: nat)
    requires b < Pow2(k) && LowBits(a, k) == 0
    ensures BitOr(a, b) == a + b
    decreases k
  {
    if a != 0 && b != 0 {
      assert a % 2 == 0 && LowBits(a / 2, k - 1) == 0;
      BitOrAligned(a / 2, b / 2, k - 1);
    }
  }

  /** The largest host offset a block of `32 - prefix` host bits has room for: `max_hosts`. */
  function MaxHosts(prefix: Byte): (r: nat)
    requires prefix <= 32
    ensures r == Pow2(32 - prefix) - 1
  {
    var hostBits := 32 - prefix;
    if hostBits >= 32 then Pow2Of32(); U32_MODULUS - 1 else Pow2(hostBits) - 1
  }

  lemma {:induction false} Pow2Monotone(a: nat, b: nat)
    requires a <= b
    ensures Pow2(a) <= Pow2(b)
    decreases b
  {
    if a < b {
      Pow2Monotone(a, b - 1);
    }
  }

  /** `draw` stands for `rng.random_range(1..max_hosts)`, used only when `max_hosts > 2`. */
  predicate OffsetDrawOk(prefix: Byte, draw: nat)
    requires prefix <= 32
  {
    MaxHosts(prefix) > 2 ==> 1 <= draw < MaxHosts(prefix)
  }

  /**
   * The host offset `random_ip_from_subnet` ORs in: 1 when the block has at most one host bit,
   * otherwise a draw from [1, 2^h - 2]; the all-ones host is never drawn.
   */
  function HostOffset(prefix: Byte, draw: nat): (r: nat)
    requires prefix <= 32 && OffsetDrawOk(prefix, draw)
    ensures prefix >= 31 ==> r == 1
    ensures prefix <= 30 ==> 1 <= r <= Pow2(32 - prefix) - 2 && r == draw
  {
    FewHosts(prefix);
    if MaxHosts(prefix) <= 2 then 1 else draw
  }

  /** `max_hosts <= 2` exactly for the blocks with at most one host bit. */
  lemma FewHosts(prefix: Byte)
    requires prefix <= 32
    ensures MaxHosts(prefix) <= 2 <==> prefix >= 31
  {
    if prefix >= 31 {
      assert Pow2(32 - prefix) <= 2;
    } else {
      Pow2Monotone(2, 32 - prefix);
      assert Pow2(2) == 4;
    }
  }

  /** `random_ip_from_subnet(network, prefix)` given the offset draw. */
  function RandomIpFromSubnet(network: Ipv4, prefix: Byte, draw: nat): Ipv4
    requires prefix <= 32 && OffsetDrawOk(prefix, draw)
  {
    var offset := HostOffset(prefix, draw);
    Pow2Monotone(32 - prefix, 32);
    Pow2Monotone(1, 32);
    Pow2Of32();
    BitOrBound(ToU32(network), offset, 32);
    FromU32(BitOr(ToU32(network), offset))
  }

  /** The 32-bit value of the sample is `network | offset`. */
  lemma SampleValue(network: Ipv4, prefix: Byte, draw: nat)
    requires prefix <= 32 && OffsetDrawOk(prefix, draw)
    ensures ToU32(RandomIpFromSubnet(network, prefix, draw)) == BitOr(ToU32(network), HostOffset(prefix, draw))
  {
    var offset := HostOffset(prefix, draw);
    Pow2Monotone(32 - prefix, 32);
    Pow2Monotone(1, 32);
    Pow2Of32();
    BitOrBound(ToU32(network), offset, 32);
    ToFromU32(BitOr(ToU32(network), offset));
  }

  /** The sample keeps the network's block: its bits above the host part are the network's. */
  lemma SampleInBlock(network: Ipv4, prefix: Byte, draw: nat)
    requires prefix <= 31 && OffsetDrawOk(prefix, draw)
    ensures HighBits(ToU32(RandomIpFromSubnet(network, prefix, draw)), 32 - prefix)
         == HighBits(ToU32(network), 32 - prefix)
  {
    var n := ToU32(network);
    var offset := HostOffset(prefix, draw);
    Pow2Monotone(1, 32 - prefix);
    BitOrHighBits(n, offset, 32 - prefix);
    SampleValue(network, prefix, draw);
  }

  /**
   * For a block whose host bits are zero the sample is the network address plus the offset: with
   * at least two host bits it is neither the network nor the all-ones (broadcast) address.
   */
  lemma SampleAligned(network: Ipv4, prefix: Byte, draw: nat)
    requires prefix <= 31 && OffsetDrawOk(prefix, draw)
    requires LowBits(ToU32(network), 32 - prefix) == 0
    ensures ToU32(RandomIpFromSubnet(network, prefix, draw)) == ToU32(network) + HostOffset(prefix, draw)
    ensures prefix <= 30 ==>
      ToU32(network) < ToU32(RandomIpFromSubnet(network, prefix, draw)) < ToU32(network) + Pow2(32 - prefix) - 1
  {
    var n := ToU32(network);
    var offset := HostOffset(prefix, draw);
    Pow2Monotone(1, 32 - prefix);
    BitOrAligned(n, offset, 32 - prefix);
    SampleValue(network, prefix, draw);
  }

  /** A `/32` entry yields `network | 1`: the listed address itself only when it is odd. */
  lemma SampleSingleHost(network: Ipv4, draw: nat)
    ensures ToU32(RandomIpFromSubnet(network, 32, draw))
         == if ToU32(network) % 2 == 1 then ToU32(network) else ToU32(network) + 1
  {
    var n := ToU32(network);
    if n != 0 {
      assert BitOr(n, 1) == 2 * BitOr(n / 2, 0) + 1;
    }
    SampleValue(network, 32, draw);
  }

  /** The first octet of the drawn address is 1..223 and the last 1..254 (`random_range(1..=223)` etc.). */
  predicate InFallbackRange(a: Ipv4)
  {
    1 <= a.o0 <= 223 && 1 <= a.o3 <= 254
  }

  /** `Ipv4Addr::is_private`: 10/8, 172.16/12 and 192.168/16 (section 3 of RFC 1918). */
  predicate IsPrivate(a: Ipv4)
  {
    a.o0 == 10 || (a.o0 == 172 && 16 <= a.o1 <= 31) || (a.o0 == 192 && a.o1 == 168)
  }

  /** `Ipv4Addr::is_loopback`: 127/8. */
  predicate IsLoopback(a: Ipv4)
  {
    a.o0 == 127
  }

  /** The rejection test of the fallback loop. */
  predicate Rejected(a: Ipv4)
  {
    IsPrivate(a) || IsLoopback(a) || a.o0 == 0
  }

  /** Index of the first draw the fallback loop returns, if any draw is accepted. */
  function FirstAccepted(draws: seq<Ipv4>): (r: Option<nat>)
    ensures r.Some? ==> r.value < |draws| && !Rejected(draws[r.value])
    ensures r.Some? ==> forall j :: 0 <= j < r.value ==> Rejected(draws[j])
    ensures r.None? ==> forall j :: 0 <= j < |draws| ==> Rejected(draws[j])
  {
    if draws == [] then None
    else if !Rejected(draws[0]) then Some(0)
    else
      match FirstAccepted(draws[1..])
      case None => None
      case Some(i) => Some(i + 1)
  }

  /**
   * `random_ipv4_fallback`, given the addresses its successive iterations draw. The loop returns
   * the first one that is not rejected; `None` means these draws were all rejected and the
   * loop would go on drawing.
   */
  method RandomIpv4Fallback(draws: seq<Ipv4>) returns (r: Option<Ipv4>)
    requires forall i :: 0 <= i < |draws| ==> InFallbackRange(draws[i])
    ensures r == (match FirstAccepted(draws) case None => None case Some(i) => Some(draws[i]))
    ensures r.Some? ==>
      1 <= r.value.o0 <= 223 && 1 <= r.value.o3 <= 254 && !IsPrivate(r.value) && r.value.o0 != 127
  {
    var i := 0;
    while i < |draws|
      invariant 0 <= i <= |draws|
      invariant forall j :: 0 <= j < i ==> Rejected(draws[j])
    {
      var ip := draws[i];
      if IsPrivate(ip) || IsLoopback(ip) || ip.o0 == 0 {
        i := i + 1;
        continue;
      }
      FirstAcceptedAt(draws, i);
      return Some(ip);
    }
    FirstAcceptedNone(draws);
    return None;
  }

  lemma FirstAcceptedAt(draws: seq<Ipv4>, i: nat)
    requires i < |draws| && !Rejected(draws[i])
    requires forall j :: 0 <= j < i ==> Rejected(draws[j])
    ensures FirstAccepted(draws) == Some(i)
  {
  }

  lemma FirstAcceptedNone(draws: seq<Ipv4>)
    requires forall j :: 0 <= j < |draws| ==> Rejected(draws[j])
    ensures FirstAccepted(draws) == None
  {
  }

  /**
   * `random_ipv4_from_subnets`: `fallback` is what `random_ipv4_fallback` returns, `pick` the
   * `random_range(0..len)` draw and `draw` the offset draw for the picked entry.
   */
  function RandomIpv4FromSubnets(subnets: seq<Subnet>, pick: nat, draw: nat, fallback: Ipv4): (r: Ipv4)
    requires subnets != [] ==> pick < |subnets| && subnets[pick].prefix <= 32
    requires subnets != [] ==> OffsetDrawOk(subnets[pick].prefix, draw)
    ensures subnets == [] ==> r == fallback
    ensures subnets != [] && subnets[pick].prefix <= 31 ==>
      HighBits(ToU32(r), 32 - subnets[pick].prefix) == HighBits(ToU32(subnets[pick].network), 32 - subnets[pick].prefix)
  {
    if subnets == [] then fallback
    else
      var s := subnets[pick];
      var ip := RandomIpFromSubnet(s.network, s.prefix, draw);
      if s.prefix <= 31 then SampleInBlock(s.network, s.prefix, draw); ip else ip
  }

  /** `u32::wrapping_add`. */
  function WrappingAdd(u: U32, v: U32): (r: U32)
    ensures r == (u + v) % U32_MODULUS
  {
    if u + v < U32_MODULUS then u + v else u + v - U32_MODULUS
  }

  /** `increment_ip(base, offset)`: `wrapping_add` on the 32-bit value. */
  function IncrementIp(base: Ipv4, offset: U32): (r: Ipv4)
    ensures ToU32(r) == (ToU32(base) + offset) % U32_MODULUS
  {
    ToFromU32(WrappingAdd(ToU32(base), offset));
    FromU32(WrappingAdd(ToU32(base), offset))
  }

  /** Two increments are one increment by the wrapped sum. */
  lemma IncrementCompose(a: Ipv4, x: U32, y: U32)
    ensures IncrementIp(IncrementIp(a, x), y) == IncrementIp(a, WrappingAdd(x, y))
  {
    var n := ToU32(a);
    ToFromU32(WrappingAdd(n, x));
    assert WrappingAdd(WrappingAdd(n, x), y) == WrappingAdd(n, WrappingAdd(x, y));
  }

  /** An increment by 0 changes nothing. */
  lemma IncrementZero(a: Ipv4)
    ensures IncrementIp(a, 0) == a
  {
    FromToU32(a);
  }
}
