/**
 * One scanning worker of `src/scanner.rs`, run sequentially. The worker picks a start
 * address, walks the range after it chunk by chunk, probes every address of a chunk, pings the
 * open ones and reports what it saw to the statistics task as `ScanMessage`s. The probe and the
 * ping are parameters over (address, source port): the worker awaits each phase's results in
 * the order it spawned them, so running them one after the other gives the same events.
 */
module Scanner {
  import opened Common
  import opened Text
  import opened Network
  import Minecraft
  import Discord
  import Stats

  // ---------------------------------------------------------------------------------------
  // Configuration and source ports
  // ---------------------------------------------------------------------------------------

  /** The settings one worker reads: the scanned port, range and chunk sizes, its base source port. */
  datatype WorkerConfig = WorkerConfig(
    port: U16, maxRangeSize: nat, consecutiveThreshold: nat, chunkSize: nat, baseSourcePort: U16)

  /**
   * What the worker needs of its settings: `max_range_size` is a `usize` (64 bits here), and
   * every port `base + counter % 255` it draws fits in a `u16`.
   */
  predicate ConfigOk(cfg: WorkerConfig)
  {
    cfg.maxRangeSize < U64_LIMIT && cfg.baseSourcePort + 254 < U16_MODULUS
  }

  /**
   * The base source port of worker `taskId`: `base + (task_id as u16) * per_task` in `u16`
   * arithmetic. `None` where the product or the sum overflows, which panics in a build with
   * overflow checks.
   */
  function WorkerBasePort(base: U16, taskId: nat, perTask: U16): (r: Option<U16>)
    ensures r.Some? <==> base + (taskId % U16_MODULUS) * perTask < U16_MODULUS
    ensures r.Some? ==> r.value == base + (taskId % U16_MODULUS) * perTask
  {
    var t := taskId % U16_MODULUS;
    if t * perTask >= U16_MODULUS then None
    else if base + t * perTask >= U16_MODULUS then None
    else Some(base + t * perTask)
  }

  /**
   * With at least 255 ports per task, the 255 source ports of a worker lie below the base of
   * every later worker: no two workers share a source port.
   */
  lemma WorkerPortsDisjoint(base: U16, i: nat, j: nat, perTask: U16)
    requires i < j < U16_MODULUS && perTask >= 255
    requires WorkerBasePort(base, i, perTask).Some? && WorkerBasePort(base, j, perTask).Some?
    ensures WorkerBasePort(base, i, perTask).value + 254 < WorkerBasePort(base, j, perTask).value
  {
    assert i % U16_MODULUS == i;
    assert j % U16_MODULUS == j;
    MulGap(i, j, perTask);
  }

  lemma {:induction false} MulGap(i: nat, j: nat, p: nat)
    requires i < j
    ensures i * p + p <= j * p
    decreases j
  {
    MulSucc(j - 1, p);
    if j - 1 > i {
      MulGap(i, j - 1, p);
    }
  }

  lemma MulSucc(n: nat, m: nat)
    ensures (n + 1) * m == n * m + m
  {
  }

  /** The source port of one probe or ping: `base + counter % 255`. */
  function SourcePort(base: U16, counter: U16): (r: U16)
    requires base + 254 < U16_MODULUS
    ensures base <= r <= base + 254
  {
    base + counter % 255
  }

  /** The counter after `k` draws, each a `wrapping_add(1)` on the `u16`. */
  function Advance(counter: U16, k: nat): U16
  {
    (counter + k) % U16_MODULUS
  }

  /** `counter.wrapping_add(1)`. */
  function WrappingIncrement(counter: U16): (r: U16)
    ensures r == Advance(counter, 1)
  {
    if counter == U16_MODULUS - 1 then 0 else counter + 1
  }

  lemma AdvanceStep(counter: U16, k: nat)
    ensures WrappingIncrement(Advance(counter, k)) == Advance(counter, k + 1)
  {
  }

  // ---------------------------------------------------------------------------------------
  // One chunk: addresses, probes, pings, events
  // ---------------------------------------------------------------------------------------

  /** The chunk's addresses: `increment_ip(current, i as u32)` for `i` in `0..size`. */
  function ChunkAddresses(current: Ipv4, size: nat): (ips: seq<Ipv4>)
    ensures |ips| == size
    ensures forall i :: 0 <= i < size ==> ToU32(ips[i]) == (ToU32(current) + i) % U32_MODULUS
  {
    var ips := seq(size, i requires 0 <= i < size => IncrementIp(current, i % U32_MODULUS));
    ChunkAddressValues(current, ips);
    ips
  }

  lemma ChunkAddressValues(current: Ipv4, ips: seq<Ipv4>)
    requires forall i :: 0 <= i < |ips| ==> ips[i] == IncrementIp(current, i % U32_MODULUS)
    ensures forall i :: 0 <= i < |ips| ==> ToU32(ips[i]) == (ToU32(current) + i) % U32_MODULUS
  {
    forall i | 0 <= i < |ips|
      ensures ToU32(ips[i]) == (ToU32(current) + i) % U32_MODULUS
    {
      AddModRight(ToU32(current), i);
    }
  }

  /** Reducing the second summand first does not change the sum modulo 2^32. */
  lemma AddModRight(a: nat, i: nat)
    ensures (a + i % U32_MODULUS) % U32_MODULUS == (a + i) % U32_MODULUS
  {
    var q := i / U32_MODULUS;
    assert i == q * U32_MODULUS + i % U32_MODULUS;
    assert a + i == (a + i % U32_MODULUS) + q * U32_MODULUS;
  }

  /**
   * The addresses the probes report open, in probe order. The probe of `ips[k]` uses the
   * source port of the `k`-th draw after `counter`.
   */
  function Probes(ips: seq<Ipv4>, base: U16, counter: U16, probe: (Ipv4, U16) -> bool): (opens: seq<Ipv4>)
    requires base + 254 < U16_MODULUS
    ensures |opens| <= |ips|
  {
    if ips == [] then []
    else
      var n := |ips| - 1;
      Probes(ips[..n], base, counter, probe)
        + (if probe(ips[n], SourcePort(base, Advance(counter, n))) then [ips[n]] else [])
  }

  /** An address is reported open exactly when it is in the chunk and its own probe said so. */
  lemma {:induction false} ProbesExactly(ips: seq<Ipv4>, base: U16, counter: U16, probe: (Ipv4, U16) -> bool)
    requires base + 254 < U16_MODULUS
    ensures forall a :: a in Probes(ips, base, counter, probe) ==>
      exists k :: 0 <= k < |ips| && ips[k] == a && probe(a, SourcePort(base, Advance(counter, k)))
    ensures forall k :: 0 <= k < |ips| && probe(ips[k], SourcePort(base, Advance(counter, k))) ==>
      ips[k] in Probes(ips, base, counter, probe)
  {
    if ips != [] {
      var n := |ips| - 1;
      ProbesExactly(ips[..n], base, counter, probe);
      forall a | a in Probes(ips, base, counter, probe)
        ensures exists k :: 0 <= k < |ips| && ips[k] == a && probe(a, SourcePort(base, Advance(counter, k)))
      {
        if a in Probes(ips[..n], base, counter, probe) {
          var k :| 0 <= k < n && ips[..n][k] == a && probe(a, SourcePort(base, Advance(counter, k)));
          assert ips[k] == a;
        } else {
          assert ips[n] == a;
        }
      }
      forall k | 0 <= k < |ips| && probe(ips[k], SourcePort(base, Advance(counter, k)))
        ensures ips[k] in Probes(ips, base, counter, probe)
      {
        if k < n {
          assert ips[..n][k] == ips[k];
        }
      }
    }
  }

  /** The `[FOUND]` line for a server that answered the status ping. */
  function FoundMessage(ip: Ipv4, port: U16, status: Minecraft.ServerStatus, show: Minecraft.Json -> string): string
  {
    "[FOUND] " + FormatIpv4(ip) + ":" + FormatDecimal(port) + " - "
      + FormatDecimal(status.playersOnline) + "/" + FormatDecimal(status.playersMax) + " - "
      + status.versionName + " - " + Minecraft.ExtractDescription(status.description, show)
  }

  /**
   * The `[FOUND]` lines of the open addresses whose ping succeeded, in order. The ping of
   * `opens[k]` uses the source port of the `k`-th draw after `counter`.
   */
  function Pings(opens: seq<Ipv4>, port: U16, base: U16, counter: U16,
                 ping: (Ipv4, U16) -> Option<Minecraft.ServerStatus>, show: Minecraft.Json -> string): (found: seq<string>)
    requires base + 254 < U16_MODULUS
    ensures |found| <= |opens|
  {
    if opens == [] then []
    else
      var n := |opens| - 1;
      Pings(opens[..n], port, base, counter, ping, show)
        + (match ping(opens[n], SourcePort(base, Advance(counter, n)))
           case Some(status) => [FoundMessage(opens[n], port, status, show)]
           case None => [])
  }

  /** Every `[FOUND]` line is the line of an open address whose ping answered. */
  lemma {:induction false} PingsOnlyAnswered(opens: seq<Ipv4>, port: U16, base: U16, counter: U16,
                                             ping: (Ipv4, U16) -> Option<Minecraft.ServerStatus>,
                                             show: Minecraft.Json -> string)
    requires base + 254 < U16_MODULUS
    ensures forall m :: m in Pings(opens, port, base, counter, ping, show) ==>
      exists k :: 0 <= k < |opens| && ping(opens[k], SourcePort(base, Advance(counter, k))).Some? &&
        m == FoundMessage(opens[k], port, ping(opens[k], SourcePort(base, Advance(counter, k))).value, show)
  {
    if opens != [] {
      var n := |opens| - 1;
      PingsOnlyAnswered(opens[..n], port, base, counter, ping, show);
      forall m | m in Pings(opens, port, base, counter, ping, show)
        ensures exists k :: 0 <= k < |opens| && ping(opens[k], SourcePort(base, Advance(counter, k))).Some? &&
                            m == FoundMessage(opens[k], port, ping(opens[k], SourcePort(base, Advance(counter, k))).value, show)
      {
        if m in Pings(opens[..n], port, base, counter, ping, show) {
          var k :| 0 <= k < n && ping(opens[..n][k], SourcePort(base, Advance(counter, k))).Some? &&
            m == FoundMessage(opens[..n][k], port, ping(opens[..n][k], SourcePort(base, Advance(counter, k))).value, show);
          assert opens[..n][k] == opens[k];
        }
      }
    }
  }

  /** Every open address whose ping answered has its `[FOUND]` line among the lines. */
  lemma {:induction false} PingsEveryAnswer(opens: seq<Ipv4>, port: U16, base: U16, counter: U16,
                                            ping: (Ipv4, U16) -> Option<Minecraft.ServerStatus>,
                                            show: Minecraft.Json -> string)
    requires base + 254 < U16_MODULUS
    ensures forall k :: 0 <= k < |opens| && ping(opens[k], SourcePort(base, Advance(counter, k))).Some? ==>
      FoundMessage(opens[k], port, ping(opens[k], SourcePort(base, Advance(counter, k))).value, show)
        in Pings(opens, port, base, counter, ping, show)
  {
    if opens != [] {
      var n := |opens| - 1;
      var found := Pings(opens, port, base, counter, ping, show);
      var before := Pings(opens[..n], port, base, counter, ping, show);
      var answer := ping(opens[n], SourcePort(base, Advance(counter, n)));
      var after := if answer.Some? then [FoundMessage(opens[n], port, answer.value, show)] else [];
      PingsEveryAnswer(opens[..n], port, base, counter, ping, show);
      PingsLast(opens, port, base, counter, ping, show);
      forall k | 0 <= k < |opens| && ping(opens[k], SourcePort(base, Advance(counter, k))).Some?
        ensures FoundMessage(opens[k], port, ping(opens[k], SourcePort(base, Advance(counter, k))).value, show) in found
      {
        var line := FoundMessage(opens[k], port, ping(opens[k], SourcePort(base, Advance(counter, k))).value, show);
        if k < n {
          assert opens[..n][k] == opens[k];
          MemberOfParts(found, before, after, line);
        } else {
          assert k == n && after == [line];
          MemberOfParts(found, before, after, line);
        }
      }
    }
  }

  lemma MemberOfParts<T>(whole: seq<T>, before: seq<T>, after: seq<T>, x: T)
    requires whole == before + after && (x in before || after == [x])
    ensures x in whole
  {
  }

  /** `Pings` of a non-empty run: the lines of all but the last address, then the last one's line if it answered. */
  lemma PingsLast(opens: seq<Ipv4>, port: U16, base: U16, counter: U16,
                  ping: (Ipv4, U16) -> Option<Minecraft.ServerStatus>, show: Minecraft.Json -> string)
    requires base + 254 < U16_MODULUS && opens != []
    ensures var n := |opens| - 1;
      var answer := ping(opens[n], SourcePort(base, Advance(counter, n)));
      Pings(opens, port, base, counter, ping, show)
        == Pings(opens[..n], port, base, counter, ping, show)
           + (if answer.Some? then [FoundMessage(opens[n], port, answer.value, show)] else [])
  {
  }

  function OpenEvents(opens: seq<Ipv4>): seq<Stats.ScanMessage>
  {
    if opens == [] then [] else [Stats.OpenPort(FormatIpv4(opens[0]))] + OpenEvents(opens[1..])
  }

  function FoundEvents(found: seq<string>): seq<Stats.ScanMessage>
  {
    if found == [] then [] else [Stats.Found(found[0])] + FoundEvents(found[1..])
  }



  /** `OpenPort` events carry no scans and no servers, one open port each. */
  lemma {:induction false} OpenEventsCounts(opens: seq<Ipv4>)
    ensures Stats.ScannedSum(OpenEvents(opens)) == 0 && Stats.FoundCount(OpenEvents(opens)) == 0
    ensures Stats.OpenPortCount(OpenEvents(opens)) == |opens|
  {
    if opens != [] {
      OpenEventsCounts(opens[1..]);
      var e := OpenEvents(opens);
      assert e[1..] == OpenEvents(opens[1..]);
    }
  }

  /** `Found` events carry no scans and no open ports, and forward their lines in order. */
  lemma {:induction false} FoundEventsCounts(found: seq<string>)
    ensures Stats.ScannedSum(FoundEvents(found)) == 0 && Stats.OpenPortCount(FoundEvents(found)) == 0
    ensures Stats.FoundCount(FoundEvents(found)) == |found| && Stats.FoundMessages(FoundEvents(found)) == found
  {
    if found != [] {
      FoundEventsCounts(found[1..]);
      var e := FoundEvents(found);
      assert e[1..] == FoundEvents(found[1..]);
      assert found == [found[0]] + found[1..];
    }
  }

  /** The events one chunk sends, in order: its open ports, its found servers, its size. */
  function ChunkEvents(opens: seq<Ipv4>, found: seq<string>, size: U64): seq<Stats.ScanMessage>
  {
    OpenEvents(opens) + FoundEvents(found) + [Stats.Scanned(size)]
  }

  /** What a chunk's events add up to on the statistics side. */
  lemma ChunkEventsCounts(opens: seq<Ipv4>, found: seq<string>, size: U64)
    ensures Stats.ScannedSum(ChunkEvents(opens, found, size)) == size
    ensures Stats.OpenPortCount(ChunkEvents(opens, found, size)) == |opens|
    ensures Stats.FoundCount(ChunkEvents(opens, found, size)) == |found|
  {
    OpenEventsCounts(opens);
    FoundEventsCounts(found);
    Stats.CountsAppend(OpenEvents(opens), FoundEvents(found));
    Stats.CountsAppend(OpenEvents(opens) + FoundEvents(found), [Stats.Scanned(size)]);
    var last: seq<Stats.ScanMessage> := [Stats.Scanned(size)];
    assert last[1..] == [];
  }

  // ---------------------------------------------------------------------------------------
  // The range loop
  // ---------------------------------------------------------------------------------------

  /**
   * The loop variables of one range: `current_ip`, `local_scanned`, `local_found`,
   * `consecutive_empty`, `source_port_counter`, and the events sent so far.
   */
  datatype RangeState = RangeState(
    current: Ipv4, scanned: nat, found: nat, empty: nat, counter: U16, events: seq<Stats.ScanMessage>)

  function Start(threadIp: Ipv4, counter: U16): RangeState
  {
    RangeState(threadIp, 0, 0, 0, counter, [])
  }

  /** The loop condition. */
  predicate Running(cfg: WorkerConfig, st: RangeState)
  {
    st.scanned < cfg.maxRangeSize && st.empty < cfg.consecutiveThreshold
  }

  /** `chunk_size.min(max_range_size - local_scanned)`. */
  function ChunkSize(cfg: WorkerConfig, scanned: nat): (size: nat)
    requires scanned <= cfg.maxRangeSize
    ensures scanned + size <= cfg.maxRangeSize
    ensures size <= cfg.chunkSize
    ensures cfg.chunkSize > 0 && scanned < cfg.maxRangeSize ==> size > 0
  {
    Min(cfg.chunkSize, cfg.maxRangeSize - scanned)
  }

  /**
   * `consecutive_empty` after a chunk: a found server resets it to 0; a chunk with no open
   * port adds its size; open ports whose pings all failed leave it alone.
   */
  function NextEmpty(empty: nat, size: nat, openCount: nat, found: nat): nat
  {
    if found > 0 then 0 else if openCount == 0 then empty + size else empty
  }

  /** One pass of the loop body. */
  function Step(cfg: WorkerConfig, probe: (Ipv4, U16) -> bool,
                ping: (Ipv4, U16) -> Option<Minecraft.ServerStatus>, show: Minecraft.Json -> string,
                st: RangeState): (r: RangeState)
    requires ConfigOk(cfg) && st.scanned <= cfg.maxRangeSize
    ensures r.scanned == st.scanned + ChunkSize(cfg, st.scanned)
    ensures r.current == IncrementIp(st.current, ChunkSize(cfg, st.scanned) % U32_MODULUS)
    ensures st.events <= r.events
  {
    var size := ChunkSize(cfg, st.scanned);
    var ips := ChunkAddresses(st.current, size);
    var opens := Probes(ips, cfg.baseSourcePort, st.counter, probe);
    var afterProbes := Advance(st.counter, size);
    var found := Pings(opens, cfg.port, cfg.baseSourcePort, afterProbes, ping, show);
    RangeState(
      IncrementIp(st.current, size % U32_MODULUS),
      st.scanned + size,
      st.found + |found|,
      NextEmpty(st.empty, size, |opens|, |found|),
      Advance(afterProbes, |opens|),
      st.events + ChunkEvents(opens, found, size))
  }

  /** The state the loop stops in, from `st` on. It needs a positive chunk size to stop. */
  function Run(cfg: WorkerConfig, probe: (Ipv4, U16) -> bool,
               ping: (Ipv4, U16) -> Option<Minecraft.ServerStatus>, show: Minecraft.Json -> string,
               st: RangeState): (r: RangeState)
    requires ConfigOk(cfg) && cfg.chunkSize > 0 && st.scanned <= cfg.maxRangeSize
    ensures !Running(cfg, r)
    ensures st.scanned <= r.scanned <= cfg.maxRangeSize
    ensures st.found <= r.found
    ensures st.events <= r.events
    ensures !Running(cfg, st) ==> r == st
    decreases cfg.maxRangeSize - st.scanned
  {
    if Running(cfg, st) then Run(cfg, probe, ping, show, Step(cfg, probe, ping, show, st)) else st
  }

  /**
   * The chunk's own events decide `consecutive_empty`: a `Found` resets it, no `OpenPort` adds
   * the chunk's size, and open ports without a `Found` leave it unchanged.
   */
  lemma ConsecutiveEmptyRule(cfg: WorkerConfig, probe: (Ipv4, U16) -> bool,
                             ping: (Ipv4, U16) -> Option<Minecraft.ServerStatus>, show: Minecraft.Json -> string,
                             st: RangeState)
    requires ConfigOk(cfg) && st.scanned <= cfg.maxRangeSize
    ensures var r := Step(cfg, probe, ping, show, st);
      var chunk := r.events[|st.events|..];
      var size := r.scanned - st.scanned;
      (Stats.FoundCount(chunk) > 0 ==> r.empty == 0) &&
      (Stats.OpenPortCount(chunk) == 0 ==> r.empty == st.empty + size) &&
      (Stats.OpenPortCount(chunk) > 0 && Stats.FoundCount(chunk) == 0 ==> r.empty == st.empty)
  {
    var size := ChunkSize(cfg, st.scanned);
    var ips := ChunkAddresses(st.current, size);
    var opens := Probes(ips, cfg.baseSourcePort, st.counter, probe);
    var found := Pings(opens, cfg.port, cfg.baseSourcePort, Advance(st.counter, size), ping, show);
    var r := Step(cfg, probe, ping, show, st);
    assert r.events[|st.events|..] == ChunkEvents(opens, found, size);
    ChunkEventsCounts(opens, found, size);
  }

  /** A chunk's events hold one `OpenPort` per open address, then the `Found` lines, then `Scanned(size)`. */
  lemma ChunkEventOrder(cfg: WorkerConfig, probe: (Ipv4, U16) -> bool,
                        ping: (Ipv4, U16) -> Option<Minecraft.ServerStatus>, show: Minecraft.Json -> string,
                        st: RangeState)
    requires ConfigOk(cfg) && st.scanned <= cfg.maxRangeSize
    ensures var r := Step(cfg, probe, ping, show, st);
      var size := ChunkSize(cfg, st.scanned);
      var opens := Probes(ChunkAddresses(st.current, size), cfg.baseSourcePort, st.counter, probe);
      var found := Pings(opens, cfg.port, cfg.baseSourcePort, Advance(st.counter, size), ping, show);
      r.events == st.events + OpenEvents(opens) + FoundEvents(found) + [Stats.Scanned(size)] &&
      Stats.OpenPortCount(OpenEvents(opens)) == |opens| && Stats.FoundCount(OpenEvents(opens)) == 0 &&
      Stats.FoundMessages(FoundEvents(found)) == found && Stats.OpenPortCount(FoundEvents(found)) == 0
  {
    var size := ChunkSize(cfg, st.scanned);
    var ips := ChunkAddresses(st.current, size);
    var opens := Probes(ips, cfg.baseSourcePort, st.counter, probe);
    var found := Pings(opens, cfg.port, cfg.baseSourcePort, Advance(st.counter, size), ping, show);
    StepOf(cfg, probe, ping, show, st, size, ips, opens, found);
    AppendThree(st.events, OpenEvents(opens), FoundEvents(found), [Stats.Scanned(size)]);
    OpenEventsCounts(opens);
    FoundEventsCounts(found);
  }

  /** With `chunk_size == 0` a running loop makes no progress: the condition never changes. */
  lemma ZeroChunkStalls(cfg: WorkerConfig, probe: (Ipv4, U16) -> bool,
                        ping: (Ipv4, U16) -> Option<Minecraft.ServerStatus>, show: Minecraft.Json -> string,
                        st: RangeState)
    requires ConfigOk(cfg) && cfg.chunkSize == 0 && Running(cfg, st)
    ensures var r := Step(cfg, probe, ping, show, st);
      Running(cfg, r) && r.scanned == st.scanned && r.empty == st.empty && r.current == st.current
  {
    var size := ChunkSize(cfg, st.scanned);
    var ips := ChunkAddresses(st.current, size);
    var opens := Probes(ips, cfg.baseSourcePort, st.counter, probe);
    var found := Pings(opens, cfg.port, cfg.baseSourcePort, Advance(st.counter, size), ping, show);
    assert size == 0 && ips == [] && opens == [] && found == [];
    StepOf(cfg, probe, ping, show, st, size, ips, opens, found);
    IncrementZero(st.current);
  }

  /** `(a % 2^32 + b % 2^32) % 2^32 == (a + b) % 2^32`. */
  lemma AddMod(a: nat, b: nat)
    ensures (a % U32_MODULUS + b % U32_MODULUS) % U32_MODULUS == (a + b) % U32_MODULUS
  {
    var qa, qb := a / U32_MODULUS, b / U32_MODULUS;
    assert a + b == (qa + qb) * U32_MODULUS + (a % U32_MODULUS + b % U32_MODULUS);
  }

  /** `current_ip` is always `thread_ip` advanced by `local_scanned`, modulo 2^32. */
  lemma {:induction false} RunAddress(cfg: WorkerConfig, probe: (Ipv4, U16) -> bool,
                                      ping: (Ipv4, U16) -> Option<Minecraft.ServerStatus>,
                                      show: Minecraft.Json -> string, threadIp: Ipv4, st: RangeState)
    requires ConfigOk(cfg) && cfg.chunkSize > 0 && st.scanned <= cfg.maxRangeSize
    requires st.current == IncrementIp(threadIp, st.scanned % U32_MODULUS)
    ensures var r := Run(cfg, probe, ping, show, st);
      r.current == IncrementIp(threadIp, r.scanned % U32_MODULUS)
    decreases cfg.maxRangeSize - st.scanned
  {
    if Running(cfg, st) {
      var next := Step(cfg, probe, ping, show, st);
      StepAddress(cfg, probe, ping, show, threadIp, st);
      RunAddress(cfg, probe, ping, show, threadIp, next);
    }
  }

  lemma StepAddress(cfg: WorkerConfig, probe: (Ipv4, U16) -> bool,
                    ping: (Ipv4, U16) -> Option<Minecraft.ServerStatus>, show: Minecraft.Json -> string,
                    threadIp: Ipv4, st: RangeState)
    requires ConfigOk(cfg) && st.scanned <= cfg.maxRangeSize
    requires st.current == IncrementIp(threadIp, st.scanned % U32_MODULUS)
    ensures var next := Step(cfg, probe, ping, show, st);
      next.current == IncrementIp(threadIp, next.scanned % U32_MODULUS)
  {
    var next := Step(cfg, probe, ping, show, st);
    AddressAdvances(threadIp, st.current, st.scanned, ChunkSize(cfg, st.scanned), next.current, next.scanned);
  }

  lemma AddressAdvances(threadIp: Ipv4, current: Ipv4, s: nat, size: nat, next: Ipv4, nextScanned: nat)
    requires current == IncrementIp(threadIp, s % U32_MODULUS)
    requires next == IncrementIp(current, size % U32_MODULUS) && nextScanned == s + size
    ensures next == IncrementIp(threadIp, nextScanned % U32_MODULUS)
  {
    AdvanceAddress(threadIp, s, size);
  }

  /** Advancing `thread + s` by `size` is advancing `thread` by `s + size`, all modulo 2^32. */
  lemma AdvanceAddress(threadIp: Ipv4, s: nat, size: nat)
    ensures IncrementIp(IncrementIp(threadIp, s % U32_MODULUS), size % U32_MODULUS)
      == IncrementIp(threadIp, (s + size) % U32_MODULUS)
  {
    IncrementCompose(threadIp, s % U32_MODULUS, size % U32_MODULUS);
    AddMod(s, size);
  }

  /**
   * The events of a run add up to what its counters say: the `Scanned` counts sum to the
   * addresses scanned, one `Found` per server found, and `consecutive_empty` never exceeds the
   * addresses scanned.
   */
  lemma {:induction false} RunCounts(cfg: WorkerConfig, probe: (Ipv4, U16) -> bool,
                                     ping: (Ipv4, U16) -> Option<Minecraft.ServerStatus>,
                                     show: Minecraft.Json -> string, st: RangeState)
    requires ConfigOk(cfg) && cfg.chunkSize > 0 && st.scanned <= cfg.maxRangeSize
    requires st.empty <= st.scanned
    ensures var r := Run(cfg, probe, ping, show, st);
      Stats.ScannedSum(r.events) == Stats.ScannedSum(st.events) + (r.scanned - st.scanned) &&
      Stats.FoundCount(r.events) == Stats.FoundCount(st.events) + (r.found - st.found) &&
      r.empty <= r.scanned
    decreases cfg.maxRangeSize - st.scanned
  {
    if Running(cfg, st) {
      var size := ChunkSize(cfg, st.scanned);
      var ips := ChunkAddresses(st.current, size);
      var opens := Probes(ips, cfg.baseSourcePort, st.counter, probe);
      var found := Pings(opens, cfg.port, cfg.baseSourcePort, Advance(st.counter, size), ping, show);
      var next := Step(cfg, probe, ping, show, st);
      ChunkEventsCounts(opens, found, size);
      Stats.CountsAppend(st.events, ChunkEvents(opens, found, size));
      RunCounts(cfg, probe, ping, show, next);
    }
  }

  /**
   * `end_ip` on line 213: `thread_ip + (local_scanned - 1)`. `None` where the subtraction
   * underflows, which panics in a build with overflow checks.
   */
  function EndIp(threadIp: Ipv4, scanned: nat): Option<Ipv4>
  {
    if scanned == 0 then None else Some(IncrementIp(threadIp, (scanned - 1) % U32_MODULUS))
  }

  /** A run from the start scans at least one address exactly when the range and threshold allow it. */
  lemma RunScansSomething(cfg: WorkerConfig, probe: (Ipv4, U16) -> bool,
                          ping: (Ipv4, U16) -> Option<Minecraft.ServerStatus>, show: Minecraft.Json -> string,
                          threadIp: Ipv4, counter: U16)
    requires ConfigOk(cfg) && cfg.chunkSize > 0
    ensures var r := Run(cfg, probe, ping, show, Start(threadIp, counter));
      r.scanned > 0 <==> cfg.maxRangeSize > 0 && cfg.consecutiveThreshold > 0
  {
    var st := Start(threadIp, counter);
    if Running(cfg, st) {
      assert Step(cfg, probe, ping, show, st).scanned > 0;
    }
  }

  /** One more probe extends the open addresses by the probed one when it answered. */
  lemma ProbeStep(ips: seq<Ipv4>, i: nat, base: U16, counter: U16, probe: (Ipv4, U16) -> bool,
                  opens: seq<Ipv4>, sourcePort: U16, open: bool)
    requires base + 254 < U16_MODULUS && i < |ips|
    requires opens == Probes(ips[..i], base, counter, probe)
    requires sourcePort == SourcePort(base, Advance(counter, i)) && open == probe(ips[i], sourcePort)
    ensures Probes(ips[..i + 1], base, counter, probe) == opens + (if open then [ips[i]] else [])
  {
    assert ips[..i + 1][..i] == ips[..i];
  }

  /** One more ping extends the `[FOUND]` lines by the pinged address's line when it answered. */
  lemma PingStep(opens: seq<Ipv4>, i: nat, port: U16, base: U16, counter: U16,
                 ping: (Ipv4, U16) -> Option<Minecraft.ServerStatus>, show: Minecraft.Json -> string,
                 messages: seq<string>, sourcePort: U16, answer: Option<Minecraft.ServerStatus>)
    requires base + 254 < U16_MODULUS && i < |opens|
    requires messages == Pings(opens[..i], port, base, counter, ping, show)
    requires sourcePort == SourcePort(base, Advance(counter, i)) && answer == ping(opens[i], sourcePort)
    ensures Pings(opens[..i + 1], port, base, counter, ping, show)
      == messages + (if answer.Some? then [FoundMessage(opens[i], port, answer.value, show)] else [])
  {
    assert opens[..i + 1][..i] == opens[..i];
  }

  lemma RunStep(cfg: WorkerConfig, probe: (Ipv4, U16) -> bool,
                ping: (Ipv4, U16) -> Option<Minecraft.ServerStatus>, show: Minecraft.Json -> string,
                st: RangeState)
    requires ConfigOk(cfg) && cfg.chunkSize > 0 && st.scanned <= cfg.maxRangeSize && Running(cfg, st)
    ensures Run(cfg, probe, ping, show, st) == Run(cfg, probe, ping, show, Step(cfg, probe, ping, show, st))
  {
  }

  /** A loop pass that probed and pinged as `Step` says ends in `Step`'s state. */
  lemma StepOf(cfg: WorkerConfig, probe: (Ipv4, U16) -> bool,
               ping: (Ipv4, U16) -> Option<Minecraft.ServerStatus>, show: Minecraft.Json -> string,
               st: RangeState, size: nat, ips: seq<Ipv4>, opens: seq<Ipv4>, found: seq<string>)
    requires ConfigOk(cfg) && st.scanned <= cfg.maxRangeSize
    requires size == ChunkSize(cfg, st.scanned) && ips == ChunkAddresses(st.current, size)
    requires opens == Probes(ips, cfg.baseSourcePort, st.counter, probe)
    requires found == Pings(opens, cfg.port, cfg.baseSourcePort, Advance(st.counter, size), ping, show)
    ensures var empty := if |found| > 0 then 0 else st.empty;
      Step(cfg, probe, ping, show, st) == RangeState(
        IncrementIp(st.current, size % U32_MODULUS), st.scanned + size, st.found + |found|,
        if |found| == 0 && |opens| == 0 then empty + size else empty,
        Advance(Advance(st.counter, size), |opens|),
        st.events + ChunkEvents(opens, found, size))
  {
  }

  lemma AppendThree<T>(e: seq<T>, a: seq<T>, b: seq<T>, c: seq<T>)
    ensures e + a + b + c == e + (a + b + c)
  {
  }

  /** Probes one chunk, in address order; returns the open addresses and the advanced counter. */
  method ProbeChunk(chunkIps: seq<Ipv4>, base: U16, counter0: U16, probe: (Ipv4, U16) -> bool)
    returns (openIps: seq<Ipv4>, counter: U16)
    requires base + 254 < U16_MODULUS
    ensures openIps == Probes(chunkIps, base, counter0, probe)
    ensures counter == Advance(counter0, |chunkIps|)
  {
    openIps := [];
    counter := counter0;
    var i := 0;
    while i < |chunkIps|
      invariant 0 <= i <= |chunkIps|
      invariant openIps == Probes(chunkIps[..i], base, counter0, probe)
      invariant counter == Advance(counter0, i)
    {
      var sourcePort := base + counter % 255;
      AdvanceStep(counter0, i);
      counter := WrappingIncrement(counter);
      var open := probe(chunkIps[i], sourcePort);
      ProbeStep(chunkIps, i, base, counter0, probe, openIps, sourcePort, open);
      if open {
        openIps := openIps + [chunkIps[i]];
      }
      i := i + 1;
    }
    assert chunkIps[..i] == chunkIps;
  }

  /**
   * Pings the open addresses in order; each answer gives a `[FOUND]` line and resets
   * `consecutive_empty` to 0.
   */
  method PingOpen(openIps: seq<Ipv4>, port: U16, base: U16, counter0: U16,
                  ping: (Ipv4, U16) -> Option<Minecraft.ServerStatus>, show: Minecraft.Json -> string,
                  empty0: nat)
    returns (messages: seq<string>, counter: U16, consecutiveEmpty: nat)
    requires base + 254 < U16_MODULUS
    ensures messages == Pings(openIps, port, base, counter0, ping, show)
    ensures counter == Advance(counter0, |openIps|)
    ensures consecutiveEmpty == if |messages| > 0 then 0 else empty0
  {
    messages := [];
    counter := counter0;
    consecutiveEmpty := empty0;
    var i := 0;
    while i < |openIps|
      invariant 0 <= i <= |openIps|
      invariant messages == Pings(openIps[..i], port, base, counter0, ping, show)
      invariant counter == Advance(counter0, i)
      invariant consecutiveEmpty == if |messages| > 0 then 0 else empty0
    {
      var sourcePort := base + counter % 255;
      AdvanceStep(counter0, i);
      counter := WrappingIncrement(counter);
      var answer := ping(openIps[i], sourcePort);
      PingStep(openIps, i, port, base, counter0, ping, show, messages, sourcePort, answer);
      if answer.Some? {
        messages := messages + [FoundMessage(openIps[i], port, answer.value, show)];
        consecutiveEmpty := 0;
      }
      i := i + 1;
    }
    assert openIps[..i] == openIps;
  }

  /** One pass of the loop body (lines 104-203): probe, ping, report, advance. */
  method ScanChunk(cfg: WorkerConfig, probe: (Ipv4, U16) -> bool,
                   ping: (Ipv4, U16) -> Option<Minecraft.ServerStatus>, show: Minecraft.Json -> string,
                   currentIp0: Ipv4, localScanned0: nat, localFound0: nat, consecutiveEmpty0: nat,
                   counter0: U16, events0: seq<Stats.ScanMessage>)
    returns (currentIp: Ipv4, localScanned: nat, localFound: nat, consecutiveEmpty: nat,
             counter: U16, events: seq<Stats.ScanMessage>)
    requires ConfigOk(cfg) && localScanned0 <= cfg.maxRangeSize
    ensures RangeState(currentIp, localScanned, localFound, consecutiveEmpty, counter, events)
      == Step(cfg, probe, ping, show,
              RangeState(currentIp0, localScanned0, localFound0, consecutiveEmpty0, counter0, events0))
  {
    var size := ChunkSize(cfg, localScanned0);
    var chunkIps := ChunkAddresses(currentIp0, size);
    var openIps, messages;
    openIps, counter := ProbeChunk(chunkIps, cfg.baseSourcePort, counter0, probe);
    messages, counter, consecutiveEmpty :=
      PingOpen(openIps, cfg.port, cfg.baseSourcePort, counter, ping, show, consecutiveEmpty0);
    if |messages| == 0 && |openIps| == 0 {
      consecutiveEmpty := consecutiveEmpty + size;
    }
    localFound := localFound0 + |messages|;
    localScanned := localScanned0 + size;
    currentIp := IncrementIp(currentIp0, size % U32_MODULUS);
    // the open ports are reported while probing, the servers while pinging, the count last
    events := events0 + OpenEvents(openIps) + FoundEvents(messages) + [Stats.Scanned(size)];
    AppendThree(events0, OpenEvents(openIps), FoundEvents(messages), [Stats.Scanned(size)]);
    StepOf(cfg, probe, ping, show,
           RangeState(currentIp0, localScanned0, localFound0, consecutiveEmpty0, counter0, events0),
           size, chunkIps, openIps, messages);
  }

  /**
   * A run from the start: `current_ip` is `thread_ip` advanced by what was scanned, the events
   * report every scanned address and found server, and something was scanned exactly when the
   * range and the threshold are positive.
   */
  lemma RunFromStart(cfg: WorkerConfig, probe: (Ipv4, U16) -> bool,
                     ping: (Ipv4, U16) -> Option<Minecraft.ServerStatus>, show: Minecraft.Json -> string,
                     threadIp: Ipv4, counter: U16)
    requires ConfigOk(cfg) && cfg.chunkSize > 0
    ensures var r := Run(cfg, probe, ping, show, Start(threadIp, counter));
      r.current == IncrementIp(threadIp, r.scanned % U32_MODULUS) &&
      Stats.ScannedSum(r.events) == r.scanned && Stats.FoundCount(r.events) == r.found &&
      (r.scanned > 0 <==> cfg.maxRangeSize > 0 && cfg.consecutiveThreshold > 0)
  {
    var start := Start(threadIp, counter);
    IncrementZero(threadIp);
    RunAddress(cfg, probe, ping, show, threadIp, start);
    RunCounts(cfg, probe, ping, show, start);
    RunScansSomething(cfg, probe, ping, show, threadIp, counter);
  }

  /**
   * One range (lines 98-213): chunks until the range is used up or `consecutive_threshold`
   * addresses in a row showed nothing. Also returns `end_ip` (`None` where it underflows).
   */
  method ScanRange(cfg: WorkerConfig, threadIp: Ipv4, counter0: U16, probe: (Ipv4, U16) -> bool,
                   ping: (Ipv4, U16) -> Option<Minecraft.ServerStatus>, show: Minecraft.Json -> string)
    returns (events: seq<Stats.ScanMessage>, currentIp: Ipv4, localScanned: nat, localFound: nat,
             consecutiveEmpty: nat, counter: U16, endIp: Option<Ipv4>)
    requires ConfigOk(cfg) && cfg.chunkSize > 0
    ensures RangeState(currentIp, localScanned, localFound, consecutiveEmpty, counter, events)
      == Run(cfg, probe, ping, show, Start(threadIp, counter0))
    ensures localScanned <= cfg.maxRangeSize
    ensures localScanned == cfg.maxRangeSize || consecutiveEmpty >= cfg.consecutiveThreshold
    ensures currentIp == IncrementIp(threadIp, localScanned % U32_MODULUS)
    ensures Stats.ScannedSum(events) == localScanned && Stats.FoundCount(events) == localFound
    ensures endIp.None? <==> cfg.maxRangeSize == 0 || cfg.consecutiveThreshold == 0
    ensures endIp == EndIp(threadIp, localScanned)
  {
    ghost var start := Start(threadIp, counter0);
    currentIp := threadIp;
    localScanned := 0;
    localFound := 0;
    consecutiveEmpty := 0;
    counter := counter0;
    events := [];
    while localScanned < cfg.maxRangeSize && consecutiveEmpty < cfg.consecutiveThreshold
      invariant localScanned <= cfg.maxRangeSize
      invariant Run(cfg, probe, ping, show, RangeState(currentIp, localScanned, localFound, consecutiveEmpty, counter, events))
        == Run(cfg, probe, ping, show, start)
      decreases cfg.maxRangeSize - localScanned
    {
      ghost var before := RangeState(currentIp, localScanned, localFound, consecutiveEmpty, counter, events);
      RunStep(cfg, probe, ping, show, before);
      currentIp, localScanned, localFound, consecutiveEmpty, counter, events :=
        ScanChunk(cfg, probe, ping, show, currentIp, localScanned, localFound, consecutiveEmpty, counter, events);
    }
    RunFromStart(cfg, probe, ping, show, threadIp, counter0);
    endIp := EndIp(threadIp, localScanned);
  }


  // ---------------------------------------------------------------------------------------
  // The worker: one range after another
  // ---------------------------------------------------------------------------------------

  /**
   * The draws behind one `random_ipv4_from_subnets` call: the subnet index, the host offset
   * and the address the fallback generator would give.
   */
  datatype StartDraw = StartDraw(pick: nat, draw: nat, fallback: Ipv4)

  predicate DrawOk(subnets: seq<Subnet>, d: StartDraw)
  {
    subnets != [] ==> d.pick < |subnets| && subnets[d.pick].prefix <= 32 && OffsetDrawOk(subnets[d.pick].prefix, d.draw)
  }

  /** The events and the source-port counter after the ranges started from `draws`, in order. */
  function Ranges(cfg: WorkerConfig, subnets: seq<Subnet>, draws: seq<StartDraw>, counter: U16,
                  probe: (Ipv4, U16) -> bool, ping: (Ipv4, U16) -> Option<Minecraft.ServerStatus>,
                  show: Minecraft.Json -> string): (r: (seq<Stats.ScanMessage>, U16))
    requires ConfigOk(cfg) && cfg.chunkSize > 0
    requires forall k :: 0 <= k < |draws| ==> DrawOk(subnets, draws[k])
  {
    if draws == [] then ([], counter)
    else
      var n := |draws| - 1;
      var before := Ranges(cfg, subnets, draws[..n], counter, probe, ping, show);
      var d := draws[n];
      assert DrawOk(subnets, d);
      var threadIp := RandomIpv4FromSubnets(subnets, d.pick, d.draw, d.fallback);
      var range := Run(cfg, probe, ping, show, Start(threadIp, before.1));
      (before.0 + range.events, range.counter)
  }

  /** No range scans more than `max_range_size` addresses, so neither do `k` ranges beyond `k` times it. */
  lemma {:induction false} RangesScannedBound(cfg: WorkerConfig, subnets: seq<Subnet>, draws: seq<StartDraw>, counter: U16,
                                              probe: (Ipv4, U16) -> bool,
                                              ping: (Ipv4, U16) -> Option<Minecraft.ServerStatus>,
                                              show: Minecraft.Json -> string)
    requires ConfigOk(cfg) && cfg.chunkSize > 0
    requires forall k :: 0 <= k < |draws| ==> DrawOk(subnets, draws[k])
    ensures Stats.ScannedSum(Ranges(cfg, subnets, draws, counter, probe, ping, show).0) <= |draws| * cfg.maxRangeSize
  {
    if draws != [] {
      var n := |draws| - 1;
      var before := Ranges(cfg, subnets, draws[..n], counter, probe, ping, show);
      var d := draws[n];
      assert DrawOk(subnets, d);
      var threadIp := RandomIpv4FromSubnets(subnets, d.pick, d.draw, d.fallback);
      var start := Start(threadIp, before.1);
      var range := Run(cfg, probe, ping, show, start);
      RangesScannedBound(cfg, subnets, draws[..n], counter, probe, ping, show);
      RunCounts(cfg, probe, ping, show, start);
      Stats.CountsAppend(before.0, range.events);
      MulSucc(n, cfg.maxRangeSize);
    }
  }

  /** One more range appends its events and hands its counter on. */
  lemma RangesStep(cfg: WorkerConfig, subnets: seq<Subnet>, draws: seq<StartDraw>, i: nat,
                   probe: (Ipv4, U16) -> bool, ping: (Ipv4, U16) -> Option<Minecraft.ServerStatus>,
                   show: Minecraft.Json -> string,
                   events: seq<Stats.ScanMessage>, counter: U16, threadIp: Ipv4, range: RangeState)
    requires ConfigOk(cfg) && cfg.chunkSize > 0 && i < |draws|
    requires forall k :: 0 <= k < |draws| ==> DrawOk(subnets, draws[k])
    requires (events, counter) == Ranges(cfg, subnets, draws[..i], 0, probe, ping, show)
    requires DrawOk(subnets, draws[i])
    requires threadIp == RandomIpv4FromSubnets(subnets, draws[i].pick, draws[i].draw, draws[i].fallback)
    requires range == Run(cfg, probe, ping, show, Start(threadIp, counter))
    ensures (events + range.events, range.counter) == Ranges(cfg, subnets, draws[..i + 1], 0, probe, ping, show)
  {
    var longer := draws[..i + 1];
    assert longer[..|longer| - 1] == draws[..i] && longer[|longer| - 1] == draws[i];
  }

  /**
   * Lines 87-213: the counter starts at 0 and carries over from range to range; each range
   * starts from a fresh `random_ipv4_from_subnets` address.
   */
  method Worker(cfg: WorkerConfig, subnets: seq<Subnet>, draws: seq<StartDraw>,
                probe: (Ipv4, U16) -> bool, ping: (Ipv4, U16) -> Option<Minecraft.ServerStatus>,
                show: Minecraft.Json -> string)
    returns (events: seq<Stats.ScanMessage>, counter: U16)
    requires ConfigOk(cfg) && cfg.chunkSize > 0
    requires forall k :: 0 <= k < |draws| ==> DrawOk(subnets, draws[k])
    ensures (events, counter) == Ranges(cfg, subnets, draws, 0, probe, ping, show)
    ensures Stats.ScannedSum(events) <= |draws| * cfg.maxRangeSize
  {
    counter := 0;
    events := [];
    var i := 0;
    while i < |draws|
      invariant 0 <= i <= |draws|
      invariant (events, counter) == Ranges(cfg, subnets, draws[..i], 0, probe, ping, show)
    {
      var d := draws[i];
      assert DrawOk(subnets, d);
      var threadIp := RandomIpv4FromSubnets(subnets, d.pick, d.draw, d.fallback);
      ghost var before := counter;
      var rangeEvents, currentIp, localScanned, localFound, consecutiveEmpty, endIp;
      rangeEvents, currentIp, localScanned, localFound, consecutiveEmpty, counter, endIp :=
        ScanRange(cfg, threadIp, counter, probe, ping, show);
      RangesStep(cfg, subnets, draws, i, probe, ping, show, events, before, threadIp,
                 RangeState(currentIp, localScanned, localFound, consecutiveEmpty, counter, rangeEvents));
      events := events + rangeEvents;
      i := i + 1;
    }
    assert draws[..i] == draws;
    RangesScannedBound(cfg, subnets, draws, 0, probe, ping, show);
  }

  // ---------------------------------------------------------------------------------------
  // The [FOUND] line and its reader
  // ---------------------------------------------------------------------------------------

  /** `"ip:port"` of a formatted address splits on `':'` into the address and the port text. */
  lemma AddressSplits(ip: Ipv4, port: U16)
    ensures Split(FormatIpv4(ip) + ":" + FormatDecimal(port), ":") == [FormatIpv4(ip), FormatDecimal(port)]
    ensures ' ' !in FormatIpv4(ip) + ":" + FormatDecimal(port)
  {
    FormatIpv4Chars(ip);
    DigitsFree(FormatDecimal(port));
    SplitFirstChar(FormatIpv4(ip), ':', FormatDecimal(port));
    SplitNoChar(FormatDecimal(port), ':');
  }

  /** `"online/max"` splits on `'/'` into the two numbers' texts. */
  lemma PlayersSplit(online: U32, max: U32)
    ensures Split(FormatDecimal(online) + "/" + FormatDecimal(max), "/") == [FormatDecimal(online), FormatDecimal(max)]
    ensures ' ' !in FormatDecimal(online) + "/" + FormatDecimal(max)
  {
    DigitsFree(FormatDecimal(online));
    DigitsFree(FormatDecimal(max));
    SplitFirstChar(FormatDecimal(online), '/', FormatDecimal(max));
    SplitNoChar(FormatDecimal(max), '/');
  }

  /** The `" - "`-separated fields regrouped from the right. */
  lemma DashFieldsAssoc(address: string, players: string, version: string, description: string)
    ensures address + " - " + players + " - " + version + " - " + description
      == address + " - " + (players + " - " + (version + " - " + description))
  {
    var tail := version + " - " + description;
    var middle := players + " - " + tail;
    var c := address + " - " + players + " - ";
    ConcatAssoc(c + version, " - ", description);
    ConcatAssoc(c, version, " - ");
    ConcatAssoc(c, version + " - ", description);
    ConcatAssoc(address + " - ", players, " - ");
    ConcatAssoc(address + " - ", players + " - ", tail);
    ConcatAssoc(address, " - ", middle);
  }

  /** The body of a `[FOUND]` line splits on `" - "` into address, players, version and the description's pieces. */
  lemma FieldsSplit(address: string, players: string, version: string, description: string)
    requires ' ' !in address && ' ' !in players
    requires !Contains(version, " - ") && !EndsWith(version, " -")
    ensures Split(address + " - " + players + " - " + version + " - " + description, " - ")
      == [address, players, version] + Split(description, " - ")
  {
    var tail := version + " - " + description;
    var middle := players + " - " + tail;
    var rest := Split(description, " - ");
    DashFieldsAssoc(address, players, version, description);
    DashFieldSplitsFirst(version, description);
    NoSpaceSplitsFirst(players, tail);
    NoSpaceSplitsFirst(address, middle);
    ConsThree(Split(address + " - " + middle, " - "), Split(middle, " - "), Split(tail, " - "),
              address, players, version, rest);
  }

  lemma ConsThree(x: seq<string>, y: seq<string>, z: seq<string>, a: string, b: string, c: string, rest: seq<string>)
    requires x == [a] + y && y == [b] + z && z == [c] + rest
    ensures x == [a, b, c] + rest
  {
  }

  /** A `[FOUND]` line is its tag followed by the four `" - "`-separated fields. */
  lemma FoundMessageFields(ip: Ipv4, port: U16, status: Minecraft.ServerStatus, show: Minecraft.Json -> string)
    ensures FoundMessage(ip, port, status, show) ==
      "[FOUND] " + ((FormatIpv4(ip) + ":" + FormatDecimal(port)) + " - "
        + (FormatDecimal(status.playersOnline) + "/" + FormatDecimal(status.playersMax)) + " - "
        + status.versionName + " - " + Minecraft.ExtractDescription(status.description, show))
  {
    var p := "[FOUND] ";
    var ipText, portText := FormatIpv4(ip), FormatDecimal(port);
    var online, max := FormatDecimal(status.playersOnline), FormatDecimal(status.playersMax);
    var version, description := status.versionName, Minecraft.ExtractDescription(status.description, show);
    ConcatAssoc(p, ipText, ":");
    ConcatAssoc(p, ipText + ":", portText);
    var b := ipText + ":" + portText;
    ConcatAssoc(p, b, " - ");
    b := b + " - ";
    ConcatAssoc(p, b, online);
    ConcatAssoc(p + b, online, "/");
    ConcatAssoc(p, b + online, "/");
    ConcatAssoc(p, b + online + "/", max);
    ConcatAssoc(b, online, "/");
    ConcatAssoc(b, online + "/", max);
    b := b + (online + "/" + max);
    ConcatAssoc(p, b, " - ");
    b := b + " - ";
    ConcatAssoc(p, b, version);
    b := b + version;
    ConcatAssoc(p, b, " - ");
    b := b + " - ";
    ConcatAssoc(p, b, description);
  }

  /**
   * Reading a `[FOUND]` line back gives the server it was written for, provided the version
   * neither contains `" - "` nor ends with `" -"`; the description may contain anything.
   */
  lemma FoundMessageRoundTrip(ip: Ipv4, port: U16, status: Minecraft.ServerStatus, show: Minecraft.Json -> string)
    requires !Contains(status.versionName, " - ") && !EndsWith(status.versionName, " -")
    ensures Discord.ExtractServerInfo(FoundMessage(ip, port, status, show))
      == Some(Discord.MinecraftServer(FormatIpv4(ip), port, status.playersOnline, status.playersMax,
                                      status.versionName, Minecraft.ExtractDescription(status.description, show), None))
  {
    var address := FormatIpv4(ip) + ":" + FormatDecimal(port);
    var players := FormatDecimal(status.playersOnline) + "/" + FormatDecimal(status.playersMax);
    var version := status.versionName;
    var description := Minecraft.ExtractDescription(status.description, show);
    var body := address + " - " + players + " - " + version + " - " + description;
    var msg := FoundMessage(ip, port, status, show);
    FoundMessageFields(ip, port, status, show);
    TaggedLine(msg, body);
    AddressSplits(ip, port);
    PlayersSplit(status.playersOnline, status.playersMax);
    FieldsSplit(address, players, version, description);
    JoinSplit(description, " - ");
    ParseFormatDecimal(port, Discord.U16_MAX);
    ParseFormatDecimal(status.playersOnline, Discord.U32_MAX);
    ParseFormatDecimal(status.playersMax, Discord.U32_MAX);
    ReadFields(msg, Split(body, " - "), address, players, FormatIpv4(ip), FormatDecimal(port),
               FormatDecimal(status.playersOnline), FormatDecimal(status.playersMax), version,
               Split(description, " - "), description, port, status.playersOnline, status.playersMax);
  }

  lemma TaggedLine(msg: string, body: string)
    requires msg == "[FOUND] " + body
    ensures StartsWith(msg, "[FOUND]") && StartsWith(msg, "[FOUND] ") && msg[8..] == body
  {
    assert msg[..7] == "[FOUND]";
    assert msg[..8] == "[FOUND] ";
  }

  /** `extract_server_info` on a tagged line whose fields have already been taken apart. */
  lemma ReadFields(msg: string, parts: seq<string>, address: string, players: string,
                   ipText: string, portText: string, onlineText: string, maxText: string, version: string,
                   rest: seq<string>, description: string, port: U16, online: U32, max: U32)
    requires StartsWith(msg, "[FOUND]") && StartsWith(msg, "[FOUND] ")
    requires Split(msg[8..], " - ") == parts && parts == [address, players, version] + rest
    requires Split(address, ":") == [ipText, portText] && Split(players, "/") == [onlineText, maxText]
    requires ParseUnsigned(portText, Discord.U16_MAX) == Some(port)
    requires ParseUnsigned(onlineText, Discord.U32_MAX) == Some(online)
    requires ParseUnsigned(maxText, Discord.U32_MAX) == Some(max)
    requires |rest| >= 1 && Join(rest, " - ") == description
    ensures Discord.ExtractServerInfo(msg) == Some(Discord.MinecraftServer(ipText, port, online, max, version, description, None))
  {
    assert parts[3..] == rest;
  }

}
