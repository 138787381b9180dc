/**
 * `src/stats.rs`: the collector that totals the workers' messages and reports progress. The
 * clock is a parameter (`now`, in nanoseconds of the monotonic clock); the log lines are
 * reduced to the integer deltas they print and whether the recent-activity line appears.
 */
module Stats {
  import opened Common
  import opened Discord

  /** `ScanMessage`: what a worker sends to the collector. */
  datatype ScanMessage = Scanned(count: U64) | OpenPort(ip: string) | Found(message: string)

  /** The six counters of the collector: three totals and their values at the last report. */
  datatype Counters = Counters(
    scannedTotal: nat, serversFound: nat, portsOpen: nat,
    scannedLast: nat, serversLast: nat, portsLast: nat)

  const ZERO: Counters := Counters(0, 0, 0, 0, 0, 0)

  /** Totals fit in `u64` and no baseline is ahead of its total. */
  predicate CountersValid(c: Counters)
  {
    c.scannedTotal < U64_LIMIT && c.serversFound < U64_LIMIT && c.portsOpen < U64_LIMIT
    && c.scannedLast <= c.scannedTotal && c.serversLast <= c.serversFound && c.portsLast <= c.portsOpen
  }

  /** The counters after `update(msg)`. */
  function Tally(c: Counters, msg: ScanMessage): (r: Counters)
  {
    match msg
    case Scanned(n) => c.(scannedTotal := c.scannedTotal + n)
    case OpenPort(_) => c.(portsOpen := c.portsOpen + 1)
    case Found(_) => c.(serversFound := c.serversFound + 1)
  }

  /** The counters after `update` for each message in turn. */
  function TallyAll(c: Counters, msgs: seq<ScanMessage>): (r: Counters)
  {
    if msgs == [] then c else Tally(TallyAll(c, msgs[..|msgs| - 1]), msgs[|msgs| - 1])
  }

  /** The three kinds of message, counted independently of the collector. */
  function ScannedSum(msgs: seq<ScanMessage>): nat
  {
    if msgs == [] then 0 else (if msgs[0].Scanned? then msgs[0].count else 0) + ScannedSum(msgs[1..])
  }

  function OpenPortCount(msgs: seq<ScanMessage>): nat
  {
    if msgs == [] then 0 else (if msgs[0].OpenPort? then 1 else 0) + OpenPortCount(msgs[1..])
  }

  function FoundCount(msgs: seq<ScanMessage>): nat
  {
    if msgs == [] then 0 else (if msgs[0].Found? then 1 else 0) + FoundCount(msgs[1..])
  }

  /** The `Found` lines among the messages, in order. */
  function FoundMessages(msgs: seq<ScanMessage>): seq<string>
  {
    if msgs == [] then [] else (if msgs[0].Found? then [msgs[0].message] else []) + FoundMessages(msgs[1..])
  }

  /** All four counts add up over a concatenation. */
  lemma CountsAppend(a: seq<ScanMessage>, b: seq<ScanMessage>)
    ensures ScannedSum(a + b) == ScannedSum(a) + ScannedSum(b)
    ensures OpenPortCount(a + b) == OpenPortCount(a) + OpenPortCount(b)
    ensures FoundCount(a + b) == FoundCount(a) + FoundCount(b)
    ensures FoundMessages(a + b) == FoundMessages(a) + FoundMessages(b)
  {
    ScannedAppend(a, b);
    OpenPortAppend(a, b);
    FoundAppend(a, b);
  }

  lemma {:induction false} ScannedAppend(a: seq<ScanMessage>, b: seq<ScanMessage>)
    ensures ScannedSum(a + b) == ScannedSum(a) + ScannedSum(b)
  {
    if a == [] {
      assert a + b == b;
    } else {
      ScannedAppend(a[1..], b);
      assert (a + b)[1..] == a[1..] + b;
    }
  }

  lemma {:induction false} OpenPortAppend(a: seq<ScanMessage>, b: seq<ScanMessage>)
    ensures OpenPortCount(a + b) == OpenPortCount(a) + OpenPortCount(b)
  {
    if a == [] {
      assert a + b == b;
    } else {
      OpenPortAppend(a[1..], b);
      assert (a + b)[1..] == a[1..] + b;
    }
  }

  lemma {:induction false} FoundAppend(a: seq<ScanMessage>, b: seq<ScanMessage>)
    ensures FoundCount(a + b) == FoundCount(a) + FoundCount(b)
    ensures FoundMessages(a + b) == FoundMessages(a) + FoundMessages(b)
  {
    if a == [] {
      assert a + b == b;
    } else {
      var head := if a[0].Found? then [a[0].message] else [];
      FoundAppend(a[1..], b);
      assert (a + b)[1..] == a[1..] + b;
      assert (a + b)[0] == a[0];
      assert FoundMessages(a + b) == head + (FoundMessages(a[1..]) + FoundMessages(b));
      assert FoundMessages(a) == head + FoundMessages(a[1..]);
    }
  }

  /**
   * Each total grows by exactly what its kind of message carries, whatever the interleaving;
   * the baselines are left alone.
   */
  lemma {:induction false} TallyAllCounts(c: Counters, msgs: seq<ScanMessage>)
    ensures TallyAll(c, msgs).scannedTotal == c.scannedTotal + ScannedSum(msgs)
    ensures TallyAll(c, msgs).portsOpen == c.portsOpen + OpenPortCount(msgs)
    ensures TallyAll(c, msgs).serversFound == c.serversFound + FoundCount(msgs)
    ensures TallyAll(c, msgs).scannedLast == c.scannedLast && TallyAll(c, msgs).serversLast == c.serversLast
    ensures TallyAll(c, msgs).portsLast == c.portsLast
  {
    if msgs != [] {
      var n := |msgs| - 1;
      TallyAllCounts(c, msgs[..n]);
      CountsAppend(msgs[..n], [msgs[n]]);
      assert msgs[..n] + [msgs[n]] == msgs;
    }
  }

  /** Feeding `Scanned(50)`, `OpenPort`, `Found` to a fresh collector gives totals 50, 1 and 1. */
  lemma ThreeMessages(ip: string, line: string)
    ensures TallyAll(ZERO, [Scanned(50), OpenPort(ip), Found(line)]) == Counters(50, 1, 1, 0, 0, 0)
  {
    var m := [Scanned(50), OpenPort(ip), Found(line)];
    assert m[..2] == [Scanned(50), OpenPort(ip)];
    assert m[..2][..1] == [Scanned(50)];
    assert [Scanned(50)][..0] == [];
    assert TallyAll(ZERO, [Scanned(50)]) == Counters(50, 0, 0, 0, 0, 0);
    assert TallyAll(ZERO, m[..2]) == Counters(50, 0, 1, 0, 0, 0);
  }

  /** Totals never decrease along a run of messages: a prefix never has more than the whole. */
  lemma {:induction false} TallyAllMonotone(c: Counters, msgs: seq<ScanMessage>, i: nat)
    requires i <= |msgs|
    ensures TallyAll(c, msgs[..i]).scannedTotal <= TallyAll(c, msgs).scannedTotal
    ensures TallyAll(c, msgs[..i]).portsOpen <= TallyAll(c, msgs).portsOpen
    ensures TallyAll(c, msgs[..i]).serversFound <= TallyAll(c, msgs).serversFound
  {
    TallyAllCounts(c, msgs[..i]);
    TallyAllCounts(c, msgs);
    CountsAppend(msgs[..i], msgs[i..]);
    assert msgs[..i] + msgs[i..] == msgs;
  }

  /** The integer content of the lines `report_stats` logs. */
  datatype StatsReport = StatsReport(
    scannedTotal: nat, portsOpen: nat, serversFound: nat,
    scanDelta: nat, portDelta: nat, serverDelta: nat, recentActivity: bool)

  /** The deltas since the last report; the recent-activity line appears only for new ports or servers. */
  function ReportOf(c: Counters): (r: StatsReport)
    requires CountersValid(c)
    ensures r.scannedTotal == c.scannedTotal && r.portsOpen == c.portsOpen && r.serversFound == c.serversFound
    ensures c.scannedLast + r.scanDelta == c.scannedTotal && c.portsLast + r.portDelta == c.portsOpen
    ensures c.serversLast + r.serverDelta == c.serversFound
    ensures r.recentActivity <==> c.serversLast < c.serversFound || c.portsLast < c.portsOpen
  {
    var scanDelta := c.scannedTotal - c.scannedLast;
    var serverDelta := c.serversFound - c.serversLast;
    var portDelta := c.portsOpen - c.portsLast;
    StatsReport(c.scannedTotal, c.portsOpen, c.serversFound, scanDelta, portDelta, serverDelta,
                serverDelta > 0 || portDelta > 0)
  }

  /** The counters after `report_stats`: each baseline caught up with its total. */
  function AfterReport(c: Counters): (r: Counters)
  {
    c.(scannedLast := c.scannedTotal, serversLast := c.serversFound, portsLast := c.portsOpen)
  }

  /** A report straight after a report has nothing new to say. */
  lemma ReportTwice(c: Counters)
    requires CountersValid(c)
    ensures CountersValid(AfterReport(c))
    ensures var r := ReportOf(AfterReport(c)); r.scanDelta == 0 && r.portDelta == 0 && r.serverDelta == 0 && !r.recentActivity
  {
  }

  /** After a report, scanning alone shows up in the scan delta but never in the recent-activity line. */
  lemma ScansAloneAreQuiet(c: Counters, msgs: seq<ScanMessage>)
    requires CountersValid(c)
    requires forall i :: 0 <= i < |msgs| ==> msgs[i].Scanned?
    requires CountersValid(TallyAll(AfterReport(c), msgs))
    ensures ReportOf(TallyAll(AfterReport(c), msgs)).scanDelta == ScannedSum(msgs)
    ensures !ReportOf(TallyAll(AfterReport(c), msgs)).recentActivity
  {
    TallyAllCounts(AfterReport(c), msgs);
    NoPortsNoServers(msgs);
  }

  lemma {:induction false} NoPortsNoServers(msgs: seq<ScanMessage>)
    requires forall i :: 0 <= i < |msgs| ==> msgs[i].Scanned?
    ensures OpenPortCount(msgs) == 0 && FoundCount(msgs) == 0
  {
    if msgs != [] {
      NoPortsNoServers(msgs[1..]);
    }
  }

  const NANOS_PER_SECOND: nat := 1_000_000_000

  /** `since.elapsed().as_secs()` read at `now`: whole seconds, 0 if the clock reads earlier. */
  function ElapsedSeconds(since: nat, now: nat): (r: nat)
  {
    if now >= since then (now - since) / NANOS_PER_SECOND else 0
  }

  /** `StatsCollector`: the totals, their baselines at the last report, and the two clock readings. */
  class StatsCollector {
    var startTime: nat
    var scannedTotal: nat
    var serversFound: nat
    var portsOpen: nat
    var scannedLast: nat
    var serversLast: nat
    var portsLast: nat
    var lastReportTime: nat
    var discord: Option<DiscordConfig>

    function Counts(): Counters
      reads this
    {
      Counters(scannedTotal, serversFound, portsOpen, scannedLast, serversLast, portsLast)
    }

    predicate Valid()
      reads this
    {
      CountersValid(Counts())
    }

    /** `StatsCollector::new()` at clock reading `now`. */
    constructor (now: nat)
      ensures Counts() == ZERO && Valid()
      ensures startTime == now && lastReportTime == now && discord.None?
    {
      startTime, lastReportTime := now, now;
      scannedTotal, serversFound, portsOpen := 0, 0, 0;
      scannedLast, serversLast, portsLast := 0, 0, 0;
      discord := None;
    }

    /** `with_discord`: attach the notifier configuration. */
    method WithDiscord(config: DiscordConfig)
      modifies this
      ensures discord == Some(config) && Counts() == old(Counts())
      ensures startTime == old(startTime) && lastReportTime == old(lastReportTime)
    {
      discord := Some(config);
    }

    /**
     * `update(msg)`: add to the counter the message names. A `Found` line is handed to the
     * notifier (returned as `forwarded`) when one is attached. The `u64` additions must not overflow.
     */
    method Update(msg: ScanMessage) returns (forwarded: Option<string>)
      requires Valid() && Tally(Counts(), msg).scannedTotal < U64_LIMIT
      requires Tally(Counts(), msg).portsOpen < U64_LIMIT && Tally(Counts(), msg).serversFound < U64_LIMIT
      modifies this
      ensures Valid() && Counts() == Tally(old(Counts()), msg)
      ensures forwarded == if msg.Found? && discord.Some? then Some(msg.message) else None
      ensures startTime == old(startTime) && lastReportTime == old(lastReportTime) && discord == old(discord)
    {
      forwarded := None;
      match msg
      case Scanned(count) =>
        scannedTotal := scannedTotal + count;
      case OpenPort(_) =>
        portsOpen := portsOpen + 1;
      case Found(line) =>
        serversFound := serversFound + 1;
        if discord.Some? {
          forwarded := Some(line);
        }
    }

    /** `should_report_stats(interval)` at clock reading `now`. */
    predicate ShouldReportStats(interval: nat, now: nat)
      reads this
    {
      ElapsedSeconds(lastReportTime, now) >= interval
    }

    /** `report_stats` at clock reading `now`: log the deltas, then move every baseline up to its total. */
    method ReportStats(interval: nat, now: nat) returns (report: StatsReport)
      requires Valid()
      modifies this
      ensures Valid() && report == ReportOf(old(Counts())) && Counts() == AfterReport(old(Counts()))
      ensures lastReportTime == now && startTime == old(startTime) && discord == old(discord)
    {
      var scanDelta := scannedTotal - scannedLast;
      var serverDelta := serversFound - serversLast;
      var portDelta := portsOpen - portsLast;
      report := StatsReport(scannedTotal, portsOpen, serversFound, scanDelta, portDelta, serverDelta,
                            serverDelta > 0 || portDelta > 0);
      scannedLast := scannedTotal;
      serversLast := serversFound;
      portsLast := portsOpen;
      lastReportTime := now;
    }
  }

  /** A report is due exactly when `interval` whole seconds have passed since the last one. */
  lemma ReportDueIff(since: nat, now: nat, interval: nat)
    ensures ElapsedSeconds(since, now) >= interval <==> interval == 0 || now >= since + interval * NANOS_PER_SECOND
  {
  }

  /** What the receive loop has produced so far: the counters, the last report time and the reports. */
  datatype Session = Session(counts: Counters, lastReportTime: nat, reports: seq<StatsReport>)

  /** One turn of the receive loop: `update(msg)`, then a report if one is due at `now`. */
  function Turn(s: Session, msg: ScanMessage, now: nat, interval: nat): (r: Session)
    requires CountersValid(Tally(s.counts, msg))
  {
    var c := Tally(s.counts, msg);
    if ElapsedSeconds(s.lastReportTime, now) >= interval then Session(AfterReport(c), now, s.reports + [ReportOf(c)])
    else Session(c, s.lastReportTime, s.reports)
  }

  /** Two counters with the same three totals. */
  predicate SameTotals(a: Counters, b: Counters)
  {
    a.scannedTotal == b.scannedTotal && a.portsOpen == b.portsOpen && a.serversFound == b.serversFound
  }

  /**
   * The receive loop over `msgs`, the clock reading `times[i]` after the `i`-th message, from
   * counters `c` and last report time `last`. Reports move only the baselines, so the totals
   * are those of `update` alone, and there is at most one report per message.
   */
  function Replay(c: Counters, last: nat, msgs: seq<ScanMessage>, times: seq<nat>, interval: nat): (s: Session)
    requires |times| == |msgs| && CountersValid(c) && CountersValid(TallyAll(c, msgs))
    ensures CountersValid(s.counts) && SameTotals(s.counts, TallyAll(c, msgs))
    ensures |s.reports| <= |msgs|
    decreases |msgs|
  {
    if msgs == [] then Session(c, last, [])
    else
      var n := |msgs| - 1;
      PrefixValid(c, msgs, n);
      var prev := Replay(c, last, msgs[..n], times[..n], interval);
      Turn(prev, msgs[n], times[n], interval)
  }

  /** A prefix of a run of messages that stays within `u64` stays within it too. */
  lemma PrefixValid(c: Counters, msgs: seq<ScanMessage>, i: nat)
    requires i <= |msgs| && CountersValid(c) && CountersValid(TallyAll(c, msgs))
    ensures CountersValid(TallyAll(c, msgs[..i]))
  {
    TallyAllMonotone(c, msgs, i);
    TallyAllCounts(c, msgs[..i]);
    TallyAllCounts(c, msgs);
    assert msgs[..|msgs|] == msgs;
  }

  /** The loop over one more message is one more turn. */
  lemma ReplayStep(c: Counters, last: nat, msgs: seq<ScanMessage>, times: seq<nat>, interval: nat, i: nat)
    requires |times| == |msgs| && i < |msgs| && CountersValid(c) && CountersValid(TallyAll(c, msgs))
    ensures CountersValid(TallyAll(c, msgs[..i])) && CountersValid(TallyAll(c, msgs[..i + 1]))
    ensures var prev := Replay(c, last, msgs[..i], times[..i], interval);
      CountersValid(Tally(prev.counts, msgs[i]))
      && Replay(c, last, msgs[..i + 1], times[..i + 1], interval) == Turn(prev, msgs[i], times[i], interval)
  {
    PrefixValid(c, msgs, i);
    PrefixValid(c, msgs, i + 1);
    assert msgs[..i + 1][..i] == msgs[..i] && times[..i + 1][..i] == times[..i];
    assert msgs[..i + 1][i] == msgs[i] && times[..i + 1][i] == times[i];
  }

  /** With interval 0 every message is followed by a report, and the baselines end at the totals. */
  lemma {:induction false} ReplayIntervalZero(c: Counters, last: nat, msgs: seq<ScanMessage>, times: seq<nat>)
    requires |times| == |msgs| && msgs != [] && CountersValid(c) && CountersValid(TallyAll(c, msgs))
    ensures var s := Replay(c, last, msgs, times, 0);
      |s.reports| == |msgs| && s.counts == AfterReport(TallyAll(c, msgs)) && s.lastReportTime == times[|msgs| - 1]
  {
    var n := |msgs| - 1;
    PrefixValid(c, msgs, n);
    TallyAllCounts(c, msgs[..n]);
    TallyAllCounts(c, msgs);
    if n > 0 {
      ReplayIntervalZero(c, last, msgs[..n], times[..n]);
    }
  }

  /**
   * The collector's receive loop (`src/scanner.rs`, the task that owns the collector): update
   * with each message, then report if the interval has passed, reading the clock at `times[i]`.
   * The state it leaves and the reports it logs are those of `Replay`, so the totals are the
   * tallies of all messages; the notifier receives every `Found` line in order when it is attached.
   */
  method Consume(stats: StatsCollector, msgs: seq<ScanMessage>, times: seq<nat>, interval: nat)
    returns (reports: seq<StatsReport>, forwarded: seq<string>)
    requires stats.Valid() && |times| == |msgs|
    requires CountersValid(TallyAll(stats.Counts(), msgs))
    modifies stats
    ensures stats.Valid()
    ensures var s := Replay(old(stats.Counts()), old(stats.lastReportTime), msgs, times, interval);
      stats.Counts() == s.counts && stats.lastReportTime == s.lastReportTime && reports == s.reports
    ensures stats.discord == old(stats.discord) && stats.startTime == old(stats.startTime)
    ensures stats.scannedTotal == old(stats.scannedTotal) + ScannedSum(msgs)
    ensures stats.portsOpen == old(stats.portsOpen) + OpenPortCount(msgs)
    ensures stats.serversFound == old(stats.serversFound) + FoundCount(msgs)
    ensures forwarded == if stats.discord.Some? then FoundMessages(msgs) else []
  {
    reports, forwarded := [], [];
    var i := 0;
    ghost var start := stats.Counts();
    ghost var last := stats.lastReportTime;
    TallyAllCounts(start, msgs);
    assert msgs[..0] == [] && times[..0] == [];
    while i < |msgs|
      invariant 0 <= i <= |msgs| && stats.Valid()
      invariant stats.discord == old(stats.discord) && stats.startTime == old(stats.startTime)
      invariant stats.scannedTotal == start.scannedTotal + ScannedSum(msgs[..i])
      invariant stats.portsOpen == start.portsOpen + OpenPortCount(msgs[..i])
      invariant stats.serversFound == start.serversFound + FoundCount(msgs[..i])
      invariant forwarded == if stats.discord.Some? then FoundMessages(msgs[..i]) else []
      invariant CountersValid(TallyAll(start, msgs[..i]))
      invariant Replay(start, last, msgs[..i], times[..i], interval)
                  == Session(stats.Counts(), stats.lastReportTime, reports)
    {
      ConsumeStep(start, msgs, i, stats.Counts(), msgs[i]);
      ReplayStep(start, last, msgs, times, interval, i);
      var sent, report := Receive(stats, msgs[i], times[i], interval);
      if sent.Some? {
        forwarded := forwarded + [sent.value];
      }
      if report.Some? {
        reports := reports + [report.value];
      }
      i := i + 1;
    }
    assert msgs[..i] == msgs && times[..i] == times;
  }

  /**
   * One turn of the receive loop: `update(msg)`, then `report_stats` if it is due at `now`. The
   * totals move as `update` alone moves them, since a report touches only the baselines.
   */
  method Receive(stats: StatsCollector, msg: ScanMessage, now: nat, interval: nat)
    returns (sent: Option<string>, report: Option<StatsReport>)
    requires stats.Valid() && Tally(stats.Counts(), msg).scannedTotal < U64_LIMIT
    requires Tally(stats.Counts(), msg).portsOpen < U64_LIMIT && Tally(stats.Counts(), msg).serversFound < U64_LIMIT
    modifies stats
    ensures stats.Valid() && stats.discord == old(stats.discord)
    ensures stats.scannedTotal == Tally(old(stats.Counts()), msg).scannedTotal
    ensures stats.portsOpen == Tally(old(stats.Counts()), msg).portsOpen
    ensures stats.serversFound == Tally(old(stats.Counts()), msg).serversFound
    ensures sent == if msg.Found? && stats.discord.Some? then Some(msg.message) else None
    ensures report.Some? <==> ElapsedSeconds(old(stats.lastReportTime), now) >= interval
    ensures report.Some? ==> report.value == ReportOf(Tally(old(stats.Counts()), msg))
    ensures report.Some? ==> stats.Counts() == AfterReport(Tally(old(stats.Counts()), msg)) && stats.lastReportTime == now
    ensures report.None? ==> stats.Counts() == Tally(old(stats.Counts()), msg)
    ensures report.None? ==> stats.lastReportTime == old(stats.lastReportTime)
    ensures stats.startTime == old(stats.startTime)
  {
    sent := stats.Update(msg);
    report := None;
    if stats.ShouldReportStats(interval, now) {
      var r := stats.ReportStats(interval, now);
      report := Some(r);
    }
  }

  /** One more message: the totals reach those of the longer prefix, still within `u64`. */
  lemma ConsumeStep(start: Counters, msgs: seq<ScanMessage>, i: nat, cur: Counters, m: ScanMessage)
    requires i < |msgs| && m == msgs[i] && CountersValid(TallyAll(start, msgs))
    requires cur.scannedTotal == start.scannedTotal + ScannedSum(msgs[..i])
    requires cur.portsOpen == start.portsOpen + OpenPortCount(msgs[..i])
    requires cur.serversFound == start.serversFound + FoundCount(msgs[..i])
    ensures Tally(cur, m).scannedTotal == start.scannedTotal + ScannedSum(msgs[..i + 1]) < U64_LIMIT
    ensures Tally(cur, m).portsOpen == start.portsOpen + OpenPortCount(msgs[..i + 1]) < U64_LIMIT
    ensures Tally(cur, m).serversFound == start.serversFound + FoundCount(msgs[..i + 1]) < U64_LIMIT
    ensures FoundMessages(msgs[..i + 1]) == FoundMessages(msgs[..i]) + (if m.Found? then [m.message] else [])
  {
    SliceAround(msgs, i);
    TallyAllCounts(start, msgs);
    PrefixCounts(msgs[..i], m, msgs[i + 1..], msgs[..i + 1], msgs);
    TallyFields(cur, m);
  }

  lemma SliceAround<T>(s: seq<T>, i: nat)
    requires i < |s|
    ensures s[..i + 1] == s[..i] + [s[i]] && s == s[..i + 1] + s[i + 1..]
  {
  }

  /** `update(m)` adds `m`'s contribution to each total and leaves the rest alone. */
  lemma TallyFields(c: Counters, m: ScanMessage)
    ensures Tally(c, m).scannedTotal == c.scannedTotal + (if m.Scanned? then m.count else 0)
    ensures Tally(c, m).portsOpen == c.portsOpen + (if m.OpenPort? then 1 else 0)
    ensures Tally(c, m).serversFound == c.serversFound + (if m.Found? then 1 else 0)
  {
  }

  /** The counts of a prefix that ends in `m`: those before `m`, plus `m`'s, and at most the whole's. */
  lemma PrefixCounts(pre: seq<ScanMessage>, m: ScanMessage, rest: seq<ScanMessage>,
                     longer: seq<ScanMessage>, whole: seq<ScanMessage>)
    requires longer == pre + [m] && whole == longer + rest
    ensures ScannedSum(longer) == ScannedSum(pre) + (if m.Scanned? then m.count else 0) <= ScannedSum(whole)
    ensures OpenPortCount(longer) == OpenPortCount(pre) + (if m.OpenPort? then 1 else 0) <= OpenPortCount(whole)
    ensures FoundCount(longer) == FoundCount(pre) + (if m.Found? then 1 else 0) <= FoundCount(whole)
    ensures FoundMessages(longer) == FoundMessages(pre) + (if m.Found? then [m.message] else [])
  {
    CountsAppend(longer, rest);
    CountsAppend(pre, [m]);
    CountsOne(m);
  }

  /** The counts of a single message. */
  lemma CountsOne(m: ScanMessage)
    ensures ScannedSum([m]) == (if m.Scanned? then m.count else 0)
    ensures OpenPortCount([m]) == (if m.OpenPort? then 1 else 0)
    ensures FoundCount([m]) == (if m.Found? then 1 else 0)
    ensures FoundMessages([m]) == if m.Found? then [m.message] else []
  {
    assert [m][1..] == [];
  }
}
