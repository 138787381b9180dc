# mc-server-finder, modelled in Dafny

mc-server-finder scans the IPv4 space for Minecraft servers. Each worker task does the following:

- It draws a start address. The address comes from a block list of subnets (`assets/ips.txt`) or, when that list is empty, from a random public address.
- It walks the range after the start address chunk by chunk.
- It sends a TCP probe to every address of a chunk, using a source port drawn from its own window of 255 ports.
- It pings each open address with the Server List Ping. That is a handshake packet and a status request, both framed with the protocol's VarInts. A valid status reply becomes a `[FOUND] ip:port - online/max - version - description` line.
- It reports `OpenPort`, `Found` and `Scanned` messages to one statistics collector.

The collector keeps running totals and logs periodic reports. It also hands every `[FOUND]` line to a Discord notifier. The notifier parses the line back into a server record and picks a webhook and a colour from the version and the player count. It then builds an embed, shortening the description to 1000 bytes.

The project has one Dafny module per source file, plus three helper modules:

| file | module | models |
|---|---|---|
| `common.dfy` | `Common` | `Option`/`Result`, the unsigned integer ranges, powers of two |
| `text.dfy` | `Text` | Rust's `str::split`, `split_once`, `trim`, `lines`, and decimal printing and `parse::<uN>` |
| `utf8.dfy` | `Utf8` | UTF-8 byte lengths of strings, and the longest prefix of a string that fits in `n` bytes |
| `minecraft.dfy` | `Minecraft` | `src/minecraft.rs`: VarInts, handshake framing, reading the status response, error mapping, `quick_port_check`, `extract_description` |
| `network.dfy` | `Network` | `src/network.rs`: the subnet file parser, drawing an address from a subnet, the fallback generator's acceptance rule, `increment_ip` |
| `scanner.dfy` | `Scanner` | `src/scanner.rs`: the per-worker range loop, with the probe and the ping as oracles, and the per-task source ports |
| `stats.dfy` | `Stats` | `src/stats.rs`: `ScanMessage` and the `StatsCollector` class, plus the collector's receive loop |
| `discord.dfy` | `Discord` | `src/discord.rs`: parsing `[FOUND]` lines, choosing the webhook and colour, the description field |

The model follows the code's structure:

- Code that loops and updates variables is a `method` with loop invariants. This covers `encode_varint`, `read_varint_async`, `load_subnets`, the fallback loop, the chunk loops of a worker, the range loop and the collector's receive loop.
- Each such method is proved equal to a specification function, and the properties are proved about that function.
- The collector, whose methods update its fields, is a `class`.
- Everything else is functions and lemmas.
- Sockets, the clock and the random number generator are parameters:
  - a connect outcome and the received bytes;
  - clock readings in nanoseconds;
  - the draws the generator would return.
- The TCP probe and the Minecraft ping of a worker are functions of (address, source port).

Details of the code that the model follows:

- `consecutive_empty` is reset only by a found server (`src/scanner.rs:190`). A chunk with open ports but no server leaves it unchanged. A chunk with no open port adds the chunk's size.
- The host offset drawn in a subnet lies in `[1, 2^h - 2]`: it is `random_range(1..max_hosts)` with `max_hosts = 2^h - 1`. It is combined with the network address by bitwise OR, not added to it (`src/network.rs:42-55`).
- The total scan rate is 0 when the runtime is under one second (`src/stats.rs:83-87`). Rates are floating point and are left out.

## Model

| member | source | states |
|---|---|---|
| `Common.Pow2Add` | src/network.rs:43-47 | 2^(a+b) = 2^a · 2^b, used for host-bit arithmetic |
| `Text.SplitOnce` | src/network.rs:25 | `split_once(c)` succeeds iff `c` occurs; the head holds no `c` and head + c + tail rebuilds the line |
| `Text.JoinSplit` | src/discord.rs:227-251 | joining the pieces of `split(pat)` with `pat` gives back the string |
| `Text.SplitJoinChar` | src/discord.rs:233-247 | splitting a join on a character that no piece contains returns the pieces |
| `Text.DashFieldSplitsFirst` | src/discord.rs:227 | a field without " - " inside and not ending in " -" is split off whole as the first piece |
| `Text.TrimStart` | src/network.rs:20 | only leading whitespace is removed, and the result does not start with whitespace |
| `Text.TrimEnd` | src/network.rs:20 | only trailing whitespace is removed, and the result does not end with whitespace |
| `Text.LinesOfJoin` | src/network.rs:19 | `lines()` of a newline-joined list of `\r`-free lines without a trailing empty line returns the list |
| `Text.FormatDecimal` | src/scanner.rs:166-174 | the printed number is non-empty, all digits, "0" only for 0, and never has a leading zero |
| `Text.DecimalRoundTrip` | src/scanner.rs:166-174 | the value of the printed digits is the number |
| `Text.ParseFormatDecimal` | src/discord.rs:239-247 | `parse::<uN>` reads back every printed number up to the type's maximum |
| `Utf8.Utf8LengthAppend` | src/discord.rs:81 | the byte length (`len()`) of a concatenation is the sum of the byte lengths |
| `Utf8.FloorPrefix` | src/discord.rs:81-82 | the longest character prefix within `n` bytes: at most `n` bytes, and one more character would exceed `n` |
| `Utf8.TwoByteRunFloor` | src/discord.rs:81-82 | in a run of two-byte characters, a budget of 2k+1 bytes keeps exactly k characters |
| `Minecraft.EncodeVarInt` | src/minecraft.rs:208-219 | the loop emits exactly `VarInt(value)` for a non-negative `i32` |
| `Minecraft.VarIntContinuationBits` | src/minecraft.rs:211-216 | every byte but the last has the continuation bit; the last has not; values below 128 are one byte |
| `Minecraft.VarIntOfI32` | src/minecraft.rs:208-219 | a non-negative `i32` takes 1 to 5 bytes |
| `Minecraft.ReadVarInt` | src/minecraft.rs:222-241 | the byte loop returns `DecodeVarInt(s, pos)`: the value with its end position, early eof, or "VarInt too big" |
| `Minecraft.VarIntRoundTrip` | src/minecraft.rs:208-241 | decoding an encoded non-negative `i32` followed by anything gives the value and the position just after it |
| `Minecraft.TooBigAfterFiveContinuationBytes` | src/minecraft.rs:232-235 | five bytes with the continuation bit, then any sixth byte, fail as too big |
| `Minecraft.SixthByteShiftOverflows` | src/minecraft.rs:231-235 | six 0x80 bytes: the release build reports too big; the build with overflow checks fails on the shift by 35 first |
| `Minecraft.DebugDecoderDiffersOnlyOnSixthByte` | src/minecraft.rs:231-235 | the overflow-checked decoder agrees with the release one except where the latter reports too big |
| `Minecraft.BuildHandshake` | src/minecraft.rs:132-144 | the built packet is the length-prefixed frame: id 0, version, address length and bytes, port big-endian, next state 1 |
| `Minecraft.HandshakeRoundTrip` | src/minecraft.rs:132-146 | parsing what is sent yields the version, address, port and next state 1, followed by the status request `[1, 0]` |
| `Minecraft.BigEndian16` | src/minecraft.rs:138-139 | the two port bytes are its high and low byte |
| `Minecraft.ConnectError` | src/minecraft.rs:117-128 | refused maps to `ConnectionRefused`; `TimedOut` or the elapsed timer maps to `Timeout`; address in use maps to `NetworkError("Port in use")` and any other error to `NetworkError` of its own text; never `ProtocolError` |
| `Minecraft.QuickPortCheck` | src/minecraft.rs:77-86 | always `Ok`, and `true` exactly when the connection was made |
| `Minecraft.ReadStatusResponse` | src/minecraft.rs:156-180 | the read returns `StatusResponse`: header VarInt errors as `ProtocolError`, a short payload as `NetworkError`, bad UTF-8 or JSON as `ProtocolError` |
| `Minecraft.ReadPayload` | src/minecraft.rs:167-176 | reading the payload gives `NetworkError("early eof")` when fewer bytes remain than announced, otherwise the decoded status, or a `ProtocolError` carrying the error text of the UTF-8 or JSON step that failed |
| `Minecraft.ResponseAfterHeader` | src/minecraft.rs:167-178 | after three VarInts, the outcome depends only on whether the payload is complete, decodes and deserialises |
| `Minecraft.StatusResponseRoundTrip` | src/minecraft.rs:156-186 | a well-framed reply whose payload decodes to a status yields that status, whatever bytes follow |
| `Minecraft.ShortPayloadIsNetworkError` | src/minecraft.rs:167-171 | a payload shorter than its announced length is `NetworkError("early eof")` |
| `Minecraft.PingServerFast` | src/minecraft.rs:89-187 | connect errors, write errors and the response timeout are reported in that order; otherwise the sent bytes are the frame plus the request and the result is the parsed reply |
| `Minecraft.ExtractDescription` | src/minecraft.rs:189-205 | a string `text` gives that string and a non-string `text` gives ""; without `text`, an `extra` array gives `join("")` of its elements' string texts; otherwise, `extra` missing or not an array, the value's JSON text |
| `Minecraft.JoinTextsIsJoin` | src/minecraft.rs:196-200 | concatenating each element's text ("" when it has none) is `join("")` of the `filter_map`ped strings |
| `Minecraft.TextFieldWins` | src/minecraft.rs:190-192 | an object whose `text` is a string gives that string |
| `Minecraft.ExtraTextsJoined` | src/minecraft.rs:194-201 | `{"extra":[{"text":"A"},{"text":"B"}]}` gives "AB" |
| `Minecraft.JoinTextsAppend` | src/minecraft.rs:196-200 | the joined texts of two runs of elements are the two joins concatenated |
| `Minecraft.JoinTextsSkips` | src/minecraft.rs:198 | elements without a string `text` contribute nothing |
| `Minecraft.NeitherFieldIsShown` | src/minecraft.rs:204 | without `text` or `extra`, the description is the value's JSON text |
| `Network.U32RoundTrip` | src/network.rs:39-57 | octets to `u32` and back is the identity in both directions |
| `Network.FormatIpv4Chars` | src/scanner.rs:108 | the dotted form has no '/', newline, ':' or space, and starts and ends with a digit |
| `Network.ParseOctetIff` | src/network.rs:26 | an octet parses to n iff the text is n's canonical decimal |
| `Network.ParseIpv4Iff` | src/network.rs:26 | `parse::<Ipv4Addr>` accepts exactly the canonical dotted form of the address |
| `Network.ParseLine` | src/network.rs:20-31 | an accepted line has prefix ≤ 32; blank and '#' lines are skipped |
| `Network.ParseLineFormat` | src/network.rs:25-29 | the printed `a.b.c.d/p` of every subnet with p ≤ 32 parses back to it |
| `Network.FilterMapMember` | src/network.rs:19-32 | an element is kept iff some input maps to it |
| `Network.SubnetsFromLinesMember` | src/network.rs:19-32 | a subnet is loaded iff some line parses to it |
| `Network.SubnetsFromLinesAppend` | src/network.rs:19-32 | loading two runs of lines is loading each, in order |
| `Network.LoadSubnets` | src/network.rs:6-36 | a missing file gives no subnets; otherwise the loop returns the parsed lines in order, all with prefix ≤ 32 |
| `Network.LoadBlockList` | src/network.rs:6-36 | a block list printed one subnet per line loads back to the same list |
| `Network.MaxHosts` | src/network.rs:42-47 | `max_hosts` is 2^(32-prefix) − 1 |
| `Network.FewHosts` | src/network.rs:49-50 | at most two hosts exactly for prefixes 31 and 32 |
| `Network.HostOffset` | src/network.rs:49-53 | the offset is 1 for /31 and /32, and otherwise the draw, in [1, 2^h − 2] |
| `Network.BitOrHighBits` | src/network.rs:55 | OR with a value below 2^k leaves the bits above k unchanged |
| `Network.BitOrAligned` | src/network.rs:55 | OR with a value below 2^k is addition when the low k bits are clear |
| `Network.SampleValue` | src/network.rs:39-57 | the drawn address is network OR offset |
| `Network.SampleInBlock` | src/network.rs:39-57 | the drawn address keeps the network's prefix bits |
| `Network.SampleAligned` | src/network.rs:39-57 | for an aligned network, the address is network + offset, strictly inside the block for prefixes ≤ 30 |
| `Network.SampleSingleHost` | src/network.rs:49-55 | a /32 gives the address itself if it is odd, else the next one |
| `Network.FirstAccepted` | src/network.rs:73-86 | the first draw the filter does not reject, with all earlier ones rejected |
| `Network.RandomIpv4Fallback` | src/network.rs:71-87 | the loop returns the first accepted draw, and it is neither private nor loopback |
| `Network.RandomIpv4FromSubnets` | src/network.rs:60-68 | with no subnets, the fallback address; otherwise, for a picked block of prefix ≤ 31, an address inside it (a /32 block gives `network | 1`, see `Network.SampleSingleHost`) |
| `Network.IncrementIp` | src/network.rs:89-92 | the result's `u32` value is base + offset modulo 2^32 |
| `Network.IncrementCompose` | src/network.rs:89-92 | two increments are one increment by the wrapping sum |
| `Network.IncrementZero` | src/network.rs:89-92 | incrementing by 0 leaves the address unchanged |
| `Scanner.WorkerBasePort` | src/scanner.rs:79-80 | the base port is base + task·per_task when that fits in `u16` |
| `Scanner.WorkerPortsDisjoint` | src/scanner.rs:79-80 | with at least 255 ports per task, no two workers share a source port |
| `Scanner.SourcePort` | src/scanner.rs:116-117 | every source port lies in [base, base + 254] |
| `Scanner.AdvanceStep` | src/scanner.rs:116-117 | one wrapping increment advances the counter by one more |
| `Scanner.ChunkAddresses` | src/scanner.rs:105-110 | a chunk has exactly `current_chunk_size` addresses, the `i`-th being `current_ip + i` modulo 2^32 |
| `Scanner.ChunkSize` | src/scanner.rs:104 | a chunk never passes `max_range_size`, is at most `chunk_size`, and is positive while running with a positive `chunk_size` |
| `Scanner.ProbesExactly` | src/scanner.rs:112-143 | an address is reported open iff its probe, with its own source port, succeeded |
| `Scanner.PingsOnlyAnswered` | src/scanner.rs:145-194 | every `[FOUND]` line belongs to an open address whose ping answered, built from that answer |
| `Scanner.PingsEveryAnswer` | src/scanner.rs:145-194 | every open address whose ping answered has its `[FOUND]` line, built from that answer, among the lines |
| `Scanner.ProbeChunk` | src/scanner.rs:112-143 | the probe loop returns `Probes` and advances the counter once per address |
| `Scanner.PingOpen` | src/scanner.rs:145-194 | the ping loop returns `Pings`, advances the counter once per open address, and resets `consecutive_empty` iff a server was found |
| `Scanner.ChunkEventsCounts` | src/scanner.rs:135-197 | a chunk reports its size as scanned, one `OpenPort` per open address and one `Found` per server |
| `Scanner.ScanChunk` | src/scanner.rs:104-203 | one loop pass equals `Step` on the loop variables |
| `Scanner.ConsecutiveEmptyRule` | src/scanner.rs:184-201 | a found server resets `consecutive_empty`; no open port adds the chunk size; open ports without a server leave it |
| `Scanner.ChunkEventOrder` | src/scanner.rs:136-197 | a chunk sends its `OpenPort`s in address order, then its `Found`s, then `Scanned` |
| `Scanner.ZeroChunkStalls` | src/scanner.rs:103-104 | with `chunk_size` 0, a running range makes no progress |
| `Scanner.Run` | src/scanner.rs:103-204 | the loop stops inside `max_range_size`, with scanned, found and events only growing |
| `Scanner.RunAddress` | src/scanner.rs:103-203 | `current_ip` is always the start address plus `local_scanned`, modulo 2^32 |
| `Scanner.RunCounts` | src/scanner.rs:184-197 | the `Scanned` messages add up to `local_scanned` and the `Found` messages to `local_found` |
| `Scanner.RunScansSomething` | src/scanner.rs:103-213 | a range scans something iff `max_range_size` and `consecutive_threshold` are positive |
| `Scanner.ScanRange` | src/scanner.rs:98-213 | the range loop equals `Run`; it ends by size or by threshold; its address and counts agree; `end_ip` exists iff something was scanned |
| `Scanner.RangesScannedBound` | src/scanner.rs:89-213 | k ranges scan at most k · `max_range_size` addresses |
| `Scanner.Worker` | src/scanner.rs:86-213 | the worker's ranges, one per start draw, send exactly `Ranges`' events and scan within the bound |
| `Scanner.FoundMessageRoundTrip` | src/scanner.rs:166-174 | `extract_server_info` of a `[FOUND]` line gives back its address, port, players, version and description |
| `Stats.TallyAllCounts` | src/stats.rs:47-68 | after any messages, each total is its start plus the sum or count of its kind; the baselines do not move |
| `Stats.CountsAppend` | src/stats.rs:6-10 | the counts and the `Found` lines of two runs of messages add up |
| `Stats.ThreeMessages` | src/stats.rs:47-68 | `Scanned(50)`, `OpenPort`, `Found` from zero gives 50 scanned, 1 open, 1 found |
| `Stats.TallyAllMonotone` | src/stats.rs:47-68 | the totals never decrease as messages arrive |
| `Stats.ReportOf` | src/stats.rs:76-124 | the deltas are the totals minus the baselines; the activity line appears iff new ports or servers were seen |
| `Stats.ReportTwice` | src/stats.rs:76-130 | a report right after a report has zero deltas and no activity line |
| `Stats.ScansAloneAreQuiet` | src/stats.rs:119-124 | scanning alone shows in the scan delta but never in the activity line |
| `Stats.ReportDueIff` | src/stats.rs:71-73 | a report is due iff `interval` whole seconds have passed |
| `Stats.StatsCollector.constructor` | src/stats.rs:25-38 | all counters zero, both times `now`, no notifier |
| `Stats.StatsCollector.WithDiscord` | src/stats.rs:41-44 | attaches the notifier and changes nothing else |
| `Stats.StatsCollector.Update` | src/stats.rs:47-68 | increments the counter of the message's kind, and forwards a `Found` line iff a notifier is attached |
| `Stats.StatsCollector.ReportStats` | src/stats.rs:76-130 | returns `ReportOf` of the old counters, moves every baseline to its total, and sets the report time |
| `Stats.Receive` | src/scanner.rs:61-66 | one turn of the receive loop moves the totals as `update` does, forwards a `Found` line iff a notifier is attached, and reports iff the interval has passed, with the report of the updated counters; after a report the baselines are the new totals and the report time is `now`, otherwise both are unchanged |
| `Stats.Replay` | src/scanner.rs:61-67 | the receive loop as a function of the messages and clock readings: its totals are those of `update` alone, every baseline stays within its total, and there is at most one report per message |
| `Stats.ReplayIntervalZero` | src/scanner.rs:61-67 | with interval 0 every message is followed by a report, the baselines end at the totals and the report time at the last reading |
| `Stats.Consume` | src/scanner.rs:61-67 | the loop leaves the counters and report time of `Replay` and returns its reports; the totals are the start plus the messages' sums, the notifier is unchanged and got every `Found` line in order |
| `Discord.ExtractServerInfo` | src/discord.rs:221-262 | only lines starting "[FOUND] " parse; the address has no ':'; no country yet |
| `Discord.ExtractServerInfoWithCountry` | src/discord.rs:213-219 | the plain parse with the looked-up country filled in |
| `Discord.Family` | src/discord.rs:151-169 | the version family is 1.21, 1.20 or 1.19 exactly by prefix |
| `Discord.WebhookIsTableLookup` | src/discord.rs:148-176 | the webhook is the table entry for (family, players > 0) |
| `Discord.ColorIdentifiesClass` | src/discord.rs:178-190 | two servers get the same colour iff they share family and activity |
| `Discord.DescriptionFieldAsWritten` | src/discord.rs:77-86 | empty gives "No description" and up to 1000 bytes is kept; longer panics iff byte 1000 is inside a character, and otherwise gives exactly its first 1000 bytes plus "..." |
| `Discord.DescriptionField` | src/discord.rs:77-86 | empty gives "No description"; up to 1000 bytes is kept; longer is the longest character prefix within 1000 bytes (997 to 1000 bytes, and one more character would pass 1000) plus "..." |
| `Discord.DescriptionFieldAgrees` | src/discord.rs:77-86 | wherever the written slice does not panic, it gives the corrected field |
| `Discord.AsciiDescriptionNeverPanics` | src/discord.rs:81-82 | an ASCII description never hits the panic |
| `Discord.SliceInsideCharacter` | src/discord.rs:81-82 | "a" followed by 500 or more 'é' panics as written, and the corrected field keeps 500 characters plus "..." |
| `Discord.NotifyServerFound` | src/discord.rs:31-95 | no embed iff the webhook is empty; otherwise posted to `get_webhook_for_server`'s URL, with the server's colour, `ip:port`, `online/max`, version, its country or "Unknown", and the corrected description field (at most 1003 bytes) |
| `Discord.EmbedFieldsReadBack` | src/discord.rs:55-63 | the embed's address and players fields split and parse back to the server's address, port and player counts |
| `Discord.Dispatch` | src/stats.rs:55-64 | an unparsable line sends nothing; a parsed one is notified with the looked-up country attached |

## Left out

- Sockets, timeouts and socket options are replaced by parameters: connect outcomes, write errors, received bytes, a timed-out flag and the probe and ping oracles. Tokio tasks and the channel are left out too. The worker runs its tasks one by one, in the order it awaits them.
- The test pings at the top of `src/scanner.rs` (lines 19-50) and the spawning of `num_tasks` workers are left out. Each worker is modelled alone; `Scanner.WorkerPortsDisjoint` is what keeps their ports apart.
- The worker's endless outer loop is modelled over a finite sequence of start draws (`Scanner.Worker`).
- The random number generator is left out. Its draws are parameters: the subnet index, the host offset and the fallback's candidate addresses.
- Network.RandomIpv4Fallback: runs over a finite list of candidate draws and returns `None` if all are rejected; the source loops until one is accepted.
- Geolocation (`get_country_from_ip`) is a parameter. The HTTP post of the embed and its retry loop (`src/discord.rs:97-145`) are left out; `Discord.NotifyServerFound` returns the embed it would post.
- Floating-point rates and percentages in reports and range logs are left out, and so is log output. Of the embed, the fixed field names (all but the players field's), the `inline` flags, the footer and the timestamp are left out.
- Configuration loading (`src/config.rs`), the logger and `main` are left out.
- UTF-8 decoding of the payload and serde deserialisation into `ServerStatus` are oracles that return the value or the error's text. `serde_json::Value::to_string` is the oracle `show`.
- Minecraft.ReadStatusResponse: requires that the JSON length VarInt is not negative. The source casts it with `as usize`, which gives a huge buffer size.
- Minecraft.PingServerFast: requires that the JSON length VarInt of the received bytes is not negative, for the same reason.
- Discord.NotifyServerFound: builds the description with the corrected rule `Discord.DescriptionField`. Where the source's `&description[..1000]` panics (see Findings), its task posts nothing, while the model returns an embed; `Discord.DescriptionFieldAsWritten` models that case.
- Minecraft.EncodeVarInt: requires a non-negative value. Negative `i32`s (arithmetic shift) never occur, because protocol versions and lengths are non-negative.
- Scanner.ScanRange: requires `chunk_size > 0`; with 0 the source loops forever, as `Scanner.ZeroChunkStalls` shows.
- Scanner.ConfigOk: requires `base_source_port + 254` to fit in `u16`; otherwise the `u16` addition on lines 116 and 149 overflows.
- Scanner.WorkerBasePort: returns `None` where the source's `u16` arithmetic overflows (a panic with overflow checks; wrap-around otherwise). The wrapped value is not modelled.
- Scanner.EndIp: returns `None` when nothing was scanned, where `local_scanned - 1` underflows.
- `consecutive_empty` and the range counters are unbounded naturals. With `max_range_size` below 2^64 they never reach the `usize` limit.
- Stats.StatsCollector.Update: requires that the `u64` additions do not overflow; the source would panic or wrap.

## Findings

| source | as written | input that shows it | evidently intended | confidence | as-written member | corrected member |
|---|---|---|---|---|---|---|
| src/minecraft.rs:231-235 | the byte is shifted by `7 * num_read` before `num_read > 5` is checked, so a sixth byte is shifted by 35 in `i32`, which panics in a build with overflow checks | six bytes `0x80` | fail with "VarInt too big" after five continuation bytes | not executed | `Minecraft.SixthByteShiftOverflows` | `Minecraft.TooBigAfterFiveContinuationBytes` |
| src/discord.rs:81-82 | `&server.description[..1000]` slices at byte 1000, which panics when that byte is inside a multi-byte character | "a" followed by 500 'é' (1001 bytes) | cut at the last character boundary at or before byte 1000 | not executed | `Discord.SliceInsideCharacter` | `Discord.DescriptionField` |
