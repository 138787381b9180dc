/**
 * The pure parts of `src/discord.rs`: reading a `[FOUND]` log line back into a server record,
 * choosing a webhook and an embed colour from the version family and activity, and the rule
 * for the embed's description field. The HTTP post with its retries and the country lookup
 * are left to the caller: the lookup's answer is a parameter.
 */
module Discord {
  import opened Common
  import opened Text
  import opened Utf8

  /** `MinecraftServer`: what a `[FOUND]` line says about one server. */
  datatype MinecraftServer = MinecraftServer(
    ip: string, port: U16, playersOnline: U32, playersMax: U32,
    version: string, description: string, country: Option<string>)

  /** `DiscordConfig`: one webhook URL per version family and activity; "" means none. */
  datatype DiscordConfig = DiscordConfig(
    webhook121Active: string, webhook120Active: string, webhook119Active: string, webhookOtherActive: string,
    webhook121Empty: string, webhook120Empty: string, webhook119Empty: string, webhookOtherEmpty: string)

  const U16_MAX: nat := 0xFFFF
  const U32_MAX: nat := 0xFFFF_FFFF

  /**
   * `extract_server_info`: `"[FOUND] ip:port - online/max - version - description"` back into its
   * fields. The description is everything after the third `" - "`, so it may hold `" - "` itself.
   */
  function ExtractServerInfo(msg: string): (r: Option<MinecraftServer>)
    ensures r.Some? ==> StartsWith(msg, "[FOUND] ")
    ensures r.Some? ==> ':' !in r.value.ip && r.value.country.None?
    ensures !StartsWith(msg, "[FOUND] ") ==> r.None?
  {
    if !StartsWith(msg, "[FOUND]") then None
    else if !StartsWith(msg, "[FOUND] ") then None
    else
      var parts := Split(msg[8..], " - ");
      if |parts| < 4 then None
      else
        var address := Split(parts[0], ":");
        if |address| != 2 then None
        else
          var port := ParseUnsigned(address[1], U16_MAX);
          if port.None? then None
          else
            var players := Split(parts[1], "/");
            if |players| != 2 then None
            else
              var online := ParseUnsigned(players[0], U32_MAX);
              var max := ParseUnsigned(players[1], U32_MAX);
              if online.None? || max.None? then None
              else
                SplitTwoPieces(parts[0], ':');
                Some(MinecraftServer(address[0], port.value, online.value, max.value,
                                     parts[2], Join(parts[3..], " - "), None))
  }

  /** When `split(c)` yields two pieces the first holds no `c`. */
  lemma SplitTwoPieces(s: string, c: char)
    ensures |Split(s, [c])| == 2 ==> c !in Split(s, [c])[0]
  {
    var f := FindFrom(s, [c], 0);
    if f.Some? {
      forall j | 0 <= j < f.value ensures s[j] != c {
        assert !OccursAt(s, [c], j);
      }
    }
  }

  /**
   * `extract_server_info_with_country`: the same record with the country the geolocation
   * lookup answered (`None` when it failed).
   */
  function ExtractServerInfoWithCountry(msg: string, country: Option<string>): (r: Option<MinecraftServer>)
    ensures r.Some? <==> ExtractServerInfo(msg).Some?
    ensures r.Some? ==> r.value == ExtractServerInfo(msg).value.(country := country)
  {
    match ExtractServerInfo(msg)
    case None => None
    case Some(server) => Some(server.(country := country))
  }

  // ---------------------------------------------------------------------------------------
  // Routing by version family and activity
  // ---------------------------------------------------------------------------------------

  datatype VersionFamily = V121 | V120 | V119 | OtherVersion

  /** The family the first matching `starts_with` test picks. */
  function Family(version: string): (r: VersionFamily)
    ensures r == V121 <==> StartsWith(version, "1.21")
    ensures r == V120 <==> StartsWith(version, "1.20")
    ensures r == V119 <==> StartsWith(version, "1.19")
  {
    if StartsWith(version, "1.21") then V121
    else if StartsWith(version, "1.20") then V120
    else if StartsWith(version, "1.19") then V119
    else OtherVersion
  }

  /** `get_webhook_for_server`: nested tests on the version prefix, then on `players_online > 0`. */
  function WebhookForServer(config: DiscordConfig, server: MinecraftServer): (r: string)
  {
    var isActive := server.playersOnline > 0;
    if StartsWith(server.version, "1.21") then
      if isActive then config.webhook121Active else config.webhook121Empty
    else if StartsWith(server.version, "1.20") then
      if isActive then config.webhook120Active else config.webhook120Empty
    else if StartsWith(server.version, "1.19") then
      if isActive then config.webhook119Active else config.webhook119Empty
    else
      if isActive then config.webhookOtherActive else config.webhookOtherEmpty
  }

  /** The configuration as a table indexed by family and activity. */
  function WebhookEntry(config: DiscordConfig, family: VersionFamily, isActive: bool): (r: string)
  {
    match family
    case V121 => if isActive then config.webhook121Active else config.webhook121Empty
    case V120 => if isActive then config.webhook120Active else config.webhook120Empty
    case V119 => if isActive then config.webhook119Active else config.webhook119Empty
    case OtherVersion => if isActive then config.webhookOtherActive else config.webhookOtherEmpty
  }

  /** The chain of tests is a lookup of the server's family and activity in the table. */
  lemma WebhookIsTableLookup(config: DiscordConfig, server: MinecraftServer)
    ensures WebhookForServer(config, server)
         == WebhookEntry(config, Family(server.version), server.playersOnline > 0)
  {
    var f := Family(server.version);
  }

  /** `get_color_for_server`: one colour per family and activity. */
  function ColorForServer(server: MinecraftServer): (r: U32)
  {
    var isActive := server.playersOnline > 0;
    if StartsWith(server.version, "1.21") then
      if isActive then 0x00ff00 else 0x004400
    else if StartsWith(server.version, "1.20") then
      if isActive then 0x0099ff else 0x003366
    else if StartsWith(server.version, "1.19") then
      if isActive then 0xffaa00 else 0x664400
    else
      if isActive then 0xff0066 else 0x660033
  }

  /** The colour tells family and activity apart: two servers share it exactly when they share both. */
  lemma ColorIdentifiesClass(a: MinecraftServer, b: MinecraftServer)
    ensures ColorForServer(a) == ColorForServer(b)
        <==> Family(a.version) == Family(b.version) && (a.playersOnline > 0) == (b.playersOnline > 0)
  {
    var fa, fb := Family(a.version), Family(b.version);
  }

  // ---------------------------------------------------------------------------------------
  // The description field
  // ---------------------------------------------------------------------------------------

  const DESCRIPTION_LIMIT: nat := 1000

  /**
   * The description field as `notify_server_found` writes it: "No description" for an empty
   * description, the first 1000 bytes and "..." for a longer one, the description otherwise.
   * `None` stands for the panic of `&description[..1000]` when byte 1000 is inside a character.
   */
  function DescriptionFieldAsWritten(d: string): (r: Option<string>)
    ensures r.None? <==> Utf8Length(d) > DESCRIPTION_LIMIT && !IsCharBoundary(d, DESCRIPTION_LIMIT)
    ensures d == [] ==> r == Some("No description")
    ensures d != [] && Utf8Length(d) <= DESCRIPTION_LIMIT ==> r == Some(d)
    ensures r.Some? && Utf8Length(d) > DESCRIPTION_LIMIT ==>
      exists k :: 0 <= k < |d| && r.value == d[..k] + "..." && Utf8Length(d[..k]) == DESCRIPTION_LIMIT
  {
    if d == [] then Some("No description")
    else if Utf8Length(d) > DESCRIPTION_LIMIT then
      var p := FloorPrefix(d, DESCRIPTION_LIMIT);
      assert d[..|d|] == d;
      assert |p| < |d| && p == d[..|p|];
      if Utf8Length(p) == DESCRIPTION_LIMIT then Some(p + "...") else None
    else Some(d)
  }

  /**
   * The description field cut at the last character boundary at or before byte 1000
   * (`floor_char_boundary`), which never panics.
   */
  function DescriptionField(d: string): (r: string)
    ensures d == [] ==> r == "No description"
    ensures d != [] && Utf8Length(d) <= DESCRIPTION_LIMIT ==> r == d
    ensures Utf8Length(d) > DESCRIPTION_LIMIT ==>
      exists k :: 0 <= k < |d| && r == d[..k] + "..." && DESCRIPTION_LIMIT - 3 <= Utf8Length(d[..k]) <= DESCRIPTION_LIMIT
                  && DESCRIPTION_LIMIT < Utf8Length(d[..k]) + Utf8Width(d[k])
    ensures Utf8Length(r) <= DESCRIPTION_LIMIT + 3
  {
    if d == [] then "No description"
    else if Utf8Length(d) > DESCRIPTION_LIMIT then
      var p := FloorPrefix(d, DESCRIPTION_LIMIT);
      Utf8LengthAppend(p, "...");
      EllipsisLength();
      assert d[..|d|] == d;
      assert |p| < |d| && p == d[..|p|];
      p + "..."
    else d
  }

  lemma EllipsisLength()
    ensures Utf8Length("...") == 3
  {
    assert "..."[1..] == "..";
    assert ".."[1..] == ".";
    assert "."[1..] == "";
  }

  /** Where the written rule does not panic, it gives what the corrected rule gives. */
  lemma DescriptionFieldAgrees(d: string)
    ensures DescriptionFieldAsWritten(d).Some? ==> DescriptionFieldAsWritten(d).value == DescriptionField(d)
  {
  }

  /** An ASCII description never hits the panic: every byte is a character boundary. */
  lemma AsciiDescriptionNeverPanics(d: string)
    requires forall i :: 0 <= i < |d| ==> d[i] as int < 0x80
    ensures DescriptionFieldAsWritten(d).Some?
  {
    if Utf8Length(d) > DESCRIPTION_LIMIT {
      AsciiLength(d);
      var p := FloorPrefix(d, DESCRIPTION_LIMIT);
      AsciiLength(p);
    }
  }

  /**
   * `"a"` followed by 500 or more copies of `'é'` (two bytes each) is longer than 1000 bytes and
   * byte 1000 is the second byte of the 500th `'é'`: the written rule panics, the corrected one
   * keeps `"a"` and 499 copies, the first 500 characters.
   */
  lemma SliceInsideCharacter(m: nat)
    requires m >= 500
    ensures Utf8Length("a" + Repeat('é', m)) == 2 * m + 1
    ensures DescriptionFieldAsWritten("a" + Repeat('é', m)).None?
    ensures DescriptionField("a" + Repeat('é', m)) == ("a" + Repeat('é', m))[..500] + "..."
  {
    var d := "a" + Repeat('é', m);
    var p := FloorPrefix(d, DESCRIPTION_LIMIT);
    SampleCut('é', m, d, p);
    assert Utf8Length(d) > DESCRIPTION_LIMIT && Utf8Length(p) != DESCRIPTION_LIMIT;
  }

  /** The cut of the sample at byte 1000 keeps its first 500 characters, 999 bytes of them. */
  lemma SampleCut(e: char, m: nat, d: string, p: string)
    requires Utf8Width(e) == 2 && m >= 500
    requires d == "a" + Repeat(e, m) && p == FloorPrefix(d, DESCRIPTION_LIMIT)
    ensures Utf8Length(d) == 2 * m + 1
    ensures Utf8Length(p) == DESCRIPTION_LIMIT - 1 && p == d[..500]
  {
    var tail := Repeat(e, m);
    var k, left := (DESCRIPTION_LIMIT - 1) / 2, DESCRIPTION_LIMIT - 1;
    TwoByteRunLength(e, m);
    Utf8LengthAppend("a", tail);
    TwoByteRunFloor(e, m, k, left);
    TwoByteRunLength(e, k);
    FloorPrefixCons('a', tail, DESCRIPTION_LIMIT, left);
    assert p == "a" + Repeat(e, k);
    Utf8LengthAppend("a", Repeat(e, k));
  }

  // ---------------------------------------------------------------------------------------
  // The notification
  // ---------------------------------------------------------------------------------------

  /** The parts of the embed that depend on the server: the fields `notify_server_found` fills in. */
  datatype Embed = Embed(
    webhook: string, title: string, color: U32, address: string,
    playersName: string, players: string, country: string, version: string, description: string)

  /**
   * `notify_server_found` up to the HTTP post: `None` when no webhook is configured for the
   * server's family and activity, otherwise the embed to post (description cut by the corrected rule).
   */
  function NotifyServerFound(config: DiscordConfig, server: MinecraftServer): (r: Option<Embed>)
    ensures r.None? <==> WebhookForServer(config, server) == ""
    ensures r.Some? ==> r.value.webhook == WebhookForServer(config, server) && r.value.color == ColorForServer(server)
    ensures r.Some? ==> r.value.description == DescriptionField(server.description)
    ensures r.Some? ==> Utf8Length(r.value.description) <= DESCRIPTION_LIMIT + 3
    ensures r.Some? ==> r.value.address == server.ip + ":" + FormatDecimal(server.port)
    ensures r.Some? ==> r.value.players == FormatDecimal(server.playersOnline) + "/" + FormatDecimal(server.playersMax)
    ensures r.Some? ==> r.value.version == server.version
    ensures r.Some? && server.country.None? ==> r.value.country == "Unknown"
    ensures r.Some? && server.country.Some? ==> r.value.country == server.country.value
  {
    var webhook := WebhookForServer(config, server);
    if webhook == "" then None
    else
      var isActive := server.playersOnline > 0;
      var emoji := if isActive then "\U{1F7E2}" else "\U{1F534}";
      var status := if isActive then "Active Server" else "Empty Server";
      Some(Embed(
        webhook,
        "\U{1F3AE} " + status + " Found!",
        ColorForServer(server),
        server.ip + ":" + FormatDecimal(server.port),
        emoji + " Players",
        FormatDecimal(server.playersOnline) + "/" + FormatDecimal(server.playersMax),
        match server.country case Some(c) => c case None => "Unknown",
        server.version,
        DescriptionField(server.description)))
  }

  /**
   * The embed's address and players fields read back to the server's port and player counts,
   * as `extract_server_info` reads them from a `[FOUND]` line.
   */
  lemma EmbedFieldsReadBack(config: DiscordConfig, server: MinecraftServer)
    requires ':' !in server.ip && NotifyServerFound(config, server).Some?
    ensures var e := NotifyServerFound(config, server).value;
      Split(e.address, ":") == [server.ip, FormatDecimal(server.port)]
      && ParseUnsigned(Split(e.address, ":")[1], U16_MAX) == Some(server.port)
    ensures var e := NotifyServerFound(config, server).value;
      Split(e.players, "/") == [FormatDecimal(server.playersOnline), FormatDecimal(server.playersMax)]
      && ParseUnsigned(Split(e.players, "/")[0], U32_MAX) == Some(server.playersOnline)
      && ParseUnsigned(Split(e.players, "/")[1], U32_MAX) == Some(server.playersMax)
  {
    AddressReadsBack(server.ip, server.port);
    PlayersReadBack(server.playersOnline, server.playersMax);
  }

  /** `"ip:port"` splits on `':'` into the address and a port text that parses back. */
  lemma AddressReadsBack(ip: string, port: U16)
    requires ':' !in ip
    ensures Split(ip + ":" + FormatDecimal(port), ":") == [ip, FormatDecimal(port)]
    ensures ParseUnsigned(FormatDecimal(port), U16_MAX) == Some(port)
  {
    DigitsFree(FormatDecimal(port));
    SplitFirstChar(ip, ':', FormatDecimal(port));
    SplitNoChar(FormatDecimal(port), ':');
    ParseFormatDecimal(port, U16_MAX);
  }

  /** `"online/max"` splits on `'/'` into two texts that parse back to the counts. */
  lemma PlayersReadBack(online: U32, max: U32)
    ensures Split(FormatDecimal(online) + "/" + FormatDecimal(max), "/") == [FormatDecimal(online), FormatDecimal(max)]
    ensures ParseUnsigned(FormatDecimal(online), U32_MAX) == Some(online)
    ensures ParseUnsigned(FormatDecimal(max), U32_MAX) == Some(max)
  {
    DigitsFree(FormatDecimal(online));
    DigitsFree(FormatDecimal(max));
    SplitFirstChar(FormatDecimal(online), '/', FormatDecimal(max));
    SplitNoChar(FormatDecimal(max), '/');
    ParseFormatDecimal(online, U32_MAX);
    ParseFormatDecimal(max, U32_MAX);
  }

  /**
   * What the task spawned for a `Found` message does: parse the line, attach the country the
   * lookup answered, and build the notification. `None` when nothing would be posted.
   */
  function Dispatch(config: DiscordConfig, msg: string, country: Option<string>): (r: Option<Embed>)
    ensures ExtractServerInfo(msg).None? ==> r.None?
    ensures ExtractServerInfo(msg).Some? ==>
      r == NotifyServerFound(config, ExtractServerInfo(msg).value.(country := country))
  {
    var found := ExtractServerInfoWithCountry(msg, country);
    if found.None? then None else NotifyServerFound(config, found.value)
  }
}
