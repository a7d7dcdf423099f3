/** The two display formatters inside the enrichment callback
    (src/App.jsx:77-107): the idle-time string and the domain label. */
module Format {
  import opened TabTypes
  import opened Decimal

  /** Milliseconds per minute (`1000 * 60` in the source), hour and day. */
  const MsPerMinute := 60000
  const MsPerHour := 3600000
  const MsPerDay := 86400000

  /** `formatTime(timestamp)` with the clock reading `now` passed in.
      The elapsed time is broken down by floor division; the string names the
      coarsest non-zero unit. */
  function FormatTime(timestamp: Option<int>, now: int): (r: string)
    ensures IsFalsyNumber(timestamp) ==> r == "Unknown"
    ensures r != ""
  {
    if IsFalsyNumber(timestamp) then "Unknown"
    else
      var diff := now - timestamp.value;
      var minutes := diff / MsPerMinute;
      var hours := minutes / 60;
      var days := hours / 24;
      if days > 0 then NatToString(days) + "d " + NatToString(hours % 24) + "h ago"
      else if hours > 0 then NatToString(hours) + "h " + NatToString(minutes % 60) + "m ago"
      else if minutes > 0 then NatToString(minutes) + "m ago"
      else "Just now"
  }

  /** The result of FormatTime by bands of elapsed milliseconds: the number of
      whole days, hours or minutes elapsed, the remainder below the next unit, or
      "Just now" for anything under a minute, a negative elapsed time included. */
  lemma FormatTimeBands(timestamp: int, now: int)
    requires timestamp != 0
    ensures var e := now - timestamp;
            var r := FormatTime(Some(timestamp), now);
            && (e < MsPerMinute ==> r == "Just now")
            && (MsPerMinute <= e < MsPerHour ==>
                  r == NatToString(e / MsPerMinute) + "m ago")
            && (MsPerHour <= e < MsPerDay ==>
                  r == NatToString(e / MsPerHour) + "h " + NatToString(e / MsPerMinute % 60) + "m ago")
            && (MsPerDay <= e ==>
                  r == NatToString(e / MsPerDay) + "d " + NatToString(e / MsPerHour % 24) + "h ago")
  {
    var e := now - timestamp;
    FloorChain(e);
  }

  /** Floor division by minutes, then by 60, then by 24 is floor division by
      hours and by days, for negative elapsed times too. */
  lemma FloorChain(e: int)
    ensures e / MsPerMinute / 60 == e / MsPerHour
    ensures e / MsPerMinute / 60 / 24 == e / MsPerDay
  {
  }

  /** "Unknown" comes out exactly when the timestamp is falsy. */
  lemma FormatTimeUnknownIff(timestamp: Option<int>, now: int)
    ensures FormatTime(timestamp, now) == "Unknown" <==> IsFalsyNumber(timestamp)
  {
    var r := FormatTime(timestamp, now);
    if !IsFalsyNumber(timestamp) && r != "Just now" {
      assert r[|r| - 1] == 'o';
    }
  }

  /** Five minutes idle shows "5m ago"; two hours idle shows "2h 0m ago" (the
      "2h ago" of the mock record at src/App.jsx:245 is not what the formatter
      produces); no timestamp shows "Unknown". */
  lemma FormatTimeExamples(now: int)
    requires now != 300000 && now != 7200000
    ensures FormatTime(Some(now - 300000), now) == "5m ago"
    ensures FormatTime(Some(now - 7200000), now) == "2h 0m ago"
    ensures FormatTime(Some(now - 7200000), now) != "2h ago"
    ensures FormatTime(None, now) == "Unknown"
  {
    assert NatToString(5) == "5";
    assert NatToString(2) == "2";
    assert NatToString(0) == "0";
  }

  /** The internal-scheme label of a URL, checked in the source's order: there
      is one exactly when the URL starts with one of the internal prefixes. */
  function InternalLabel(url: string): (r: Option<string>)
    ensures r.None? <==> forall q :: q in InternalPrefixes ==> !(q <= url)
    ensures r.Some? ==> r.value in {"Chrome", "Extension", "Edge", "Browser", "Local File", "Data URL"}
  {
    if "chrome://" <= url then Some("Chrome")
    else if "chrome-extension://" <= url then Some("Extension")
    else if "edge://" <= url then Some("Edge")
    else if "about:" <= url then Some("Browser")
    else if "file://" <= url then Some("Local File")
    else if "data:" <= url then Some("Data URL")
    else None
  }

  /** `getDomain(url)`: falsy gives "Unknown", internal schemes get their fixed
      label before any parsing, otherwise the parsed hostname, "Unknown" for an
      empty one, "Invalid URL" when parsing throws. */
  function GetDomain(url: Option<string>, parseUrl: string -> UrlParse): (r: string)
    ensures r != ""
    ensures IsFalsyString(url) ==> r == "Unknown"
    ensures !IsFalsyString(url) && InternalLabel(url.value).Some? ==>
              r == InternalLabel(url.value).value
    ensures !IsFalsyString(url) && InternalLabel(url.value).None? ==>
              match parseUrl(url.value)
              case ParseFailure => r == "Invalid URL"
              case Hostname(h) => r == (if h == "" then "Unknown" else h)
  {
    if IsFalsyString(url) then "Unknown"
    else
      match InternalLabel(url.value)
      case Some(name) => name
      case None =>
        match parseUrl(url.value)
        case ParseFailure => "Invalid URL"
        case Hostname(h) => if h == "" then "Unknown" else h
  }

  /** The parser is never consulted for an internal-scheme URL. */
  lemma GetDomainSkipsParser(url: string, p: string -> UrlParse, q: string -> UrlParse)
    requires InternalLabel(url).Some?
    ensures GetDomain(Some(url), p) == GetDomain(Some(url), q)
    ensures GetDomain(Some(url), p) in {"Chrome", "Extension", "Edge", "Browser", "Local File", "Data URL"}
  {
  }

  /** No URL starts with two of the internal prefixes, so the order in which
      they are checked does not matter; only their priority over parsing does. */
  lemma InternalPrefixesExclusive(url: string)
    ensures forall p, q :: p in InternalPrefixes && q in InternalPrefixes && p <= url && q <= url ==> p == q
  {
    forall p, q | p in InternalPrefixes && q in InternalPrefixes && p <= url && q <= url
      ensures p == q
    {
      PrefixesAgree(p, q, url);
    }
  }

  /** The prefixes whose URLs get a fixed label instead of a parsed host. */
  const InternalPrefixes: set<string> :=
    {"chrome://", "chrome-extension://", "edge://", "about:", "file://", "data:"}

  lemma PrefixesAgree(p: string, q: string, url: string)
    requires p in InternalPrefixes && q in InternalPrefixes && p <= url && q <= url
    ensures p == q
  {
    assert p[0] == url[0] == q[0];
    if p[0] == 'c' {
      assert p[6] == url[6] == q[6];
    }
  }

  /** Each internal prefix gives its own label whatever the parser, so the
      order in which the prefixes are tested does not change any result. */
  lemma GetDomainByPrefix(url: string, parseUrl: string -> UrlParse)
    ensures "chrome://" <= url ==> GetDomain(Some(url), parseUrl) == "Chrome"
    ensures "chrome-extension://" <= url ==> GetDomain(Some(url), parseUrl) == "Extension"
    ensures "edge://" <= url ==> GetDomain(Some(url), parseUrl) == "Edge"
    ensures "about:" <= url ==> GetDomain(Some(url), parseUrl) == "Browser"
    ensures "file://" <= url ==> GetDomain(Some(url), parseUrl) == "Local File"
    ensures "data:" <= url ==> GetDomain(Some(url), parseUrl) == "Data URL"
  {
    InternalPrefixesExclusive(url);
  }

  /** With a parser that reads the host of a web URL, its hostname is the
      label; an internal page gets its fixed label; no URL is "Unknown". */
  lemma GetDomainExamples(parseUrl: string -> UrlParse)
    requires parseUrl("https://github.com/user/repo") == Hostname("github.com")
    ensures GetDomain(Some("https://github.com/user/repo"), parseUrl) == "github.com"
    ensures GetDomain(Some("chrome://settings"), parseUrl) == "Chrome"
    ensures GetDomain(Some("chrome-extension://abc/index.html"), parseUrl) == "Extension"
    ensures GetDomain(None, parseUrl) == "Unknown"
  {
    var web := "https://github.com/user/repo";
    DiffersAt("chrome://", web, 0);
    DiffersAt("chrome-extension://", web, 0);
    DiffersAt("edge://", web, 0);
    DiffersAt("about:", web, 0);
    DiffersAt("file://", web, 0);
    DiffersAt("data:", web, 0);
    assert "chrome://" <= "chrome://settings";
    DiffersAt("chrome://", "chrome-extension://abc/index.html", 6);
    assert "chrome-extension://" <= "chrome-extension://abc/index.html";
  }

  lemma DiffersAt(p: string, s: string, i: nat)
    requires i < |p| && i < |s| && p[i] != s[i]
    ensures !(p <= s)
  {
  }
}
