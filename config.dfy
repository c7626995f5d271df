/**
 * The configuration records read from the TOML file, and the three values
 * derived from them: the listener's and the SIEM's `host:port` addresses and
 * the slow-scan window in seconds.
 */
module Config {
  import opened Prelude
  import opened Text

  datatype ListenerConfig = ListenerConfig(bindAddress: string, port: u16, parser: string)

  /** Thresholds (`usize` counts of distinct ports) and time settings. */
  datatype DetectionConfig = DetectionConfig(
    fastScanPorts: u64,
    fastScanWindowSecs: u64,
    slowScanPorts: u64,
    slowScanWindowMins: u64,
    cleanupIntervalSecs: u64,
    alertCooldownSecs: u64)

  datatype SiemConfig = SiemConfig(address: string, port: u16)

  datatype EmailConfig = EmailConfig(
    smtpServer: string,
    smtpPort: u16,
    username: string,
    password: string,
    from: string,
    to: string,
    enabled: bool)

  datatype Config = Config(listener: ListenerConfig, detection: DetectionConfig, siem: SiemConfig, email: EmailConfig)

  /** The slow-scan window must be representable in seconds as a `u64`: the product overflows otherwise. */
  predicate SlowWindowFits(d: DetectionConfig) {
    d.slowScanWindowMins * 60 <= U64Max
  }

  /**
   * `slow_scan_window_secs`: the window in seconds, a whole number of minutes.
   * The detector converts the same way.
   */
  function SlowScanWindowSecs(d: DetectionConfig): (secs: u64)
    requires SlowWindowFits(d)
    ensures secs % 60 == 0 && secs / 60 == d.slowScanWindowMins
  {
    d.slowScanWindowMins * 60
  }

  /** `format!("{}:{}", host, port)`. */
  function HostPort(host: string, port: u16): string {
    host + ":" + Decimal(port)
  }

  /** `listener_addr`. */
  function ListenerAddr(c: Config): string {
    HostPort(c.listener.bindAddress, c.listener.port)
  }

  /** `siem_addr`. */
  function SiemAddr(c: Config): string {
    HostPort(c.siem.address, c.siem.port)
  }

  /**
   * How a `host:port` string is read back when a socket is bound or sent to:
   * split at the last `:` and parse what follows as a `u16`.
   */
  function SplitHostPort(s: string): Option<(string, u16)>
  {
    match RFindChar(s, ':')
    case None => None
    case Some(k) =>
      var port := ParseUnsigned(s[k + 1..], U16Max);
      if port.None? then None else Some((s[..k], port.value as u16))
  }

  /** Every address the program formats reads back as the host and port it was made from. */
  lemma {:induction false} HostPortRoundTrip(host: string, port: u16)
    ensures SplitHostPort(HostPort(host, port)) == Some((host, port))
  {
    var d := Decimal(port);
    var s := host + ":" + d;
    assert ':' !in d by {
      assert AllIn(d, Digit);
    }
    RFindCharJoint(host, d, ':');
    assert s[..|host|] == host && s[|host| + 1..] == d;
    ParseDecimal(port, U16Max);
  }

  lemma {:induction false} ListenerAddrRoundTrip(c: Config)
    ensures SplitHostPort(ListenerAddr(c)) == Some((c.listener.bindAddress, c.listener.port))
  {
    HostPortRoundTrip(c.listener.bindAddress, c.listener.port);
  }

  lemma {:induction false} SiemAddrRoundTrip(c: Config)
    ensures SplitHostPort(SiemAddr(c)) == Some((c.siem.address, c.siem.port))
  {
    HostPortRoundTrip(c.siem.address, c.siem.port);
  }
}
