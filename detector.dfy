/**
 * Fast- and slow-scan detection: the distinct ports a source probed inside
 * two windows, each compared with its own threshold.
 */
module Detector {
  import opened Prelude
  import opened Ipv4
  import opened Config
  import opened State

  datatype DetectionResult =
    | Clean
    | FastScan(ports: nat, windowSecs: u64)
    | SlowScan(ports: nat, windowMins: u64)
    | BothScans(fastPorts: nat, slowPorts: nat)
  {
    /** `is_threat`. */
    predicate IsThreat() {
      !Clean?
    }

    /** `scan_type_label`: "CLEAN" exactly for a clean result. */
    function ScanTypeLabel(): (l: string)
      ensures l == "CLEAN" <==> Clean?
    {
      match this
      case Clean => "CLEAN"
      case FastScan(_, _) => "FAST_SCAN"
      case SlowScan(_, _) => "SLOW_SCAN"
      case BothScans(_, _) => "FAST+SLOW_SCAN"
    }
  }

  /**
   * The decision of `evaluate` once both counts are known. Thresholds are
   * strict; a fast-only result carries the fast window in seconds, a
   * slow-only one the slow window in minutes, and a double one both counts.
   */
  function Classify(fastPorts: nat, slowPorts: nat, d: DetectionConfig): (r: DetectionResult)
    ensures r.IsThreat() <==> fastPorts > d.fastScanPorts || slowPorts > d.slowScanPorts
    ensures r.FastScan? <==> fastPorts > d.fastScanPorts && slowPorts <= d.slowScanPorts
    ensures r.SlowScan? <==> fastPorts <= d.fastScanPorts && slowPorts > d.slowScanPorts
    ensures r.FastScan? ==> r.ports == fastPorts && r.windowSecs == d.fastScanWindowSecs
    ensures r.SlowScan? ==> r.ports == slowPorts && r.windowMins == d.slowScanWindowMins
    ensures r.BothScans? ==> r.fastPorts == fastPorts && r.slowPorts == slowPorts
  {
    var isFast := fastPorts > d.fastScanPorts;
    var isSlow := slowPorts > d.slowScanPorts;
    if !isFast && !isSlow then Clean
    else if isFast && !isSlow then FastScan(fastPorts, d.fastScanWindowSecs)
    else if !isFast && isSlow then SlowScan(slowPorts, d.slowScanWindowMins)
    else BothScans(fastPorts, slowPorts)
  }

  /**
   * `evaluate`: counts the distinct ports of `ip` over the fast window and
   * over the slow window (its minutes in seconds) and classifies them. It
   * reads the store's histories and changes nothing.
   */
  function Evaluate(ip: IpAddr, scanMap: ScanMap, d: DetectionConfig, now: Instant): (r: DetectionResult)
    requires SlowWindowFits(d)
    ensures r.IsThreat() <==>
      UniquePorts(scanMap, ip, d.fastScanWindowSecs, now) > d.fastScanPorts
      || UniquePorts(scanMap, ip, SlowScanWindowSecs(d), now) > d.slowScanPorts
  {
    var fastPorts := UniquePorts(scanMap, ip, d.fastScanWindowSecs, now);
    var slowPorts := UniquePorts(scanMap, ip, SlowScanWindowSecs(d), now);
    Classify(fastPorts, slowPorts, d)
  }

  /** Counts equal to the thresholds are not a detection. */
  lemma {:induction false} ThresholdsStrict(d: DetectionConfig)
    ensures Classify(d.fastScanPorts, d.slowScanPorts, d) == Clean
  {
  }

  /** More ports never turn a detection back into `Clean`. */
  lemma {:induction false} ClassifyMonotone(f1: nat, s1: nat, f2: nat, s2: nat, d: DetectionConfig)
    requires f1 <= f2 && s1 <= s2
    ensures Classify(f1, s1, d).IsThreat() ==> Classify(f2, s2, d).IsThreat()
  {
  }

  /** The four labels tell the four kinds apart, and only `Clean` is labelled "CLEAN". */
  lemma {:induction false} LabelsDistinct(r1: DetectionResult, r2: DetectionResult)
    ensures r1.ScanTypeLabel() == r2.ScanTypeLabel() <==>
      (r1.Clean? && r2.Clean?) || (r1.FastScan? && r2.FastScan?)
      || (r1.SlowScan? && r2.SlowScan?) || (r1.BothScans? && r2.BothScans?)
    ensures r1.IsThreat() <==> r1.ScanTypeLabel() != "CLEAN"
  {
  }

  /**
   * Once the slow window is at least as long as the fast one, a source that
   * crosses the fast threshold has crossed it inside the slow window too.
   */
  lemma {:induction false} SlowWindowCoversFast(ip: IpAddr, scanMap: ScanMap, d: DetectionConfig, now: Instant)
    requires SlowWindowFits(d) && d.fastScanWindowSecs <= SlowScanWindowSecs(d)
    ensures UniquePorts(scanMap, ip, d.fastScanWindowSecs, now) <= UniquePorts(scanMap, ip, SlowScanWindowSecs(d), now)
  {
    UniquePortsMonotone(scanMap, ip, d.fastScanWindowSecs, SlowScanWindowSecs(d), now);
  }
}
