/**
 * Alerts: the CEF message that reports a detection to the SIEM, the email
 * that repeats it, and which of the two deliveries are attempted. The
 * formatted wall-clock timestamps are passed in.
 */
module Alert {
  import opened Prelude
  import opened Text
  import opened Ipv4
  import opened Detector
  import Config
  import Cef

  const Hostname: string := "rust-ids"
  const Vendor: string := "RustIDS"
  const Product: string := "NetworkScanner"
  const ProductVersion: string := "0.1.0"

  function SignatureId(r: DetectionResult): string
    requires r.IsThreat()
  {
    match r
    case FastScan(_, _) => "IDS001"
    case SlowScan(_, _) => "IDS002"
    case BothScans(_, _) => "IDS003"
  }

  /** The event name: `Fast`, `Slow` or `Combined Fast+Slow`, then ` Port Scan Detected`. */
  function Title(r: DetectionResult): string
    requires r.IsThreat()
  {
    var kind := match r
      case FastScan(_, _) => "Fast"
      case SlowScan(_, _) => "Slow"
      case BothScans(_, _) => "Combined Fast+Slow";
    kind + " Port Scan Detected"
  }

  function Severity(r: DetectionResult): u8
    requires r.IsThreat()
  {
    match r
    case FastScan(_, _) => 8
    case SlowScan(_, _) => 6
    case BothScans(_, _) => 9
  }

  /** The custom-string pairs after the source address: the scan type and the two numbers it carries. */
  function Labels(r: DetectionResult): string
    requires r.IsThreat()
  {
    match r
    case FastScan(ports, secs) => Pairs("FastScan", "UniquePorts", ports, "WindowSecs", secs)
    case SlowScan(ports, mins) => Pairs("SlowScan", "UniquePorts", ports, "WindowMins", mins)
    case BothScans(fastPorts, slowPorts) => Pairs("FastAndSlowScan", "FastPorts", fastPorts, "SlowPorts", slowPorts)
  }

  /** ` cs1Label=ScanType cs1=<kind> cs2Label=<label2> cs2=<v2> cs3Label=<label3> cs3=<v3>`. */
  function Pairs(kind: string, label2: string, v2: nat, label3: string, v3: nat): string {
    " cs1Label=ScanType cs1=" + kind + " cs2Label=" + label2 + " cs2=" + Decimal(v2)
    + " cs3Label=" + label3 + " cs3=" + Decimal(v3)
  }

  /** The six header fields after the version. */
  function Fields(r: DetectionResult): seq<string>
    requires r.IsThreat()
  {
    [Vendor, Product, ProductVersion, SignatureId(r), Title(r), Decimal(Severity(r))]
  }

  /** The CEF record of an alert: version 0, the header fields, then `src=<ip>` and the labels. */
  function AlertRecord(ip: IpAddr, r: DetectionResult): string
    requires r.IsThreat()
  {
    Cef.Record(0, Fields(r), Cef.SrcKey + Format(ip) + Labels(r))
  }

  /**
   * `build_alert_message`: a syslog line `<ts> rust-ids <record>`. `Clean`
   * never reaches it. Apart from any in the timestamp, the message holds
   * exactly the seven `|` that close the CEF header.
   */
  function BuildAlertMessage(ts: string, ip: IpAddr, r: DetectionResult): (msg: string)
    requires r.IsThreat()
    ensures CountChar(msg, '|') == CountChar(ts, '|') + 7
  {
    RecordBars(ip, r);
    MessageBars(ts, AlertRecord(ip, r));
    ts + " " + Hostname + " " + AlertRecord(ip, r)
  }

  /** The record holds the seven `|` that close its header and no other. */
  lemma {:induction false} RecordBars(ip: IpAddr, r: DetectionResult)
    requires r.IsThreat()
    ensures CountChar(AlertRecord(ip, r), '|') == 7
  {
    var fields := [Cef.Prefix + Decimal(0)] + Fields(r);
    FieldsPlain(r);
    TerminatedCount(fields, '|');
    LabelsPlain(ip, r);
    var ext := Cef.SrcKey + Format(ip) + Labels(r);
    CountAbsent(ext, '|');
    CountCharAppend(Terminated(fields, '|'), ext, '|');
  }

  lemma {:induction false} MessageBars(ts: string, record: string)
    ensures CountChar(ts + " " + Hostname + " " + record, '|') == CountChar(ts, '|') + CountChar(record, '|')
  {
    var mid := " " + Hostname + " ";
    assert '|' !in mid;
    CountAbsent(mid, '|');
    CountCharAppend(ts, mid, '|');
    CountCharAppend(ts + mid, record, '|');
    assert ts + " " + Hostname + " " + record == (ts + mid) + record;
  }

  /** No header field of an alert holds `|` or `=`, nor does the version field. */
  lemma {:induction false} FieldsPlain(r: DetectionResult)
    requires r.IsThreat()
    ensures forall i :: 0 <= i < 6 ==> '|' !in Fields(r)[i] && '=' !in Fields(r)[i]
    ensures '|' !in Cef.Prefix + Decimal(0)
  {
    ConstantsPlain();
    TitlePlain(r);
    CodesPlain(r);
  }

  /** The fixed header fields hold neither `|` nor `=`. */
  lemma {:induction false} ConstantsPlain()
    ensures '|' !in Vendor && '=' !in Vendor
    ensures '|' !in Product && '=' !in Product
    ensures '|' !in ProductVersion && '=' !in ProductVersion
    ensures '|' !in Cef.Prefix + Decimal(0)
  {
    assert AllIn(Decimal(0), Digit);
  }

  /** Neither do the signature and the severity of a detection. */
  lemma {:induction false} CodesPlain(r: DetectionResult)
    requires r.IsThreat()
    ensures '|' !in SignatureId(r) && '=' !in SignatureId(r)
    ensures '|' !in Decimal(Severity(r)) && '=' !in Decimal(Severity(r))
  {
    assert AllIn(Decimal(Severity(r)), Digit);
  }

  lemma {:induction false} TitlePlain(r: DetectionResult)
    requires r.IsThreat()
    ensures '|' !in Title(r) && '=' !in Title(r)
  {
    var tail := " Port Scan Detected";
    assert '|' !in tail && '=' !in tail;
    assert '|' !in "Combined Fast+Slow" && '=' !in "Combined Fast+Slow";
  }

  lemma {:induction false} AddressNoBar(ip: IpAddr)
    ensures '|' !in Format(ip) && '=' !in Format(ip)
  {
    DottedChars(ip.Octets());
  }

  lemma {:induction false} PairsPlain(kind: string, label2: string, v2: nat, label3: string, v3: nat)
    requires '|' !in kind && '|' !in label2 && '|' !in label3
    ensures '|' !in Pairs(kind, label2, v2, label3, v3)
    ensures Pairs(kind, label2, v2, label3, v3)[0] == ' '
  {
    var a, b := Decimal(v2), Decimal(v3);
    assert AllIn(a, Digit) && AllIn(b, Digit);
    assert '|' !in " cs1Label=ScanType cs1=";
    assert '|' !in " cs2Label=" && '|' !in " cs2=";
    assert '|' !in " cs3Label=" && '|' !in " cs3=";
  }

  lemma {:induction false} LabelsPlain(ip: IpAddr, r: DetectionResult)
    requires r.IsThreat()
    ensures '|' !in Cef.SrcKey + Format(ip) + Labels(r)
    ensures Labels(r)[0] == ' '
  {
    AddressNoBar(ip);
    assert '|' !in Cef.SrcKey;
    match r
    case FastScan(ports, secs) =>
      PairsPlain("FastScan", "UniquePorts", ports, "WindowSecs", secs);
    case SlowScan(ports, mins) =>
      PairsPlain("SlowScan", "UniquePorts", ports, "WindowMins", mins);
    case BothScans(fastPorts, slowPorts) =>
      PairsPlain("FastAndSlowScan", "FastPorts", fastPorts, "SlowPorts", slowPorts);
  }

  /** The record follows the timestamp, the host name and two spaces. */
  lemma {:induction false} MessageSuffix(ts: string, ip: IpAddr, r: DetectionResult)
    requires r.IsThreat()
    ensures |ts| + |Hostname| + 2 <= |BuildAlertMessage(ts, ip, r)|
    ensures BuildAlertMessage(ts, ip, r)[|ts| + |Hostname| + 2..] == AlertRecord(ip, r)
  {
    var record := AlertRecord(ip, r);
    var msg := ts + " " + Hostname + " " + record;
    assert msg == (ts + " " + Hostname + " ") + record;
  }

  /** The header of the record, as a CEF reader parses it. */
  lemma {:induction false} RecordHeader(ip: IpAddr, r: DetectionResult)
    requires r.IsThreat()
    ensures Cef.ParseHeader(AlertRecord(ip, r))
      == Some(Cef.Header(0, Vendor, Product, ProductVersion, SignatureId(r), Title(r), Severity(r)))
  {
    FieldsPlain(r);
    var d := Decimal(Severity(r));
    assert AllIn(d, Digit);
    TrimFixed(d);
    ParseDecimal(Severity(r), U8Max);
    Cef.ParseHeaderRecord(0, Fields(r), Cef.SrcKey + Format(ip) + Labels(r));
  }

  /**
   * A CEF reader given the record after the host name recovers the header:
   * version 0, vendor, product, version, the signature of the scan kind, its
   * name and its severity.
   */
  lemma {:induction false} AlertHeader(ts: string, ip: IpAddr, r: DetectionResult)
    requires r.IsThreat()
    ensures |ts| + |Hostname| + 2 <= |BuildAlertMessage(ts, ip, r)|
    ensures Cef.ParseHeader(BuildAlertMessage(ts, ip, r)[|ts| + |Hostname| + 2..])
      == Some(Cef.Header(0, Vendor, Product, ProductVersion, SignatureId(r), Title(r), Severity(r)))
  {
    MessageSuffix(ts, ip, r);
    RecordHeader(ip, r);
  }

  /** A CEF reader finds the alerting address under `src=` and reads it back. */
  lemma {:induction false} AlertSource(ip: IpAddr, r: DetectionResult)
    requires r.IsThreat()
    ensures Cef.Capture(AlertRecord(ip, r), Cef.SrcKey, DigitOrDot) == Some(Format(ip))
    ensures Ipv4.Parse(Format(ip)) == Some(ip)
  {
    FieldsPlain(r);
    LabelsPlain(ip, r);
    Cef.HeaderFree(0, Fields(r), Cef.SrcKey);
    DottedChars(ip.Octets());
    var h := Terminated([Cef.Prefix + Decimal(0)] + Fields(r), '|');
    Cef.CaptureAfter(h, Cef.SrcKey, Format(ip), Labels(r), DigitOrDot);
    ParseIffFormat(Format(ip), ip);
  }

  /** A custom-string key: `cs<n>=`. */
  predicate IsCsKey(key: string) {
    |key| == 4 && key[0] == 'c' && key[1] == 's' && IsDigit(key[2]) && key[3] == '='
  }

  /** The record up to the labels: the header, `src=` and the address. */
  function SourcePart(ip: IpAddr, r: DetectionResult): string
    requires r.IsThreat()
  {
    Terminated([Cef.Prefix + Decimal(0)] + Fields(r), '|') + (Cef.SrcKey + Format(ip))
  }

  lemma {:induction false} RecordSplit(ip: IpAddr, r: DetectionResult)
    requires r.IsThreat()
    ensures AlertRecord(ip, r) == SourcePart(ip, r) + Labels(r)
  {
  }

  /** No custom-string key occurs in the header, the `src=` key or the address. */
  lemma {:induction false} SourcePartFree(ip: IpAddr, r: DetectionResult, key: string)
    requires r.IsThreat() && IsCsKey(key)
    ensures Free(SourcePart(ip, r), key)
  {
    var parts := [Cef.Prefix + Decimal(0)] + Fields(r);
    var h := Terminated(parts, '|');
    var a := Format(ip);
    FieldsPlain(r);
    Cef.HeaderFree(0, Fields(r), key);
    FreeByChar(Cef.SrcKey, key, key[2]);
    DottedChars(ip.Octets());
    assert 's' !in a by {
      forall i | 0 <= i < |a| ensures a[i] != 's' {
        assert InClass(a[i], DigitOrDot);
      }
    }
    FreeByChar(a, key, 's');
    FreeJoin(Cef.SrcKey, a, key);
    TerminatedEnds(parts, '|');
    FreeJoin(h, Cef.SrcKey + a, key);
  }

  /** A label pair `<name>=<caption> ` keeps text free of a key whose digit is in neither. */
  lemma {:induction false} LabelPairFree(a: string, name: string, caption: string, key: string)
    requires IsCsKey(key) && Free(a, key)
    requires name != [] && name[0] == 'c' && name[|name| - 1] == 'l' && '=' !in name
    requires key[2] !in caption
    ensures Free(a + name + ("=" + caption + " "), key)
  {
    FreeByChar(name, key, '=');
    FreeConcat(a, name, key);
    var tail := "=" + caption + " ";
    assert key[2] !in tail;
    FreeByChar(tail, key, key[2]);
    FreeJoin(a + name, tail, key);
  }

  /** Text ending in a header and source free of the key, followed by a space and text free of it, is free of it. */
  lemma {:induction false} AfterSourceFree(x: string, b: string, key: string)
    requires IsCsKey(key) && Free(x, key) && Free(b, key) && b != [] && b[0] == ' '
    ensures Free(x + b, key)
  {
    FreeConcat(x, b, key);
  }

  /** The pairs split around `cs1=`: the first label, the key, the scan type and the rest. */
  lemma {:induction false} PairsAtKind(x: string, kind: string, label2: string, v2: nat, label3: string, v3: nat)
    ensures x + Pairs(kind, label2, v2, label3, v3)
      == (x + (" cs1Label" + "=ScanType ")) + ("cs1=" + kind
         + (" cs2Label=" + label2 + " cs2=" + Decimal(v2) + " cs3Label=" + label3 + " cs3=" + Decimal(v3)))
  {
  }

  /** The pairs split around `cs2=`. */
  lemma {:induction false} PairsAtSecond(x: string, kind: string, label2: string, v2: nat, label3: string, v3: nat)
    ensures x + Pairs(kind, label2, v2, label3, v3)
      == (x + (" cs1Label=ScanType cs1=" + kind + " " + "cs2Label" + ("=" + label2 + " ")))
         + ("cs2=" + Decimal(v2) + (" cs3Label=" + label3 + " cs3=" + Decimal(v3)))
  {
  }

  /** The pairs split around `cs3=`. */
  lemma {:induction false} PairsAtThird(x: string, kind: string, label2: string, v2: nat, label3: string, v3: nat)
    ensures x + Pairs(kind, label2, v2, label3, v3)
      == (x + (" cs1Label=ScanType cs1=" + kind + " cs2Label=" + label2 + " cs2=" + (Decimal(v2) + " ")
               + "cs3Label" + ("=" + label3 + " ")))
         + ("cs3=" + Decimal(v3) + [])
  {
  }

  /** Before `cs1=` the pairs hold only ` cs1Label=ScanType `. */
  lemma {:induction false} CaptureKind(x: string, kind: string, label2: string, v2: nat, label3: string, v3: nat)
    requires Free(x, "cs1=")
    requires kind != [] && AllIn(kind, Word)
    ensures Cef.Capture(x + Pairs(kind, label2, v2, label3, v3), "cs1=", Word) == Some(kind)
  {
    var key := "cs1=";
    var a := " cs1Label";
    var b := "=ScanType ";
    FreeByChar(a, key, '=');
    FreeByChar(b, key, '1');
    FreeJoin(a, b, key);
    AfterSourceFree(x, a + b, key);
    var rest := " cs2Label=" + label2 + " cs2=" + Decimal(v2) + " cs3Label=" + label3 + " cs3=" + Decimal(v3);
    PairsAtKind(x, kind, label2, v2, label3, v3);
    Cef.CaptureAfter(x + (a + b), key, kind, rest, Word);
  }

  /** Before `cs2=` the pairs hold the scan type and the second label, neither holding `2`. */
  lemma {:induction false} CaptureSecond(x: string, kind: string, label2: string, v2: nat, label3: string, v3: nat)
    requires Free(x, "cs2=")
    requires '2' !in kind && '2' !in label2
    ensures Cef.Capture(x + Pairs(kind, label2, v2, label3, v3), "cs2=", Digit) == Some(Decimal(v2))
  {
    var key := "cs2=";
    var a := " cs1Label=ScanType cs1=" + kind + " ";
    assert '2' !in a;
    FreeByChar(a, key, '2');
    LabelPairFree(a, "cs2Label", label2, key);
    var pre := a + "cs2Label" + ("=" + label2 + " ");
    AfterSourceFree(x, pre, key);
    var d := Decimal(v2);
    var rest := " cs3Label=" + label3 + " cs3=" + Decimal(v3);
    PairsAtSecond(x, kind, label2, v2, label3, v3);
    assert AllIn(d, Digit);
    Cef.CaptureAfter(x + pre, key, d, rest, Digit);
  }

  /** Before `cs3=` the pairs hold no `3` outside the second number, which is followed by a space. */
  lemma {:induction false} CaptureThird(x: string, kind: string, label2: string, v2: nat, label3: string, v3: nat)
    requires Free(x, "cs3=")
    requires '3' !in kind && '3' !in label2 && '3' !in label3
    ensures Cef.Capture(x + Pairs(kind, label2, v2, label3, v3), "cs3=", Digit) == Some(Decimal(v3))
  {
    var key := "cs3=";
    var c := " cs1Label=ScanType cs1=" + kind + " cs2Label=" + label2 + " cs2=";
    assert '3' !in c;
    FreeByChar(c, key, '3');
    var d := Decimal(v2) + " ";
    assert AllIn(Decimal(v2), Digit);
    assert '=' !in d;
    FreeByChar(d, key, '=');
    FreeJoin(c, d, key);
    LabelPairFree(c + d, "cs3Label", label3, key);
    var pre := c + d + "cs3Label" + ("=" + label3 + " ");
    AfterSourceFree(x, pre, key);
    var e := Decimal(v3);
    PairsAtThird(x, kind, label2, v2, label3, v3);
    assert AllIn(e, Digit);
    Cef.CaptureAfter(x + pre, key, e, [], Digit);
  }

  /** A CEF reader finds the scan kind under `cs1=`. */
  lemma {:induction false} AlertKind(ip: IpAddr, r: DetectionResult)
    requires r.IsThreat()
    ensures Cef.Capture(AlertRecord(ip, r), "cs1=", Word)
      == Some(match r case FastScan(_, _) => "FastScan" case SlowScan(_, _) => "SlowScan" case BothScans(_, _) => "FastAndSlowScan")
  {
    var x := SourcePart(ip, r);
    RecordSplit(ip, r);
    SourcePartFree(ip, r, "cs1=");
    match r
    case FastScan(ports, secs) =>
      assert AllIn("FastScan", Word);
      CaptureKind(x, "FastScan", "UniquePorts", ports, "WindowSecs", secs);
    case SlowScan(ports, mins) =>
      assert AllIn("SlowScan", Word);
      CaptureKind(x, "SlowScan", "UniquePorts", ports, "WindowMins", mins);
    case BothScans(fastPorts, slowPorts) =>
      assert AllIn("FastAndSlowScan", Word);
      CaptureKind(x, "FastAndSlowScan", "FastPorts", fastPorts, "SlowPorts", slowPorts);
  }

  /** A CEF reader finds under `cs2=` the unique ports of a fast or slow scan, or the fast port count of both. */
  lemma {:induction false} AlertSecond(ip: IpAddr, r: DetectionResult)
    requires r.IsThreat()
    ensures Cef.Capture(AlertRecord(ip, r), "cs2=", Digit)
      == Some(Decimal(match r case FastScan(p, _) => p case SlowScan(p, _) => p case BothScans(f, _) => f))
  {
    var x := SourcePart(ip, r);
    RecordSplit(ip, r);
    SourcePartFree(ip, r, "cs2=");
    match r
    case FastScan(ports, secs) =>
      CaptureSecond(x, "FastScan", "UniquePorts", ports, "WindowSecs", secs);
    case SlowScan(ports, mins) =>
      CaptureSecond(x, "SlowScan", "UniquePorts", ports, "WindowMins", mins);
    case BothScans(fastPorts, slowPorts) =>
      CaptureSecond(x, "FastAndSlowScan", "FastPorts", fastPorts, "SlowPorts", slowPorts);
  }

  /** A CEF reader finds under `cs3=` the window of a fast or slow scan, or the slow port count of both. */
  lemma {:induction false} AlertThird(ip: IpAddr, r: DetectionResult)
    requires r.IsThreat()
    ensures Cef.Capture(AlertRecord(ip, r), "cs3=", Digit)
      == Some(Decimal(match r case FastScan(_, w) => w as nat case SlowScan(_, w) => w as nat case BothScans(_, s) => s))
  {
    var x := SourcePart(ip, r);
    RecordSplit(ip, r);
    SourcePartFree(ip, r, "cs3=");
    match r
    case FastScan(ports, secs) =>
      CaptureThird(x, "FastScan", "UniquePorts", ports, "WindowSecs", secs);
    case SlowScan(ports, mins) =>
      CaptureThird(x, "SlowScan", "UniquePorts", ports, "WindowMins", mins);
    case BothScans(fastPorts, slowPorts) =>
      CaptureThird(x, "FastAndSlowScan", "FastPorts", fastPorts, "SlowPorts", slowPorts);
  }

  /**
   * The message a CEF reader receives after the host name carries the whole
   * detection: the source under `src=`, the scan kind under `cs1=` and its two
   * numbers under `cs2=` and `cs3=`.
   */
  lemma {:induction false} AlertReadBack(ts: string, ip: IpAddr, r: DetectionResult)
    requires r.IsThreat()
    ensures |ts| + |Hostname| + 2 <= |BuildAlertMessage(ts, ip, r)|
    ensures var record := BuildAlertMessage(ts, ip, r)[|ts| + |Hostname| + 2..];
      && Cef.Capture(record, Cef.SrcKey, DigitOrDot) == Some(Format(ip))
      && Cef.Capture(record, "cs1=", Word)
        == Some(match r case FastScan(_, _) => "FastScan" case SlowScan(_, _) => "SlowScan" case BothScans(_, _) => "FastAndSlowScan")
      && Cef.Capture(record, "cs2=", Digit)
        == Some(Decimal(match r case FastScan(p, _) => p case SlowScan(p, _) => p case BothScans(f, _) => f))
      && Cef.Capture(record, "cs3=", Digit)
        == Some(Decimal(match r case FastScan(_, w) => w as nat case SlowScan(_, w) => w as nat case BothScans(_, s) => s))
  {
    MessageSuffix(ts, ip, r);
    AlertSource(ip, r);
    AlertKind(ip, r);
    AlertSecond(ip, r);
    AlertThird(ip, r);
  }

  /** The three kinds of alert carry three different signatures and severities. */
  lemma {:induction false} SignaturesDistinct(r1: DetectionResult, r2: DetectionResult)
    requires r1.IsThreat() && r2.IsThreat()
    ensures SignatureId(r1) == SignatureId(r2) <==> Severity(r1) == Severity(r2)
    ensures SignatureId(r1) == SignatureId(r2) <==> r1.ScanTypeLabel() == r2.ScanTypeLabel()
  {
  }

  // ---------------------------------------------------------------------------
  // The email
  // ---------------------------------------------------------------------------

  const SubjectHead: string := "[IDS ALERT] "
  const SubjectMiddle: string := " detectat de la "

  /** The subject line: `[IDS ALERT] <scan type label> detectat de la <ip>`. */
  function EmailSubject(ip: IpAddr, r: DetectionResult): string {
    SubjectHead + r.ScanTypeLabel() + SubjectMiddle + Format(ip)
  }

  /** Reads a subject line back into its scan type label and address. */
  function ReadSubject(s: string): Option<(string, IpAddr)> {
    if !StartsWith(s, SubjectHead) then None
    else
      var rest := s[|SubjectHead|..];
      match FindChar(rest, ' ')
      case None => None
      case Some(k) =>
        var tail := rest[k..];
        if !StartsWith(tail, SubjectMiddle) then None
        else match Ipv4.Parse(tail[|SubjectMiddle|..])
          case None => None
          case Some(ip) => Some((rest[..k], ip))
  }

  /** A subject built from a label without spaces reads back as that label and whatever address follows. */
  lemma {:induction false} ReadSubjectParts(name: string, a: string)
    requires ' ' !in name
    ensures ReadSubject(SubjectHead + name + SubjectMiddle + a)
      == match Ipv4.Parse(a) case None => None case Some(ip) => Some((name, ip))
  {
    var s := SubjectHead + name + SubjectMiddle + a;
    assert s[..|SubjectHead|] == SubjectHead;
    var rest := s[|SubjectHead|..];
    assert rest == name + [' '] + (SubjectMiddle[1..] + a);
    FindCharJoint(name, SubjectMiddle[1..] + a, ' ');
    assert rest[..|name|] == name;
    var tail := rest[|name|..];
    assert tail == SubjectMiddle + a;
    assert tail[..|SubjectMiddle|] == SubjectMiddle;
    assert tail[|SubjectMiddle|..] == a;
  }

  /** The subject names the scan type and the source, and both can be read back from it. */
  lemma {:induction false} EmailSubjectReadBack(ip: IpAddr, r: DetectionResult)
    ensures ReadSubject(EmailSubject(ip, r)) == Some((r.ScanTypeLabel(), ip))
  {
    assert ' ' !in "FAST+SLOW_SCAN";
    ReadSubjectParts(r.ScanTypeLabel(), Format(ip));
    ParseIffFormat(Format(ip), ip);
  }

  /** The body of the email: the timestamp, the source, the scan type and the CEF message. */
  function EmailBody(emailTs: string, ip: IpAddr, r: DetectionResult, msg: string): string {
    "RUST IDS ALERT\n========================\nTimestamp:  " + emailTs
    + "\nIP Surs\U{0103}:   " + Format(ip)
    + "\nTip Scan:   " + r.ScanTypeLabel()
    + "\n\nMesaj CEF:\n" + msg
    + "\n\nAc\U{021B}iune recomandat\U{0103}: Investiga\U{021B}i imediat IP-ul surs\U{0103}."
  }

  // ---------------------------------------------------------------------------
  // Dispatch
  // ---------------------------------------------------------------------------

  /** A delivery `send_alerts` attempts: one UDP datagram to the SIEM, one email over SMTP. */
  datatype Delivery =
    | SiemDatagram(to: string, payload: string)
    | Email(to: string, subject: string, body: string)

  /**
   * `send_alerts`: the SIEM datagram is always attempted, then the email when
   * email is enabled, whatever became of the datagram. Both carry the same CEF
   * message. The outcomes of the sends only choose what is logged.
   */
  function SendAlerts(c: Config.Config, ts: string, emailTs: string, ip: IpAddr, r: DetectionResult): (out: seq<Delivery>)
    requires r.IsThreat()
    ensures |out| == if c.email.enabled then 2 else 1
    ensures out[0].SiemDatagram? && out[0].to == Config.SiemAddr(c)
    ensures out[0].payload == BuildAlertMessage(ts, ip, r)
    ensures CountChar(out[0].payload, '|') == CountChar(ts, '|') + 7
    ensures c.email.enabled ==>
      (out[1].Email? && out[1].to == c.email.to && out[1].subject == EmailSubject(ip, r)
       && exists i :: StartsAt(out[1].body, i, out[0].payload))
  {
    var msg := BuildAlertMessage(ts, ip, r);
    var siem := SiemDatagram(Config.SiemAddr(c), msg);
    if c.email.enabled then
      var body := EmailBody(emailTs, ip, r, msg);
      var pre := "RUST IDS ALERT\n========================\nTimestamp:  " + emailTs
        + "\nIP Surs\U{0103}:   " + Format(ip)
        + "\nTip Scan:   " + r.ScanTypeLabel()
        + "\n\nMesaj CEF:\n";
      var post := "\n\nAc\U{021B}iune recomandat\U{0103}: Investiga\U{021B}i imediat IP-ul surs\U{0103}.";
      assert body == pre + msg + post;
      assert StartsAt(body, |pre|, msg) by {
        assert body[|pre|..|pre| + |msg|] == msg;
      }
      [siem, Email(c.email.to, EmailSubject(ip, r), body)]
    else
      [siem]
  }
}
