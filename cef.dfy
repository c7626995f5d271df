/**
 * The ArcSight Common Event Format parser. A record is
 *
 *     CEF:<version>|<vendor>|<product>|<device version>|<signature>|<name>|<severity>|<extension>
 *
 * and the parser reads the source address, destination port and action from
 * the `src=`, `dpt=` and `act=` keys of the extension. Each key is found by
 * its own unanchored pattern (`src=([\d.]+)`, `dpt=(\d+)`, `act=(\w+)`) run
 * over the whole trimmed line.
 */
module Cef {
  import opened Prelude
  import opened Text
  import Ipv4
  import opened Events

  const Prefix: string := "CEF:"
  const SrcKey: string := "src="
  const DptKey: string := "dpt="
  const ActKey: string := "act="
  const DefaultSeverity: u8 := 5

  /** The seven header fields before the extension. */
  datatype Header = Header(version: u8, vendor: string, product: string, deviceVersion: string,
                           signatureId: string, name: string, severity: u8)

  /** `CefParser::is_cef`: the line starts with `CEF:` once leading whitespace is skipped. */
  predicate IsCef(line: string) {
    StartsWith(TrimStart(line), Prefix)
  }

  /** The severity field: a `u8` once trimmed, and 5 when it is anything else. */
  function Severity(field: string): u8 {
    var v := ParseUnsigned(Trim(field), U8Max);
    if v.Some? then v.value as u8 else DefaultSeverity
  }

  /** `CefParser::parse_header`: eight `|`-separated pieces, the first a `u8` version after its `CEF:` prefixes. */
  function ParseHeader(line: string): (r: Option<Header>)
    ensures r.Some? ==> CountChar(line, '|') >= 7
  {
    var parts := SplitN(line, 8, '|');
    SplitNCount(line, 8, '|');
    if |parts| < 8 then None
    else
      var version := ParseUnsigned(TrimStartMatches(parts[0], Prefix), U8Max);
      if version.None? then None
      else Some(Header(version.value as u8, parts[1], parts[2], parts[3], parts[4], parts[5], Severity(parts[6])))
  }

  /** `<key>(<class>+)` searched leftmost in `t`: the run of class-`k` characters after the first `key` that has one. */
  function Capture(t: string, key: string, k: CharClass): (r: Option<string>)
    ensures r.Some? ==> r.value != [] && AllIn(r.value, k)
  {
    if StartsWith(t, key) && Span(t, |key|, k) > |key| then Some(t[|key|..Span(t, |key|, k)])
    else if t == [] then None
    else Capture(t[1..], key, k)
  }

  /** `CefParser::parse`. */
  function Parse(line: string): (r: Option<LogEntry>)
    ensures r.Some? ==> IsCef(Trim(line)) && ParseHeader(Trim(line)).Some?
    ensures r.Some? ==> r.value.action == "drop" || r.value.action == "deny"
  {
    var t := Trim(line);
    if !IsCef(t) || ParseHeader(t).None? then None
    else
      var src := Capture(t, SrcKey, DigitOrDot);
      var ip := if src.Some? then Ipv4.Parse(src.value) else None;
      var dpt := Capture(t, DptKey, Digit);
      var port := if dpt.Some? then ParseUnsigned(dpt.value, U16Max) else None;
      var act := Capture(t, ActKey, Word);
      var action := if act.Some? then ToLower(act.value) else "unknown";
      if ip.None? || port.None? then None
      else if action != "drop" && action != "deny" then None
      else Some(LogEntry(ip.value, port.value as u16, action))
  }

  // ---------------------------------------------------------------------------
  // The header
  // ---------------------------------------------------------------------------

  /**
   * Seven `|`-terminated fields without `|` followed by any extension: the
   * header is read from the fields, whatever the extension holds.
   */
  lemma {:induction false} ParseHeaderFields(fields: seq<string>, ext: string)
    requires |fields| == 7 && forall i :: 0 <= i < 7 ==> '|' !in fields[i]
    ensures ParseHeader(Terminated(fields, '|') + ext)
      == var v := ParseUnsigned(TrimStartMatches(fields[0], Prefix), U8Max);
         if v.None? then None
         else Some(Header(v.value as u8, fields[1], fields[2], fields[3], fields[4], fields[5], Severity(fields[6])))
  {
    SplitNTerminated(fields, ext, '|');
  }

  /** The header fields of a rendered record: version, the five text fields and the severity (5 when it does not parse). */
  lemma {:induction false} ParseHeaderRecord(version: u8, fields: seq<string>, ext: string)
    requires |fields| == 6 && forall i :: 0 <= i < 6 ==> '|' !in fields[i]
    ensures ParseHeader(Terminated([Prefix + Decimal(version)] + fields, '|') + ext)
      == Some(Header(version, fields[0], fields[1], fields[2], fields[3], fields[4], Severity(fields[5])))
  {
    var all := [Prefix + Decimal(version)] + fields;
    var d := Decimal(version);
    assert '|' !in Prefix + d by {
      assert AllIn(d, Digit);
    }
    ParseHeaderFields(all, ext);
    assert !StartsWith(d, Prefix) by {
      assert IsDigit(d[0]);
    }
    TrimStartMatchesOnce(Prefix, d);
    ParseDecimal(version, U8Max);
  }

  /** An unreadable severity never rejects a header: acceptance does not depend on the severity field. */
  lemma {:induction false} SeverityNeverRejects(fields: seq<string>, severity: string, other: string, ext: string)
    requires |fields| == 6 && forall i :: 0 <= i < 6 ==> '|' !in fields[i]
    requires '|' !in severity && '|' !in other
    ensures ParseHeader(Terminated(fields + [severity], '|') + ext).Some?
      <==> ParseHeader(Terminated(fields + [other], '|') + ext).Some?
  {
    var a, b := fields + [severity], fields + [other];
    assert forall i :: 0 <= i < 7 ==> '|' !in a[i] && '|' !in b[i] by {
      forall i | 0 <= i < 7 ensures '|' !in a[i] && '|' !in b[i] {
        if i < 6 {
          assert a[i] == fields[i] && b[i] == fields[i];
        }
      }
    }
    ParseHeaderFields(a, ext);
    ParseHeaderFields(b, ext);
    assert a[0] == b[0];
  }

  /** Fewer than seven `|` leave no room for a header. */
  lemma {:induction false} ParseHeaderShort(line: string)
    requires CountChar(line, '|') < 7
    ensures ParseHeader(line).None?
  {
  }

  // ---------------------------------------------------------------------------
  // Key captures
  // ---------------------------------------------------------------------------

  /** A key at the front followed by a run of its class captures exactly that run. */
  lemma {:induction false} CaptureFront(key: string, v: string, rest: string, k: CharClass)
    requires v != [] && AllIn(v, k)
    requires rest == [] || !InClass(rest[0], k)
    ensures Capture(key + v + rest, key, k) == Some(v)
  {
    var t := key + v + rest;
    assert StartsWith(t, key) by {
      assert t[..|key|] == key;
    }
    assert t == (key + v) + rest;
    SpanConcat(key + v, rest, |key|, k);
    assert t[|key|..|key| + |v|] == v;
  }

  /** Text before the first occurrence of an unbordered key does not change what the key captures. */
  lemma {:induction false} CaptureSkip(pre: string, t: string, key: string, k: CharClass)
    requires Free(pre, key) && Unbordered(key) && StartsWith(t, key)
    ensures Capture(pre + t, key, k) == Capture(t, key, k)
    decreases |pre|
  {
    if pre == [] {
      assert pre + t == t;
    } else {
      var s := pre + t;
      if |pre| >= |key| {
        assert s[..|key|] == pre[..|key|];
        assert !StartsAt(pre, 0, key);
      } else {
        NoStraddle(pre, t, key, 0);
      }
      assert !StartsWith(s, key);
      assert s[1..] == pre[1..] + t;
      forall i | 0 <= i < |pre| - 1 ensures !StartsAt(pre[1..], i, key) {
        assert !StartsAt(pre, i + 1, key);
        if i + |key| <= |pre| - 1 {
          assert pre[1..][i..i + |key|] == pre[i + 1..i + 1 + |key|];
        }
      }
      CaptureSkip(pre[1..], t, key, k);
    }
  }

  /** A key that occurs nowhere captures nothing. */
  lemma {:induction false} CaptureAbsent(t: string, key: string, k: CharClass)
    requires Free(t, key) && |key| > 0
    ensures Capture(t, key, k) == None
    decreases |t|
  {
    if t != [] {
      assert !StartsAt(t, 0, key);
      forall i | 0 <= i < |t| - 1 ensures !StartsAt(t[1..], i, key) {
        assert !StartsAt(t, i + 1, key);
        if i + |key| <= |t| - 1 {
          assert t[1..][i..i + |key|] == t[i + 1..i + 1 + |key|];
        }
      }
      CaptureAbsent(t[1..], key, k);
    }
  }

  // ---------------------------------------------------------------------------
  // Properties of the parser
  // ---------------------------------------------------------------------------

  /** The parser trims its input itself, so trimming beforehand changes nothing. */
  lemma {:induction false} ParseTrim(line: string)
    ensures Parse(Trim(line)) == Parse(line)
  {
    TrimIdempotent(line);
  }

  /** A captured `dpt=` value that does not fit in 16 bits rejects the line. */
  lemma {:induction false} ParsePortOutOfRange(line: string)
    requires Capture(Trim(line), DptKey, Digit).Some? && DigitsValue(Capture(Trim(line), DptKey, Digit).value) > U16Max
    ensures Parse(line) == None
  {
  }

  /** A record without a `src=` key is rejected. */
  lemma {:induction false} ParseWithoutSource(line: string)
    requires Free(Trim(line), SrcKey)
    ensures Parse(line) == None
  {
    CaptureAbsent(Trim(line), SrcKey, DigitOrDot);
  }

  /** A record without a `dpt=` key is rejected. */
  lemma {:induction false} ParseWithoutPort(line: string)
    requires Free(Trim(line), DptKey)
    ensures Parse(line) == None
  {
    CaptureAbsent(Trim(line), DptKey, Digit);
  }

  /** A `src=` value that is not an IPv4 address rejects the line. */
  lemma {:induction false} ParseBadSource(line: string)
    requires Capture(Trim(line), SrcKey, DigitOrDot).Some?
    requires Ipv4.Parse(Capture(Trim(line), SrcKey, DigitOrDot).value).None?
    ensures Parse(line) == None
  {
  }

  /** A record without an `act=` key counts as action "unknown" and is dropped. */
  lemma {:induction false} ParseWithoutAction(line: string)
    requires Free(Trim(line), ActKey)
    ensures Parse(line) == None
  {
    CaptureAbsent(Trim(line), ActKey, Word);
  }

  /**
   * A record with a syslog prefix in front of it is rejected: the record must
   * come first. The prefix may be anything that starts neither with
   * whitespace (which the trim would remove) nor with `CEF:` itself.
   */
  lemma {:induction false} PrefixedRecordRejected(pre: string, record: string)
    requires pre != [] && !IsWhitespace(pre[0]) && !StartsWith(pre, Prefix)
    requires StartsWith(record, Prefix)
    ensures Parse(pre + record) == None
  {
    var line := pre + record;
    assert !StartsWith(line, Prefix) by {
      if |pre| >= |Prefix| {
        assert line[..|Prefix|] == pre[..|Prefix|];
      } else {
        assert Unbordered(Prefix);
        NoStraddle(pre, record, Prefix, 0);
      }
    }
    assert TrimStart(line) == line;
    var t := Trim(line);
    assert t == line[..|t|];
    assert |t| < |Prefix| || t[..|Prefix|] == line[..|Prefix|];
    assert !IsCef(t) by {
      assert TrimStart(t) == t;
    }
  }

  // ---------------------------------------------------------------------------
  // A rendered record round-trips
  // ---------------------------------------------------------------------------

  /** The extension `src=<ip><gap>dpt=<port> act=<action><more>`. */
  function Extension(ip: Ipv4.IpAddr, gap: string, port: u16, action: string, more: string): string {
    SrcKey + Ipv4.Format(ip) + gap + DptKey + Decimal(port) + " " + ActKey + action + more
  }

  /** A record: the version, six header fields and the extension. */
  function Record(version: u8, fields: seq<string>, ext: string): string {
    Terminated([Prefix + Decimal(version)] + fields, '|') + ext
  }

  lemma {:induction false} ExtensionShape(h: string, s: string, a: string, g: string, p: string, d: string, k: string, w: string, m: string)
    ensures h + (s + a + g + p + d + " " + k + w + m) == h + (s + a + (g + p + d + " " + k + w + m))
    ensures h + (s + a + g + p + d + " " + k + w + m) == (h + (s + a + g)) + (p + d + (" " + k + w + m))
    ensures h + (s + a + g + p + d + " " + k + w + m) == (h + (s + a + g + p + d + " ")) + (k + w + m)
  {
  }

  /** The header of a record holds no `=`, so no key occurs in it. */
  lemma {:induction false} HeaderFree(version: u8, fields: seq<string>, key: string)
    requires forall i :: 0 <= i < |fields| ==> '=' !in fields[i]
    requires '=' in key
    ensures Free(Terminated([Prefix + Decimal(version)] + fields, '|'), key)
  {
    var x := Prefix + Decimal(version);
    var d := Decimal(version);
    assert '=' !in x by {
      assert AllIn(d, Digit);
    }
    TerminatedLacks(fields, '|', '=');
    assert ([x] + fields)[1..] == fields;
    var h := Terminated([x] + fields, '|');
    assert h == x + ['|'] + Terminated(fields, '|');
    FreeByChar(h, key, '=');
  }

  /** A key preceded by text free of it captures the run that follows it. */
  lemma {:induction false} CaptureAfter(pre: string, key: string, v: string, rest: string, k: CharClass)
    requires Free(pre, key) && Unbordered(key)
    requires v != [] && AllIn(v, k)
    requires rest == [] || !InClass(rest[0], k)
    ensures Capture(pre + (key + v + rest), key, k) == Some(v)
  {
    assert StartsWith(key + v + rest, key) by {
      assert (key + v + rest)[..|key|] == key;
    }
    CaptureSkip(pre, key + v + rest, key, k);
    CaptureFront(key, v, rest, k);
  }

  lemma {:induction false} RecordSrc(h: string, ip: Ipv4.IpAddr, gap: string, port: u16, action: string, more: string)
    requires Free(h, SrcKey) && gap != [] && gap[0] == ' '
    ensures Capture(h + Extension(ip, gap, port, action, more), SrcKey, DigitOrDot) == Some(Ipv4.Format(ip))
  {
    var a, d := Ipv4.Format(ip), Decimal(port);
    ExtensionShape(h, SrcKey, a, gap, DptKey, d, ActKey, action, more);
    Ipv4.DottedChars(ip.Octets());
    CaptureAfter(h, SrcKey, a, gap + DptKey + d + " " + ActKey + action + more, DigitOrDot);
  }

  lemma {:induction false} RecordDpt(h: string, ip: Ipv4.IpAddr, gap: string, port: u16, action: string, more: string)
    requires Free(h, DptKey) && gap != [] && gap[0] == ' ' && Free(gap, DptKey)
    ensures Capture(h + Extension(ip, gap, port, action, more), DptKey, Digit) == Some(Decimal(port))
  {
    var a, d := Ipv4.Format(ip), Decimal(port);
    ExtensionShape(h, SrcKey, a, gap, DptKey, d, ActKey, action, more);
    Ipv4.DottedChars(ip.Octets());
    var x1 := SrcKey + a;
    assert 'p' !in x1 by {
      assert forall m :: 0 <= m < |a| ==> x1[|SrcKey| + m] == a[m];
    }
    FreeByChar(x1, DptKey, 'p');
    FreeConcat(x1, gap, DptKey);
    FreeConcat(h, x1 + gap, DptKey);
    assert x1 + gap == SrcKey + a + gap;
    CaptureAfter(h + (SrcKey + a + gap), DptKey, d, " " + ActKey + action + more, Digit);
  }

  lemma {:induction false} RecordAct(h: string, ip: Ipv4.IpAddr, gap: string, port: u16, action: string, more: string)
    requires Free(h, ActKey) && gap != [] && gap[0] == ' ' && Free(gap, ActKey)
    requires action != [] && AllIn(action, Word) && (more == [] || more[0] == ' ')
    ensures Capture(h + Extension(ip, gap, port, action, more), ActKey, Word) == Some(action)
  {
    var a, d := Ipv4.Format(ip), Decimal(port);
    ExtensionShape(h, SrcKey, a, gap, DptKey, d, ActKey, action, more);
    Ipv4.DottedChars(ip.Octets());
    var x1 := SrcKey + a;
    assert 'a' !in x1 by {
      assert forall m :: 0 <= m < |a| ==> x1[|SrcKey| + m] == a[m];
    }
    FreeByChar(x1, ActKey, 'a');
    FreeConcat(x1, gap, ActKey);
    var y := DptKey + d + " ";
    assert 'a' !in y by {
      assert forall m :: 0 <= m < |d| ==> y[|DptKey| + m] == d[m];
    }
    FreeByChar(y, ActKey, 'a');
    FreeConcat(x1 + gap, y, ActKey);
    var x2 := SrcKey + a + gap + DptKey + d + " ";
    assert x2 == x1 + gap + y;
    FreeConcat(h, x2, ActKey);
    CaptureAfter(h + x2, ActKey, action, more, Word);
  }

  /** A rendered record carries no surrounding whitespace. */
  lemma {:induction false} RecordTrimmed(version: u8, fields: seq<string>, ip: Ipv4.IpAddr, gap: string, port: u16, action: string, more: string)
    requires action != [] && AllIn(action, Word)
    requires more == [] || !IsWhitespace(more[|more| - 1])
    ensures var line := Record(version, fields, Extension(ip, gap, port, action, more));
      Trim(line) == line && StartsWith(line, Prefix)
  {
    var ext := Extension(ip, gap, port, action, more);
    var line := Record(version, fields, ext);
    RecordStart(version, fields, ext);
    ExtensionLast(ip, gap, port, action, more);
    assert line[|line| - 1] == ext[|ext| - 1];
    TrimFixed(line);
  }

  /** A record starts with `CEF:`. */
  lemma {:induction false} RecordStart(version: u8, fields: seq<string>, ext: string)
    ensures StartsWith(Record(version, fields, ext), Prefix)
  {
    var x := Prefix + Decimal(version);
    assert ([x] + fields)[0] == x;
    var line := Record(version, fields, ext);
    assert line[..|Prefix|] == Prefix;
  }

  /** An extension ends with the last character of the action, or of what follows it. */
  lemma {:induction false} ExtensionLast(ip: Ipv4.IpAddr, gap: string, port: u16, action: string, more: string)
    requires action != []
    ensures var ext := Extension(ip, gap, port, action, more);
      ext != [] && ext[|ext| - 1] == if more == [] then action[|action| - 1] else more[|more| - 1]
  {
  }

  /**
   * A rendered record is accepted exactly when its action lower-cases to
   * "drop" or "deny", and then yields the address, port and action it names.
   * The header fields hold no `|` or `=`, and the text between the address
   * and `dpt=` mentions neither `dpt=` nor `act=`.
   */
  lemma {:induction false} ParseRecord(version: u8, fields: seq<string>, ip: Ipv4.IpAddr, gap: string, port: u16, action: string, more: string)
    requires |fields| == 6 && forall i :: 0 <= i < 6 ==> '|' !in fields[i] && '=' !in fields[i]
    requires gap != [] && gap[0] == ' ' && Free(gap, DptKey) && Free(gap, ActKey)
    requires action != [] && AllIn(action, Word)
    requires more == [] || (more[0] == ' ' && !IsWhitespace(more[|more| - 1]))
    ensures Parse(Record(version, fields, Extension(ip, gap, port, action, more)))
      == if ToLower(action) == "drop" || ToLower(action) == "deny"
         then Some(LogEntry(ip, port, ToLower(action))) else None
  {
    var ext := Extension(ip, gap, port, action, more);
    var line := Record(version, fields, ext);
    var h := Terminated([Prefix + Decimal(version)] + fields, '|');
    RecordTrimmed(version, fields, ip, gap, port, action, more);
    assert IsCef(line) by {
      assert TrimStart(line) == line;
    }
    ParseHeaderRecord(version, fields, ext);
    HeaderFree(version, fields, SrcKey);
    HeaderFree(version, fields, DptKey);
    HeaderFree(version, fields, ActKey);
    RecordSrc(h, ip, gap, port, action, more);
    RecordDpt(h, ip, gap, port, action, more);
    RecordAct(h, ip, gap, port, action, more);
    Ipv4.ParseIffFormat(Ipv4.Format(ip), ip);
    ParseDecimal(port, U16Max);
  }

  // ---------------------------------------------------------------------------
  // Records behind a syslog prefix
  // ---------------------------------------------------------------------------

  /**
   * The parser the syslog feed calls for: the record starts at the first
   * `CEF:` of the trimmed line, after whatever prefix the collector added.
   */
  function ParseSyslog(line: string): (r: Option<LogEntry>)
    ensures r.Some? ==> r.value.action == "drop" || r.value.action == "deny"
  {
    var t := Trim(line);
    var start := FindFrom(t, Prefix, 0);
    if start.None? then None else Parse(t[start.value..])
  }

  /** On a line that already starts with the record, the syslog-tolerant parser agrees with `Parse`. */
  lemma {:induction false} ParseSyslogAgrees(line: string)
    requires StartsWith(Trim(line), Prefix)
    ensures ParseSyslog(line) == Parse(line)
  {
    var t := Trim(line);
    assert t[0..] == t;
    ParseTrim(line);
  }

  /** The syslog-tolerant parser trims first, so trimming beforehand changes nothing. */
  lemma {:induction false} ParseSyslogTrim(line: string)
    ensures ParseSyslog(Trim(line)) == ParseSyslog(line)
  {
    TrimIdempotent(line);
  }

  /** An empty or all-whitespace line holds no record. */
  lemma {:induction false} ParseSyslogBlank(line: string)
    requires Trim(line) == []
    ensures ParseSyslog(line) == None
  {
    assert !StartsAt(Trim(line), 0, Prefix);
  }

  /** Behind a prefix free of `CEF:`, the first `CEF:` is the record's own. */
  lemma {:induction false} FirstPrefixAfter(pre: string, record: string)
    requires Free(pre, Prefix) && StartsWith(record, Prefix)
    ensures FindFrom(pre + record, Prefix, 0) == Some(|pre|)
  {
    var line := pre + record;
    assert StartsAt(line, |pre|, Prefix) by {
      assert line[|pre|..|pre| + |Prefix|] == record[..|Prefix|];
    }
    forall k | 0 <= k < |pre| ensures !StartsAt(line, k, Prefix) {
      if k + |Prefix| <= |pre| {
        assert line[k..k + |Prefix|] == pre[k..k + |Prefix|];
        assert !StartsAt(pre, k, Prefix);
      } else {
        NoStraddle(pre, record, Prefix, k);
      }
    }
  }

  /** Behind a prefix free of `CEF:`, the syslog-tolerant parser reads the record as `Parse` reads it alone. */
  lemma {:induction false} ParseSyslogPrefixed(pre: string, record: string)
    requires Free(pre, Prefix) && (pre == [] || !IsWhitespace(pre[0]))
    requires StartsWith(record, Prefix) && !IsWhitespace(record[|record| - 1])
    ensures ParseSyslog(pre + record) == Parse(record)
  {
    var line := pre + record;
    assert line[0] == (if pre == [] then 'C' else pre[0]);
    assert line[|line| - 1] == record[|record| - 1];
    TrimFixed(line);
    FirstPrefixAfter(pre, record);
    assert line[|pre|..] == record;
  }

  /** The example feed's line: a syslog prefix, then the record `CEF:0|Vendor|Prod|1.0|sig|Name|5|src=10.0.0.5 dpt=80 act=Drop`. */
  const ExamplePrefix: string := "Nov 20 15:30:00 fw "
  const ExampleFields: seq<string> := ["Vendor", "Prod", "1.0", "sig", "Name", "5"]
  const ExampleIp: Ipv4.IpAddr := Ipv4.IpAddr(10, 0, 0, 5)

  function ExampleRecord(): string {
    Record(0, ExampleFields, Extension(ExampleIp, " ", 80, "Drop", ""))
  }

  lemma {:induction false} ExampleLower()
    ensures ToLower("Drop") == "drop"
  {
    var l := ToLower("Drop");
    assert |l| == 4;
    assert l[0] == 'd' && l[1] == 'r' && l[2] == 'o' && l[3] == 'p';
  }

  lemma {:induction false} ExampleFieldsPlain()
    ensures forall i :: 0 <= i < 6 ==> '|' !in ExampleFields[i] && '=' !in ExampleFields[i]
  {
    assert ExampleFields[0] == "Vendor" && ExampleFields[1] == "Prod" && ExampleFields[2] == "1.0";
    assert ExampleFields[3] == "sig" && ExampleFields[4] == "Name" && ExampleFields[5] == "5";
  }

  /** As written, the prefixed example is rejected. */
  lemma {:induction false} ExamplePrefixedRejected()
    ensures Parse(ExamplePrefix + ExampleRecord()) == None
  {
    RecordStart(0, ExampleFields, Extension(ExampleIp, " ", 80, "Drop", ""));
    assert !StartsWith(ExamplePrefix, Prefix) by {
      assert ExamplePrefix[0] != Prefix[0];
    }
    PrefixedRecordRejected(ExamplePrefix, ExampleRecord());
  }

  /** The example record on its own yields 10.0.0.5, port 80, "drop". */
  lemma {:induction false} ExampleRecordParsed()
    ensures Parse(ExampleRecord()) == Some(LogEntry(ExampleIp, 80, "drop"))
  {
    FreeByChar(" ", DptKey, 'd');
    FreeByChar(" ", ActKey, 'a');
    ExampleLower();
    ExampleFieldsPlain();
    ParseRecord(0, ExampleFields, ExampleIp, " ", 80, "Drop", "");
  }

  /** Read from its `CEF:`, the prefixed example yields 10.0.0.5, port 80, "drop". */
  lemma {:induction false} ExamplePrefixedRecord()
    ensures ParseSyslog(ExamplePrefix + ExampleRecord()) == Some(LogEntry(ExampleIp, 80, "drop"))
  {
    var record := ExampleRecord();
    RecordTrimmed(0, ExampleFields, ExampleIp, " ", 80, "Drop", "");
    FreeByChar(ExamplePrefix, Prefix, 'C');
    ParseSyslogPrefixed(ExamplePrefix, record);
    ExampleRecordParsed();
  }
}
