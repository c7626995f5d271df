/**
 * The Check Point Gaia raw-log parser. A line is relevant when the pattern
 *
 *     Checkpoint:\s+(\w+)\s+([\d.]+).*?service:\s*(\d+)
 *
 * matches somewhere in it, the captured action lower-cases to "drop", the
 * captured source is an IP address and the captured port fits in 16 bits.
 *
 * The regex is modelled by its matching semantics (leftmost start, greedy
 * classes, lazy `.*?`). Consecutive stages use disjoint classes, so every
 * greedy stage takes its maximal run; the lazy `.*?` stops at the first
 * `service:` (not crossing a newline) that is followed by optional
 * whitespace and at least one digit.
 */
module Gaia {
  import opened Prelude
  import opened Text
  import Ipv4
  import opened Events

  const Tag: string := "Checkpoint:"
  const ServiceKey: string := "service:"

  /** The three capture groups of a successful match. */
  datatype Captures = Captures(action: string, source: string, port: string)

  predicate WellFormed(c: Captures) {
    c.action != [] && AllIn(c.action, Word)
    && c.source != [] && AllIn(c.source, DigitOrDot)
    && c.port != [] && AllIn(c.port, Digit)
  }

  /** `service:\s*(\d+)` tried at the front of `u`: the captured port digits. */
  function PortAt(u: string): (r: Option<string>)
    ensures r.Some? <==> (StartsWith(u, ServiceKey)
      && Span(u, |ServiceKey|, Space) < |u| && IsDigit(u[Span(u, |ServiceKey|, Space)]))
    ensures r.Some? ==> r.value != [] && AllIn(r.value, Digit)
  {
    if !StartsWith(u, ServiceKey) then None
    else
      var w := Span(u, |ServiceKey|, Space);
      var n := Span(u, w, Digit);
      if n == w then None else Some(u[w..n])
  }

  /** `.*?service:\s*(\d+)`: the lazy `.*?` grows one character at a time and never crosses a newline. */
  function LazyPort(u: string): (r: Option<string>)
    ensures r.Some? ==> r.value != [] && AllIn(r.value, Digit)
  {
    var here := PortAt(u);
    if here.Some? then here
    else if u != [] && u[0] != '\n' then LazyPort(u[1..])
    else None
  }

  /** One attempt of the whole pattern anchored at the front of `t`. */
  function MatchFront(t: string): (r: Option<Captures>)
    ensures r.Some? ==> StartsWith(t, Tag) && WellFormed(r.value)
  {
    if !StartsWith(t, Tag) then None
    else
      var b := Span(t, |Tag|, Space);
      var c := Span(t, b, Word);
      var d := Span(t, c, Space);
      var e := Span(t, d, DigitOrDot);
      if b == |Tag| || c == b || d == c || e == d then None
      else
        var port := LazyPort(t[e..]);
        if port.None? then None else Some(Captures(t[b..c], t[d..e], port.value))
  }

  /** `Regex::captures`: the attempt at the leftmost start position that matches. */
  function Search(t: string): (r: Option<Captures>)
    ensures r.Some? ==> WellFormed(r.value)
  {
    var m := MatchFront(t);
    if m.Some? then m else if t == [] then None else Search(t[1..])
  }

  /** `GaiaParser::parse`. */
  function Parse(line: string): (r: Option<LogEntry>)
    ensures r.Some? ==> r.value.action == "drop"
  {
    var t := Trim(line);
    if t == [] then None
    else
      var m := Search(t);
      if m.None? then None
      else
        var action := ToLower(m.value.action);
        if action != "drop" then None
        else
          var ip := Ipv4.Parse(m.value.source);
          var port := ParseUnsigned(m.value.port, U16Max);
          if ip.None? || port.None? then None
          else Some(LogEntry(ip.value, port.value as u16, action))
  }

  /** A captured port that does not fit in 16 bits rejects the line. */
  lemma {:induction false} ParsePortOutOfRange(line: string)
    requires Search(Trim(line)).Some? && DigitsValue(Search(Trim(line)).value.port) > U16Max
    ensures Parse(line) == None
  {
  }

  /** A captured source that is not an IPv4 address rejects the line. */
  lemma {:induction false} ParseBadAddress(line: string)
    requires Search(Trim(line)).Some? && Ipv4.Parse(Search(Trim(line)).value.source).None?
    ensures Parse(line) == None
  {
  }

  // ---------------------------------------------------------------------------
  // The search finds the leftmost match
  // ---------------------------------------------------------------------------

  /** If the pattern first matches at `p`, the search returns that match. */
  lemma {:induction false} SearchLeftmost(t: string, p: nat)
    requires p <= |t| && MatchFront(t[p..]).Some?
    requires forall k :: 0 <= k < p ==> MatchFront(t[k..]).None?
    ensures Search(t) == MatchFront(t[p..])
    decreases p
  {
    if p > 0 {
      assert MatchFront(t[0..]).None? && t[0..] == t;
      forall k | 0 <= k < p - 1 ensures MatchFront(t[1..][k..]).None? {
        assert t[1..][k..] == t[k + 1..];
      }
      assert t[1..][p - 1..] == t[p..];
      SearchLeftmost(t[1..], p - 1);
    }
  }

  /** The search fails exactly when the pattern matches at no start position. */
  lemma {:induction false} SearchNone(t: string)
    ensures Search(t).None? <==> forall k :: 0 <= k <= |t| ==> MatchFront(t[k..]).None?
    decreases |t|
  {
    assert t[0..] == t;
    if t != [] {
      SearchNone(t[1..]);
      forall k | 1 <= k <= |t| ensures t[1..][k - 1..] == t[k..] {
      }
    }
  }

  // ---------------------------------------------------------------------------
  // Properties of the parser
  // ---------------------------------------------------------------------------

  /** The parser trims its input itself, so trimming beforehand changes nothing. */
  lemma {:induction false} ParseTrim(line: string)
    ensures Parse(Trim(line)) == Parse(line)
  {
    TrimIdempotent(line);
  }

  /** An empty or all-whitespace line is ignored. */
  lemma {:induction false} ParseBlank(line: string)
    requires forall m :: 0 <= m < |line| ==> IsWhitespace(line[m])
    ensures Parse(line) == None
  {
    TrimBlank(line);
  }

  /** The middle of the lines the firewall emits, between the source address and the port. */
  const Middle: string := " proto: tcp; service: "

  /** The tail after the port. */
  function Tail(sport: nat): string {
    "; s_port: " + Decimal(sport)
  }

  /**
   * A Gaia line in the firewall's format, with the port as the digits the
   * firewall printed:
   * `<syslog prefix>Checkpoint: <action> <source> proto: tcp; service: <digits>; s_port: <sport>`.
   */
  function LogLine(pre: string, action: string, ip: Ipv4.IpAddr, digits: string, sport: nat): string {
    pre + Tag + " " + action + " " + Ipv4.Format(ip) + Middle + digits + Tail(sport)
  }

  /** Skipping characters that cannot start `service:` and are not newlines does not change the lazy search. */
  lemma {:induction false} LazyPortSkip(x: string, y: string)
    requires forall m :: 0 <= m < |x| ==> x[m] != 's' && x[m] != '\n'
    ensures LazyPort(x + y) == LazyPort(y)
    decreases |x|
  {
    if x != [] {
      assert (x + y)[0] == x[0];
      assert (x + y)[1..] == x[1..] + y;
      LazyPortSkip(x[1..], y);
    } else {
      assert x + y == y;
    }
  }

  /** `service: <digits>` followed by a non-digit captures exactly the digits. */
  lemma {:induction false} PortAtDigits(digits: string, rest: string)
    requires digits != [] && AllIn(digits, Digit)
    requires rest != [] && !IsDigit(rest[0])
    ensures PortAt(ServiceKey + " " + digits + rest) == Some(digits)
  {
    var u := ServiceKey + " " + digits + rest;
    assert StartsWith(u, ServiceKey) by {
      assert u[..|ServiceKey|] == ServiceKey;
    }
    SpanConcat(ServiceKey + " ", digits + rest, |ServiceKey|, Space);
    assert u == (ServiceKey + " ") + (digits + rest);
    SpanConcat(ServiceKey + " " + digits, rest, |ServiceKey| + 1, Digit);
    assert u[|ServiceKey| + 1..|ServiceKey| + 1 + |digits|] == digits;
  }

  /** From the end of the source address, the lazy search stops at the port. */
  lemma {:induction false} LazyPortLogLine(digits: string, sport: nat)
    requires digits != [] && AllIn(digits, Digit)
    ensures LazyPort(Middle + digits + Tail(sport)) == Some(digits)
  {
    var tl := Tail(sport);
    assert tl[0] == ';';
    LazyPortDigits(digits, tl);
  }

  /** The lazy search over the middle of a line stops at the digits after `service:`. */
  lemma {:induction false} LazyPortDigits(digits: string, rest: string)
    requires digits != [] && AllIn(digits, Digit)
    requires rest != [] && !IsDigit(rest[0])
    ensures LazyPort(Middle + digits + rest) == Some(digits)
  {
    var skip := " proto: tcp; ";
    var tail := ServiceKey + " " + digits + rest;
    assert Middle == skip + ServiceKey + " ";
    assert Middle + digits + rest == skip + tail;
    LazyPortSkip(skip, tail);
    PortAtDigits(digits, rest);
  }

  /** The greedy stages on `<tag> <action> <source><rest>` end exactly at the field boundaries. */
  lemma {:induction false} FrontSpans(tag: string, action: string, src: string, rest: string)
    requires action != [] && AllIn(action, Word)
    requires src != [] && AllIn(src, DigitOrDot)
    requires rest != [] && !InClass(rest[0], DigitOrDot)
    ensures Span(tag + " " + action + " " + src + rest, |tag|, Space) == |tag| + 1
    ensures Span(tag + " " + action + " " + src + rest, |tag| + 1, Word) == |tag| + 1 + |action|
    ensures Span(tag + " " + action + " " + src + rest, |tag| + 1 + |action|, Space) == |tag| + 2 + |action|
    ensures Span(tag + " " + action + " " + src + rest, |tag| + 2 + |action|, DigitOrDot) == |tag| + 2 + |action| + |src|
  {
    var t := tag + " " + action + " " + src + rest;
    var a := |tag| + 1;
    var b := a + |action|;
    var c := b + 1;
    var e := c + |src|;
    assert t[|tag|] == ' ' && t[a] == action[0];
    SpanUnique(t, |tag|, a, Space);
    forall m | a <= m < b ensures InClass(t[m], Word) {
      assert t[m] == action[m - a];
    }
    SpanUnique(t, a, b, Word);
    assert t[b] == ' ' && t[c] == src[0];
    SpanUnique(t, b, c, Space);
    forall m | c <= m < e ensures InClass(t[m], DigitOrDot) {
      assert t[m] == src[m - c];
    }
    assert t[e] == rest[0];
    SpanUnique(t, c, e, DigitOrDot);
  }

  /** The pieces of `Checkpoint: <action> <source><rest>` between those boundaries. */
  lemma {:induction false} FrontSlices(action: string, src: string, rest: string)
    ensures StartsWith(Tag + " " + action + " " + src + rest, Tag)
    ensures (Tag + " " + action + " " + src + rest)[|Tag| + 1..|Tag| + 1 + |action|] == action
    ensures (Tag + " " + action + " " + src + rest)[|Tag| + 2 + |action|..|Tag| + 2 + |action| + |src|] == src
    ensures (Tag + " " + action + " " + src + rest)[|Tag| + 2 + |action| + |src|..] == rest
  {
    var t := Tag + " " + action + " " + src + rest;
    assert t[..|Tag|] == Tag;
  }

  /** The anchored attempt on `Checkpoint: <action> <source><rest>` captures the action, the source and what the lazy search finds in `rest`. */
  lemma {:induction false} MatchFrontFields(action: string, src: string, rest: string)
    requires action != [] && AllIn(action, Word)
    requires src != [] && AllIn(src, DigitOrDot)
    requires rest != [] && !InClass(rest[0], DigitOrDot)
    ensures MatchFront(Tag + " " + action + " " + src + rest)
      == if LazyPort(rest).None? then None else Some(Captures(action, src, LazyPort(rest).value))
  {
    FrontSpans(Tag, action, src, rest);
    FrontSlices(action, src, rest);
  }

  /** A prefix free of `Checkpoint:` is skipped: the search reports the match that starts right after it. */
  lemma {:induction false} SearchAfterPrefix(pre: string, t: string)
    requires Free(pre, Tag) && MatchFront(t).Some?
    ensures Search(pre + t) == MatchFront(t)
  {
    assert (pre + t)[|pre|..] == t;
    PrefixNoMatch(pre, t);
    SearchLeftmost(pre + t, |pre|);
  }

  /** No attempt that starts inside a prefix free of `Checkpoint:` matches. */
  lemma {:induction false} PrefixNoMatch(pre: string, t: string)
    requires Free(pre, Tag) && StartsWith(t, Tag)
    ensures forall k :: 0 <= k < |pre| ==> MatchFront((pre + t)[k..]).None?
  {
    var line := pre + t;
    forall k | 0 <= k < |pre| ensures MatchFront(line[k..]).None? {
      if k + |Tag| <= |pre| {
        assert line[k..][..|Tag|] == pre[k..k + |Tag|];
        assert !StartsAt(pre, k, Tag);
      } else {
        NoStraddle(pre, t, Tag, k);
        assert line[k..][..|Tag|] == line[k..k + |Tag|];
      }
    }
  }

  lemma {:induction false} Regroup(pre: string, x: string, m: string, dp: string, tl: string)
    ensures pre + x + m + dp + tl == pre + (x + (m + dp + tl))
  {
    assert pre + x + m + dp + tl == (pre + x + m + dp) + tl;
    assert (pre + x + m + dp) + tl == (pre + x + m) + (dp + tl);
    assert (pre + x + m) + (dp + tl) == (pre + x) + (m + (dp + tl));
    assert m + (dp + tl) == m + dp + tl;
  }

  /** The firewall's line, regrouped around the fields the pattern captures. */
  lemma {:induction false} LogLineShape(pre: string, action: string, ip: Ipv4.IpAddr, digits: string, sport: nat)
    ensures LogLine(pre, action, ip, digits, sport)
      == pre + (Tag + " " + action + " " + Ipv4.Format(ip) + (Middle + digits + Tail(sport)))
  {
    var x := Tag + " " + action + " " + Ipv4.Format(ip);
    assert pre + Tag + " " + action + " " + Ipv4.Format(ip) == pre + x;
    Regroup(pre, x, Middle, digits, Tail(sport));
  }

  /** The firewall's lines carry no surrounding whitespace when the prefix starts with a visible character. */
  lemma {:induction false} LogLineTrimmed(pre: string, action: string, ip: Ipv4.IpAddr, digits: string, sport: nat)
    requires pre == [] || !IsWhitespace(pre[0])
    ensures Trim(LogLine(pre, action, ip, digits, sport)) == LogLine(pre, action, ip, digits, sport)
  {
    var line := LogLine(pre, action, ip, digits, sport);
    var head := pre + Tag + " " + action + " " + Ipv4.Format(ip) + Middle + digits + "; s_port: ";
    var ds := Decimal(sport);
    assert line == head + ds;
    assert line[0] == (if pre == [] then 'C' else pre[0]);
    assert line[|line| - 1] == ds[|ds| - 1];
    TrimFixed(line);
  }

  /** On a line in the firewall's format the search captures the action, the rendered source address and the port digits. */
  lemma {:induction false} SearchLogLine(pre: string, action: string, ip: Ipv4.IpAddr, digits: string, sport: nat)
    requires Free(pre, Tag)
    requires action != [] && AllIn(action, Word)
    requires digits != [] && AllIn(digits, Digit)
    ensures Search(LogLine(pre, action, ip, digits, sport)) == Some(Captures(action, Ipv4.Format(ip), digits))
  {
    var src := Ipv4.Format(ip);
    var rest := Middle + digits + Tail(sport);
    LogLineShape(pre, action, ip, digits, sport);
    Ipv4.DottedChars(ip.Octets());
    assert src[0] == Decimal(ip.a)[0];
    MatchFrontFields(action, src, rest);
    LazyPortLogLine(digits, sport);
    SearchAfterPrefix(pre, Tag + " " + action + " " + src + rest);
  }

  /**
   * A line in the firewall's format is recognised exactly when its action is
   * "drop" (in any case) and its port digits fit in 16 bits, and then it
   * yields the source address and the port it names. The syslog prefix must
   * not itself contain `Checkpoint:`.
   */
  lemma {:induction false} ParseLogLine(pre: string, action: string, ip: Ipv4.IpAddr, digits: string, sport: nat)
    requires Free(pre, Tag) && (pre == [] || !IsWhitespace(pre[0]))
    requires action != [] && AllIn(action, Word)
    requires digits != [] && AllIn(digits, Digit)
    ensures Parse(LogLine(pre, action, ip, digits, sport))
      == if ToLower(action) == "drop" && DigitsValue(digits) <= U16Max
         then Some(LogEntry(ip, DigitsValue(digits) as u16, "drop")) else None
  {
    var line := LogLine(pre, action, ip, digits, sport);
    LogLineTrimmed(pre, action, ip, digits, sport);
    SearchLogLine(pre, action, ip, digits, sport);
    assert line != [] by {
      LogLineShape(pre, action, ip, digits, sport);
    }
    Ipv4.ParseIffFormat(Ipv4.Format(ip), ip);
  }

  /** A line naming a 16-bit port in its usual rendering yields that port when the action is a drop. */
  lemma {:induction false} ParseLogLinePort(pre: string, action: string, ip: Ipv4.IpAddr, port: u16, sport: nat)
    requires Free(pre, Tag) && (pre == [] || !IsWhitespace(pre[0]))
    requires action != [] && AllIn(action, Word)
    ensures Parse(LogLine(pre, action, ip, Decimal(port), sport))
      == if ToLower(action) == "drop" then Some(LogEntry(ip, port, "drop")) else None
  {
    assert AllIn(Decimal(port), Digit);
    ValueOfDecimal(port);
    ParseLogLine(pre, action, ip, Decimal(port), sport);
  }

  /** A line naming a port above 65535 is rejected whatever its action. */
  lemma {:induction false} ParseLogLineOutOfRange(pre: string, action: string, ip: Ipv4.IpAddr, port: nat, sport: nat)
    requires Free(pre, Tag) && (pre == [] || !IsWhitespace(pre[0]))
    requires action != [] && AllIn(action, Word)
    requires port > U16Max
    ensures Parse(LogLine(pre, action, ip, Decimal(port), sport)) == None
  {
    assert AllIn(Decimal(port), Digit);
    ValueOfDecimal(port);
    ParseLogLine(pre, action, ip, Decimal(port), sport);
  }

  /**
   * Only the first match is tried: a line whose first `Checkpoint:` carries a
   * source that is not an address is rejected, whatever follows it, even a
   * second match that would be accepted on its own.
   */
  lemma {:induction false} ParseFirstMatchOnly(action: string, src: string, digits: string, sport: nat, more: string)
    requires action != [] && AllIn(action, Word)
    requires src != [] && AllIn(src, DigitOrDot) && Ipv4.Parse(src).None?
    requires digits != [] && AllIn(digits, Digit)
    requires more == [] || !IsWhitespace(more[|more| - 1])
    ensures Parse(Tag + " " + action + " " + src + Middle + digits + Tail(sport) + more) == None
  {
    var rest := Middle + digits + (Tail(sport) + more);
    var line := Tag + " " + action + " " + src + Middle + digits + Tail(sport) + more;
    assert line == Tag + " " + action + " " + src + rest;
    var tl := Tail(sport) + more;
    assert tl[0] == ';';
    LazyPortDigits(digits, tl);
    MatchFrontFields(action, src, rest);
    var ds := Decimal(sport);
    assert line[0] == 'C';
    assert line[|line| - 1] == if more == [] then ds[|ds| - 1] else more[|more| - 1];
    TrimFixed(line);
  }

  /** `10.0.0` has three groups, so it is not an address. */
  lemma {:induction false} ThreeGroupsRejected()
    ensures Ipv4.Parse("10.0.0").None?
  {
  }

  /** A well-formed firewall line for 10.0.0.5 on port 80, with no syslog prefix. */
  function ExampleLine(): string {
    LogLine("", "drop", Ipv4.IpAddr(10, 0, 0, 5), Decimal(80), 1)
  }

  lemma {:induction false} DropLower()
    ensures ToLower("drop") == "drop"
  {
    var l := ToLower("drop");
    assert |l| == 4 && l[0] == 'd' && l[1] == 'r' && l[2] == 'o' && l[3] == 'p';
  }

  lemma {:induction false} ExampleLineAccepted()
    ensures Parse(ExampleLine()) == Some(LogEntry(Ipv4.IpAddr(10, 0, 0, 5), 80, "drop"))
  {
    assert AllIn("drop", Word);
    DropLower();
    ParseLogLinePort("", "drop", Ipv4.IpAddr(10, 0, 0, 5), 80, 1);
  }

  lemma {:induction false} ExampleLineEnd()
    ensures |ExampleLine()| > 0 && ExampleLine()[|ExampleLine()| - 1] == '1'
  {
    var ds := Decimal(1);
    assert ds == "1";
    assert ExampleLine() == "" + Tag + " " + "drop" + " " + Ipv4.Format(Ipv4.IpAddr(10, 0, 0, 5)) + Middle + Decimal(80) + "; s_port: " + ds;
  }

  /**
   * `Checkpoint: drop 10.0.0 ...` followed by the line for 10.0.0.5: the
   * second line alone is accepted, the two together are not.
   */
  lemma {:induction false} ExampleFirstMatchOnly()
    ensures Parse(Tag + " drop 10.0.0" + Middle + "80" + Tail(1) + (" " + ExampleLine())) == None
  {
    var second := " " + ExampleLine();
    ExampleLineEnd();
    assert second[|second| - 1] == '1';
    assert AllIn("drop", Word) && AllIn("10.0.0", DigitOrDot) && AllIn("80", Digit);
    ThreeGroupsRejected();
    assert Tag + " drop 10.0.0" == Tag + " " + "drop" + " " + "10.0.0";
    ParseFirstMatchOnly("drop", "10.0.0", "80", 1, second);
  }
}
