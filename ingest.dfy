/**
 * The receive side: every datagram's text is split into lines, and each
 * line is parsed, recorded, evaluated and, when it reveals a scan from a
 * source outside its cooldown, dispatched as an alert. Beside it runs the
 * periodic sweep of the store. One reading of the monotonic clock, `now`,
 * stands for the whole datagram.
 */
module Ingest {
  import opened Prelude
  import opened Text
  import opened Ipv4
  import opened Events
  import opened Config
  import opened State
  import opened Detector
  import Parser

  // ---------------------------------------------------------------------------
  // Lines
  // ---------------------------------------------------------------------------

  /** A line without its `\r` terminator half. */
  function DropCr(x: string): string {
    if x != [] && x[|x| - 1] == '\r' then x[..|x| - 1] else x
  }

  /**
   * `str::lines`: the pieces between `\n`s, each without its `\n` and a `\r`
   * just before it; a final `\n` starts no further line.
   */
  function Lines(s: string): (r: seq<string>)
    ensures forall i :: 0 <= i < |r| ==> '\n' !in r[i]
    decreases |s|
  {
    FindCharFirst(s, '\n');
    if s == [] then []
    else match FindChar(s, '\n')
      case None => [s]
      case Some(k) => [DropCr(s[..k])] + Lines(s[k + 1..])
  }

  /** A line a sender may put in a datagram: no `\n` in it and no `\r` at its end. */
  predicate Plain(x: string) {
    '\n' !in x && (x == [] || x[|x| - 1] != '\r')
  }

  /**
   * Lines each followed by `\n`, then an optional unterminated last line,
   * are split back into exactly those lines.
   */
  /** A plain line followed by `\n` is split off as it stands. */
  lemma {:induction false} LinesCons(x: string, rest: string)
    requires Plain(x)
    ensures Lines(x + ['\n'] + rest) == [x] + Lines(rest)
  {
    var s := x + ['\n'] + rest;
    FindCharJoint(x, rest, '\n');
    assert s[..|x|] == x && s[|x| + 1..] == rest;
  }

  lemma {:induction false} LinesOfTerminated(parts: seq<string>, last: string)
    requires forall i :: 0 <= i < |parts| ==> Plain(parts[i])
    requires '\n' !in last
    ensures Lines(Terminated(parts, '\n') + last) == parts + (if last == [] then [] else [last])
    decreases |parts|
  {
    if parts == [] {
      assert Terminated(parts, '\n') + last == last;
    } else {
      TerminatedCons(parts, '\n', last);
      LinesCons(parts[0], Terminated(parts[1..], '\n') + last);
      LinesOfTerminated(parts[1..], last);
      assert parts == [parts[0]] + parts[1..];
    }
  }

  // ---------------------------------------------------------------------------
  // One packet
  // ---------------------------------------------------------------------------

  /** One dispatched alert: shown on the console and handed to `send_alerts`. */
  datatype Dispatch = Dispatch(ip: IpAddr, result: DetectionResult)

  /** The two maps of the shared store, as values. */
  datatype Store = Store(scanMap: ScanMap, cooldowns: CooldownMap)

  /** A log parser as the line loop uses it: the entry a line yields, if any. */
  type LineParser = string -> Option<LogEntry>

  /** The parser of the configured kind. */
  function ParserOf(kind: Parser.Kind): LineParser {
    (line: string) => Parser.Parse(kind, line)
  }

  /** The entries of a packet's lines, in order; lines that yield none are dropped. */
  function Entries(parse: LineParser, lines: seq<string>): (es: seq<LogEntry>)
    ensures |es| <= |lines|
    decreases |lines|
  {
    if lines == [] then []
    else
      var e := parse(lines[|lines| - 1]);
      Entries(parse, lines[..|lines| - 1]) + if e.Some? then [e.value] else []
  }

  /**
   * The detector as the line loop consults it: the verdict on a source, given
   * the histories that already hold the source's latest event.
   */
  type Verdict = (ScanMap, IpAddr) -> DetectionResult

  /** `evaluate` with the configuration and the clock reading fixed. */
  function Evaluator(d: DetectionConfig, now: Instant): Verdict
    requires SlowWindowFits(d)
  {
    (m: ScanMap, ip: IpAddr) => Evaluate(ip, m, d, now)
  }

  /**
   * What one parsed entry does. Its event is recorded first, so it counts
   * toward its own detection; a threat from a source outside its cooldown
   * restarts the cooldown and is dispatched, and nothing else is.
   */
  function Apply(s: Store, e: LogEntry, verdict: Verdict, cooldownSecs: u64, now: Instant): (Store, Option<Dispatch>) {
    var m := Recorded(s.scanMap, e.sourceIp, e.destPort, now);
    var result := verdict(m, e.sourceIp);
    if result.IsThreat() && !InCooldown(s.cooldowns, e.sourceIp, cooldownSecs, now)
    then (Store(m, s.cooldowns[e.sourceIp := now]), Some(Dispatch(e.sourceIp, result)))
    else (Store(m, s.cooldowns), None)
  }

  /** The entries applied in order: the final store and the alerts dispatched, oldest first. */
  function Feed(s: Store, es: seq<LogEntry>, verdict: Verdict, cooldownSecs: u64, now: Instant): (Store, seq<Dispatch>)
    decreases |es|
  {
    if es == [] then (s, [])
    else
      var before := Feed(s, es[..|es| - 1], verdict, cooldownSecs, now);
      var step := Apply(before.0, es[|es| - 1], verdict, cooldownSecs, now);
      (step.0, before.1 + if step.1.Some? then [step.1.value] else [])
  }

  /** The entries of two runs of lines are those of the first, then those of the second. */
  lemma {:induction false} EntriesAppend(parse: LineParser, a: seq<string>, b: seq<string>)
    ensures Entries(parse, a + b) == Entries(parse, a) + Entries(parse, b)
    decreases |b|
  {
    if b == [] {
      assert a + b == a;
    } else {
      var init := b[..|b| - 1];
      EntriesAppend(parse, a, init);
      assert (a + b)[..|a + b| - 1] == a + init;
      assert (a + b)[|a + b| - 1] == b[|b| - 1];
    }
  }

  /** Feeding two runs of entries is feeding the first, then the second to the store it left. */
  lemma {:induction false} FeedAppend(s: Store, a: seq<LogEntry>, b: seq<LogEntry>, verdict: Verdict, cooldownSecs: u64, now: Instant)
    ensures Feed(s, a + b, verdict, cooldownSecs, now)
      == (Feed(Feed(s, a, verdict, cooldownSecs, now).0, b, verdict, cooldownSecs, now).0,
          Feed(s, a, verdict, cooldownSecs, now).1 + Feed(Feed(s, a, verdict, cooldownSecs, now).0, b, verdict, cooldownSecs, now).1)
    decreases |b|
  {
    if b == [] {
      var first := Feed(s, a, verdict, cooldownSecs, now);
      assert a + b == a;
      assert Feed(first.0, b, verdict, cooldownSecs, now) == (first.0, []);
      assert first.1 + [] == first.1;
    } else {
      var init, e := b[..|b| - 1], b[|b| - 1];
      FeedAppend(s, a, init, verdict, cooldownSecs, now);
      var first := Feed(s, a, verdict, cooldownSecs, now);
      var mid := Feed(first.0, init, verdict, cooldownSecs, now);
      var step := Apply(mid.0, e, verdict, cooldownSecs, now);
      var out := if step.1.Some? then [step.1.value] else [];
      assert (a + b)[..|a + b| - 1] == a + init;
      assert (a + b)[|a + b| - 1] == e;
      assert Feed(s, a + b, verdict, cooldownSecs, now) == (step.0, (first.1 + mid.1) + out);
      assert Feed(first.0, b, verdict, cooldownSecs, now) == (step.0, mid.1 + out);
      assert (first.1 + mid.1) + out == first.1 + (mid.1 + out);
    }
  }

  /** A single line yields its own entry, if it has one. */
  lemma {:induction false} EntriesSingle(parse: LineParser, x: string)
    ensures Entries(parse, [x]) == if parse(x).Some? then [parse(x).value] else []
  {
    assert [x][..0] == [];
  }

  /** A single entry is one application. */
  lemma {:induction false} FeedSingle(s: Store, e: LogEntry, verdict: Verdict, cooldownSecs: u64, now: Instant)
    ensures Feed(s, [e], verdict, cooldownSecs, now)
      == (Apply(s, e, verdict, cooldownSecs, now).0,
          if Apply(s, e, verdict, cooldownSecs, now).1.Some? then [Apply(s, e, verdict, cooldownSecs, now).1.value] else [])
  {
    var step := Apply(s, e, verdict, cooldownSecs, now);
    var out := if step.1.Some? then [step.1.value] else [];
    assert [e][..0] == [];
    assert Feed(s, [], verdict, cooldownSecs, now) == (s, []);
    assert [] + out == out;
  }

  /** The start of the line loop: a blank line is skipped, any other trimmed and parsed. */
  method ParseLine(kind: Parser.Kind, raw: string) returns (entry: Option<LogEntry>)
    ensures entry == Parser.Parse(kind, raw)
  {
    var line := Trim(raw);
    Parser.ParseTrimmed(kind, raw);
    if line == [] {
      Parser.ParseBlank(kind, raw);
      entry := None;
    } else {
      entry := Parser.Parse(kind, line);
    }
  }

  /**
   * The rest of the loop body for a parsed entry: record it, evaluate its
   * source, and for a threat outside the cooldown mark the source and
   * dispatch.
   */
  method ProcessEntry(e: LogEntry, d: DetectionConfig, state: SharedState, now: Instant)
    returns (dispatched: Option<Dispatch>)
    requires state.Valid() && SlowWindowFits(d)
    modifies state
    ensures state.Valid()
    ensures (Store(state.scanMap, state.alertCooldown), dispatched)
      == Apply(Store(old(state.scanMap), old(state.alertCooldown)), e, Evaluator(d, now), d.alertCooldownSecs, now)
  {
    state.RecordEvent(e.sourceIp, e.destPort, now);
    var detection := Evaluate(e.sourceIp, state.scanMap, d, now);
    if detection.IsThreat() && !state.IsInCooldown(e.sourceIp, d.alertCooldownSecs, now) {
      state.MarkAlerted(e.sourceIp, now);
      dispatched := Some(Dispatch(e.sourceIp, detection));
    } else {
      dispatched := None;
    }
  }

  /** One iteration of the line loop: the line's entry, if any, fed to the store. */
  method ProcessLine(kind: Parser.Kind, raw: string, d: DetectionConfig, state: SharedState, now: Instant)
    returns (dispatched: seq<Dispatch>)
    requires state.Valid() && SlowWindowFits(d)
    modifies state
    ensures state.Valid()
    ensures (Store(state.scanMap, state.alertCooldown), dispatched)
      == Feed(Store(old(state.scanMap), old(state.alertCooldown)), Entries(ParserOf(kind), [raw]), Evaluator(d, now), d.alertCooldownSecs, now)
  {
    EntriesSingle(ParserOf(kind), raw);
    var entry := ParseLine(kind, raw);
    if entry.None? {
      dispatched := [];
      return;
    }
    FeedSingle(Store(state.scanMap, state.alertCooldown), entry.value, Evaluator(d, now), d.alertCooldownSecs, now);
    var sent := ProcessEntry(entry.value, d, state, now);
    dispatched := if sent.Some? then [sent.value] else [];
  }

  /** The entries of one more line follow those of the lines before it. */
  lemma {:induction false} EntriesStep(parse: LineParser, lines: seq<string>, i: nat)
    requires i < |lines|
    ensures Entries(parse, lines[..i + 1]) == Entries(parse, lines[..i]) + Entries(parse, [lines[i]])
  {
    assert lines[..i + 1] == lines[..i] + [lines[i]];
    EntriesAppend(parse, lines[..i], [lines[i]]);
  }

  /** The loop invariant of `ProcessPacket` carried over the entries of one more line. */
  lemma {:induction false} FeedStep(start: Store, a: seq<LogEntry>, b: seq<LogEntry>, verdict: Verdict, cooldownSecs: u64,
                 now: Instant, mid: Store, sent: seq<Dispatch>, next: Store, dispatched: seq<Dispatch>)
    requires (mid, sent) == Feed(start, a, verdict, cooldownSecs, now)
    requires (next, dispatched) == Feed(mid, b, verdict, cooldownSecs, now)
    ensures (next, sent + dispatched) == Feed(start, a + b, verdict, cooldownSecs, now)
  {
    FeedAppend(start, a, b, verdict, cooldownSecs, now);
  }

  /**
   * `process_packet`: runs every line of the datagram against the shared
   * store and returns the alerts it dispatched: the entries of its lines fed
   * to the store in order.
   */
  method ProcessPacket(raw: string, kind: Parser.Kind, d: DetectionConfig, state: SharedState, now: Instant)
    returns (sent: seq<Dispatch>)
    requires state.Valid() && SlowWindowFits(d)
    modifies state
    ensures state.Valid()
    ensures (Store(state.scanMap, state.alertCooldown), sent)
      == Feed(Store(old(state.scanMap), old(state.alertCooldown)), Entries(ParserOf(kind), Lines(raw)), Evaluator(d, now), d.alertCooldownSecs, now)
  {
    var lines := Lines(raw);
    ghost var start := Store(state.scanMap, state.alertCooldown);
    ghost var parse := ParserOf(kind);
    ghost var verdict := Evaluator(d, now);
    sent := [];
    var i := 0;
    assert lines[..0] == [];
    while i < |lines|
      invariant 0 <= i <= |lines|
      invariant state.Valid()
      invariant (Store(state.scanMap, state.alertCooldown), sent)
        == Feed(start, Entries(parse, lines[..i]), verdict, d.alertCooldownSecs, now)
    {
      ghost var mid := Store(state.scanMap, state.alertCooldown);
      var dispatched := ProcessLine(kind, lines[i], d, state, now);
      EntriesStep(parse, lines, i);
      FeedStep(start, Entries(parse, lines[..i]), Entries(parse, [lines[i]]), verdict, d.alertCooldownSecs, now,
               mid, sent, Store(state.scanMap, state.alertCooldown), dispatched);
      sent := sent + dispatched;
      i := i + 1;
    }
    assert lines[..|lines|] == lines;
  }

  // ---------------------------------------------------------------------------
  // Properties of a packet
  // ---------------------------------------------------------------------------

  /** Every alert reports a threat, and its source's cooldown slot holds `now`. */
  predicate AlertsMarked(after: Store, sent: seq<Dispatch>, now: Instant) {
    forall k :: 0 <= k < |sent| ==>
      sent[k].result.IsThreat() && sent[k].ip in after.cooldowns && after.cooldowns[sent[k].ip] == now
  }

  /** No source is alerted twice. */
  predicate DistinctSources(sent: seq<Dispatch>) {
    forall j, k :: 0 <= j < k < |sent| ==> sent[j].ip != sent[k].ip
  }

  /**
   * Every dispatched alert reports a threat, and within one packet a source
   * is alerted at most once: its first alert starts a cooldown that lasts
   * past the rest of the packet.
   */
  lemma {:induction false} FeedOncePerSource(s: Store, es: seq<LogEntry>, verdict: Verdict, cooldownSecs: u64, now: Instant)
    requires cooldownSecs > 0
    ensures AlertsMarked(Feed(s, es, verdict, cooldownSecs, now).0, Feed(s, es, verdict, cooldownSecs, now).1, now)
    ensures DistinctSources(Feed(s, es, verdict, cooldownSecs, now).1)
    decreases |es|
  {
    if es != [] {
      var before := Feed(s, es[..|es| - 1], verdict, cooldownSecs, now);
      FeedOncePerSource(s, es[..|es| - 1], verdict, cooldownSecs, now);
      var e := es[|es| - 1];
      var step := Apply(before.0, e, verdict, cooldownSecs, now);
      if step.1.Some? {
        forall k | 0 <= k < |before.1| ensures before.1[k].ip != e.sourceIp {
          assert InCooldown(before.0.cooldowns, before.1[k].ip, cooldownSecs, now);
        }
      }
    }
  }

  /**
   * A source already in cooldown when the packet arrives gets no alert from
   * it, and its cooldown entry stays as it was.
   */
  lemma {:induction false} FeedRespectsCooldown(s: Store, es: seq<LogEntry>, verdict: Verdict, cooldownSecs: u64, now: Instant, ip: IpAddr)
    requires InCooldown(s.cooldowns, ip, cooldownSecs, now)
    ensures ip in Feed(s, es, verdict, cooldownSecs, now).0.cooldowns
    ensures Feed(s, es, verdict, cooldownSecs, now).0.cooldowns[ip] == s.cooldowns[ip]
    ensures forall k :: 0 <= k < |Feed(s, es, verdict, cooldownSecs, now).1| ==> Feed(s, es, verdict, cooldownSecs, now).1[k].ip != ip
    decreases |es|
  {
    if es != [] {
      FeedRespectsCooldown(s, es[..|es| - 1], verdict, cooldownSecs, now, ip);
    }
  }

  /**
   * Once the cooldown has run out, an entry whose source the detector now
   * calls a threat is dispatched again; with the store's own detector that is
   * a count above a threshold once the entry is recorded.
   */
  lemma {:induction false} AlertAfterCooldown(s: Store, e: LogEntry, d: DetectionConfig, now: Instant)
    requires SlowWindowFits(d)
    requires e.sourceIp in s.cooldowns && s.cooldowns[e.sourceIp] <= now
    requires now - s.cooldowns[e.sourceIp] >= FromSecs(d.alertCooldownSecs)
    ensures var m := Recorded(s.scanMap, e.sourceIp, e.destPort, now);
      Apply(s, e, Evaluator(d, now), d.alertCooldownSecs, now).1.Some? <==>
        UniquePorts(m, e.sourceIp, d.fastScanWindowSecs, now) > d.fastScanPorts
        || UniquePorts(m, e.sourceIp, SlowScanWindowSecs(d), now) > d.slowScanPorts
  {
  }

  // ---------------------------------------------------------------------------
  // The periodic sweep
  // ---------------------------------------------------------------------------

  /** The sweep's horizon must be representable in seconds as a `u64`. */
  predicate HorizonFits(d: DetectionConfig) {
    d.slowScanWindowMins * 60 + 120 <= U64Max
  }

  /** The age limit of the periodic sweep: the slow window plus a two-minute grace period. */
  function CleanupHorizon(d: DetectionConfig): (secs: u64)
    requires HorizonFits(d)
    ensures SlowWindowFits(d) && secs == SlowScanWindowSecs(d) + 120
  {
    SlowScanWindowSecs(d) + 120
  }

  /** One tick of the cleanup task: a sweep of the store with the horizon as age limit. */
  method CleanupTick(state: SharedState, d: DetectionConfig, now: Instant) returns (removed: nat)
    requires state.Valid() && HorizonFits(d)
    modifies state
    ensures state.Valid()
    ensures state.scanMap == KeptHistories(old(state.scanMap), now, FromSecs(CleanupHorizon(d)))
    ensures state.alertCooldown == KeptCooldowns(old(state.alertCooldown), now, FromSecs(CleanupHorizon(d)))
    ensures removed == |old(state.scanMap)| - |state.scanMap|
  {
    CleanupPartition(state.scanMap, now, FromSecs(CleanupHorizon(d)));
    removed := state.CleanupOldEntries(CleanupHorizon(d), now);
  }

  /**
   * The sweep never changes a detection, as long as the fast window is no
   * longer than the horizon: both windows then lie inside it.
   */
  lemma {:induction false} SweepKeepsDetection(m: ScanMap, ip: IpAddr, d: DetectionConfig, now: Instant)
    requires HorizonFits(d) && d.fastScanWindowSecs <= CleanupHorizon(d)
    ensures Evaluate(ip, KeptHistories(m, now, FromSecs(CleanupHorizon(d))), d, now) == Evaluate(ip, m, d, now)
  {
    CleanupKeepsCounts(m, ip, d.fastScanWindowSecs, CleanupHorizon(d), now);
    CleanupKeepsCounts(m, ip, SlowScanWindowSecs(d), CleanupHorizon(d), now);
  }

  /**
   * The sweep leaves a cooldown in force exactly when the cooldown is no
   * longer than the horizon; a longer one can end early, after which the same
   * scan is alerted again.
   */
  lemma {:induction false} SweepAndCooldown(ip: IpAddr, at: Instant, d: DetectionConfig)
    requires HorizonFits(d)
    ensures d.alertCooldownSecs <= CleanupHorizon(d) ==> forall cd: CooldownMap, now: Instant ::
      InCooldown(KeptCooldowns(cd, now, FromSecs(CleanupHorizon(d))), ip, d.alertCooldownSecs, now)
      == InCooldown(cd, ip, d.alertCooldownSecs, now)
    ensures d.alertCooldownSecs > CleanupHorizon(d) ==>
      var now := at + FromSecs(CleanupHorizon(d));
      InCooldown(map[ip := at], ip, d.alertCooldownSecs, now)
      && !InCooldown(KeptCooldowns(map[ip := at], now, FromSecs(CleanupHorizon(d))), ip, d.alertCooldownSecs, now)
  {
    if d.alertCooldownSecs > CleanupHorizon(d) {
      CleanupEndsLongCooldown(ip, at, d.alertCooldownSecs, CleanupHorizon(d));
    }
  }
}
