/**
 * The detector's shared store: for every source address the ports it was
 * seen probing and when, and for every address that raised an alert the
 * time of its last alert. Readings of the monotonic clock are passed in as
 * `now`.
 */
module State {
  import opened Prelude
  import opened Ipv4

  /** A reading of the monotonic clock, in nanoseconds. */
  type Instant = nat

  const NanosPerSec: nat := 1_000_000_000

  /** `Duration::from_secs`, in nanoseconds. */
  function FromSecs(secs: u64): nat {
    secs * NanosPerSec
  }

  /** `Instant::duration_since`: the time from `earlier` to `now`, zero when `earlier` is the later one. */
  function DurationSince(now: Instant, earlier: Instant): nat {
    if earlier <= now then now - earlier else 0
  }

  /** One dropped packet aimed at `port`, seen at `seenAt`. */
  datatype ScanEvent = ScanEvent(port: u16, seenAt: Instant)

  /** The events of one source address, oldest first. */
  type History = seq<ScanEvent>

  type ScanMap = map<IpAddr, History>
  type CooldownMap = map<IpAddr, Instant>

  /** The age test of the window query: no older than `window`, the bound included. */
  predicate InWindow(e: ScanEvent, now: Instant, window: nat) {
    DurationSince(now, e.seenAt) <= window
  }

  /**
   * The set of ports collected by the window query. Repeated ports are
   * collected once, so there are never more of them than events.
   */
  function WindowPorts(events: History, now: Instant, window: nat): (ports: set<u16>)
    ensures |ports| <= |events|
  {
    if events == [] then {}
    else
      var last := events[|events| - 1];
      var before := WindowPorts(events[..|events| - 1], now, window);
      if InWindow(last, now, window) then before + {last.port} else before
  }

  /** A port is collected exactly when some event inside the window names it. */
  lemma {:induction false} WindowPortsMembers(events: History, now: Instant, window: nat, p: u16)
    ensures p in WindowPorts(events, now, window) <==>
      exists i :: 0 <= i < |events| && events[i].port == p && InWindow(events[i], now, window)
    decreases |events|
  {
    if events != [] {
      var init := events[..|events| - 1];
      WindowPortsMembers(init, now, window, p);
      assert forall i :: 0 <= i < |init| ==> init[i] == events[i];
    }
  }

  /** No event inside the window: nothing is collected. */
  lemma {:induction false} WindowPortsNone(events: History, now: Instant, window: nat)
    requires forall i :: 0 <= i < |events| ==> !InWindow(events[i], now, window)
    ensures WindowPorts(events, now, window) == {}
    decreases |events|
  {
    if events != [] {
      WindowPortsNone(events[..|events| - 1], now, window);
    }
  }

  /** `unique_ports_in_window`: how many distinct ports `ip` probed within the last `windowSecs` seconds. */
  function UniquePorts(scanMap: ScanMap, ip: IpAddr, windowSecs: u64, now: Instant): (n: nat)
    ensures ip !in scanMap ==> n == 0
    ensures ip in scanMap ==> n <= |scanMap[ip]|
  {
    if ip in scanMap then |WindowPorts(scanMap[ip], now, FromSecs(windowSecs))| else 0
  }

  /** `record_event`: one event appended to the history of `ip`, which is created when absent. */
  function Recorded(scanMap: ScanMap, ip: IpAddr, port: u16, now: Instant): ScanMap {
    scanMap[ip := (if ip in scanMap then scanMap[ip] else []) + [ScanEvent(port, now)]]
  }

  /** `is_in_cooldown`: an alert for `ip` was raised less than `cooldownSecs` seconds ago. */
  predicate InCooldown(cooldowns: CooldownMap, ip: IpAddr, cooldownSecs: u64, now: Instant) {
    ip in cooldowns && DurationSince(now, cooldowns[ip]) < FromSecs(cooldownSecs)
  }

  /** The freshness test of the cleanup sweep: some event no older than `maxAge`. */
  predicate Fresh(events: History, now: Instant, maxAge: nat) {
    exists e :: e in events && InWindow(e, now, maxAge)
  }

  /** The histories that survive the sweep, each kept whole. */
  function KeptHistories(scanMap: ScanMap, now: Instant, maxAge: nat): ScanMap {
    map ip | ip in scanMap && Fresh(scanMap[ip], now, maxAge) :: scanMap[ip]
  }

  /** The addresses whose histories the sweep drops. */
  function Evicted(scanMap: ScanMap, now: Instant, maxAge: nat): set<IpAddr> {
    set ip | ip in scanMap && !Fresh(scanMap[ip], now, maxAge)
  }

  /** The cooldowns that survive the sweep: those younger than `maxAge`, the bound excluded. */
  function KeptCooldowns(cooldowns: CooldownMap, now: Instant, maxAge: nat): CooldownMap {
    map ip | ip in cooldowns && DurationSince(now, cooldowns[ip]) < maxAge :: cooldowns[ip]
  }

  /** Every tracked address has at least one event. */
  predicate NonEmptyHistories(scanMap: ScanMap) {
    forall ip :: ip in scanMap ==> scanMap[ip] != []
  }

  // ---------------------------------------------------------------------------
  // Window counts
  // ---------------------------------------------------------------------------

  lemma {:induction false} SubsetCard<T>(a: set<T>, b: set<T>)
    requires a <= b
    ensures |a| <= |b|
  {
    assert b == a + (b - a);
  }

  /** A wider window sees every port a narrower one sees. */
  lemma {:induction false} WindowPortsMonotone(events: History, now: Instant, w1: nat, w2: nat)
    requires w1 <= w2
    ensures WindowPorts(events, now, w1) <= WindowPorts(events, now, w2)
  {
    forall p | p in WindowPorts(events, now, w1) ensures p in WindowPorts(events, now, w2) {
      WindowPortsMembers(events, now, w1, p);
      WindowPortsMembers(events, now, w2, p);
    }
  }

  /** The count is monotone in the window: `w1 <= w2` gives `count(w1) <= count(w2)`. */
  lemma {:induction false} UniquePortsMonotone(scanMap: ScanMap, ip: IpAddr, w1: u64, w2: u64, now: Instant)
    requires w1 <= w2
    ensures UniquePorts(scanMap, ip, w1, now) <= UniquePorts(scanMap, ip, w2, now)
  {
    if ip in scanMap {
      WindowPortsMonotone(scanMap[ip], now, FromSecs(w1), FromSecs(w2));
      SubsetCard(WindowPorts(scanMap[ip], now, FromSecs(w1)), WindowPorts(scanMap[ip], now, FromSecs(w2)));
    }
  }

  /**
   * What the non-empty histories give a caller: a tracked address whose
   * newest event lies within a window counts at least one port over it, and
   * a sweep with that window as its age limit keeps its history.
   */
  lemma {:induction false} TrackedCountsNewest(scanMap: ScanMap, ip: IpAddr, windowSecs: u64, now: Instant)
    requires NonEmptyHistories(scanMap)
    requires ip in scanMap
    requires InWindow(scanMap[ip][|scanMap[ip]| - 1], now, FromSecs(windowSecs))
    ensures UniquePorts(scanMap, ip, windowSecs, now) >= 1
    ensures ip in KeptHistories(scanMap, now, FromSecs(windowSecs))
  {
  }

  /**
   * A recorded event counts at once toward its own window: the count rises by
   * one unless the port was already seen inside the window.
   */
  lemma {:induction false} RecordedCount(scanMap: ScanMap, ip: IpAddr, port: u16, now: Instant, windowSecs: u64)
    ensures var before := UniquePorts(scanMap, ip, windowSecs, now);
      var after := UniquePorts(Recorded(scanMap, ip, port, now), ip, windowSecs, now);
      after == if ip in scanMap && port in WindowPorts(scanMap[ip], now, FromSecs(windowSecs)) then before else before + 1
  {
    var h := if ip in scanMap then scanMap[ip] else [];
    var h' := h + [ScanEvent(port, now)];
    var window := FromSecs(windowSecs);
    assert h'[..|h'| - 1] == h;
    assert WindowPorts(h', now, window) == WindowPorts(h, now, window) + {port};
  }

  /** Recording for one address leaves every other address's count alone. */
  lemma {:induction false} RecordedElsewhere(scanMap: ScanMap, ip: IpAddr, other: IpAddr, port: u16, now: Instant, windowSecs: u64)
    requires other != ip
    ensures UniquePorts(Recorded(scanMap, ip, port, now), other, windowSecs, now) == UniquePorts(scanMap, other, windowSecs, now)
  {
  }

  // ---------------------------------------------------------------------------
  // Cooldowns
  // ---------------------------------------------------------------------------

  /**
   * After an alert at `at`, the address stays in cooldown exactly until
   * `cooldownSecs` seconds have passed; right after the alert that means for
   * every positive cooldown.
   */
  lemma {:induction false} MarkedCooldown(cooldowns: CooldownMap, ip: IpAddr, at: Instant, cooldownSecs: u64, now: Instant)
    requires at <= now
    ensures InCooldown(cooldowns[ip := at], ip, cooldownSecs, now) <==> now - at < FromSecs(cooldownSecs)
    ensures InCooldown(cooldowns[ip := at], ip, cooldownSecs, at) <==> cooldownSecs > 0
  {
  }

  // ---------------------------------------------------------------------------
  // The cleanup sweep
  // ---------------------------------------------------------------------------

  /** Every address is either kept or counted as evicted, never both. */
  lemma {:induction false} CleanupPartition(scanMap: ScanMap, now: Instant, maxAge: nat)
    ensures |KeptHistories(scanMap, now, maxAge)| + |Evicted(scanMap, now, maxAge)| == |scanMap|
  {
    var kept := KeptHistories(scanMap, now, maxAge).Keys;
    var gone := Evicted(scanMap, now, maxAge);
    assert scanMap.Keys == kept + gone;
    assert kept * gone == {};
  }

  /** The sweep keeps the store's invariant. */
  lemma {:induction false} CleanupNonEmpty(scanMap: ScanMap, now: Instant, maxAge: nat)
    ensures NonEmptyHistories(KeptHistories(scanMap, now, maxAge))
  {
  }

  /**
   * The sweep changes no count over a window no longer than its age limit:
   * an evicted address had no event inside such a window.
   */
  lemma {:induction false} CleanupKeepsCounts(scanMap: ScanMap, ip: IpAddr, windowSecs: u64, maxAgeSecs: u64, now: Instant)
    requires windowSecs <= maxAgeSecs
    ensures UniquePorts(KeptHistories(scanMap, now, FromSecs(maxAgeSecs)), ip, windowSecs, now)
      == UniquePorts(scanMap, ip, windowSecs, now)
  {
    var maxAge := FromSecs(maxAgeSecs);
    if ip in scanMap && !Fresh(scanMap[ip], now, maxAge) {
      var h := scanMap[ip];
      forall i | 0 <= i < |h| ensures !InWindow(h[i], now, FromSecs(windowSecs)) {
        assert h[i] in h;
      }
      WindowPortsNone(h, now, FromSecs(windowSecs));
    }
  }

  /** A cooldown no longer than the sweep's age limit is never cut short by it. */
  lemma {:induction false} CleanupKeepsCooldown(cooldowns: CooldownMap, ip: IpAddr, cooldownSecs: u64, maxAgeSecs: u64, now: Instant)
    requires cooldownSecs <= maxAgeSecs
    ensures InCooldown(KeptCooldowns(cooldowns, now, FromSecs(maxAgeSecs)), ip, cooldownSecs, now)
      == InCooldown(cooldowns, ip, cooldownSecs, now)
  {
  }

  /**
   * A cooldown longer than the sweep's age limit is cut short: an alert
   * exactly `maxAgeSecs` old is still cooling down, and the sweep forgets it.
   */
  lemma {:induction false} CleanupEndsLongCooldown(ip: IpAddr, at: Instant, cooldownSecs: u64, maxAgeSecs: u64)
    requires maxAgeSecs < cooldownSecs
    ensures var now := at + FromSecs(maxAgeSecs);
      InCooldown(map[ip := at], ip, cooldownSecs, now)
      && !InCooldown(KeptCooldowns(map[ip := at], now, FromSecs(maxAgeSecs)), ip, cooldownSecs, now)
  {
  }

  class SharedState {
    var scanMap: ScanMap
    var alertCooldown: CooldownMap

    /**
     * The store's invariant: every tracked address has an event, so it counts
     * a port over a window reaching its newest event (`TrackedCountsNewest`).
     */
    ghost predicate Valid()
      reads this
    {
      NonEmptyHistories(scanMap)
    }

    /** `SharedState::new`: both maps empty. */
    constructor()
      ensures Valid()
      ensures scanMap == map[] && alertCooldown == map[]
    {
      scanMap := map[];
      alertCooldown := map[];
    }

    /** `record_event`: appends `(port, now)` to the history of `ip`; cooldowns are untouched. */
    method RecordEvent(ip: IpAddr, port: u16, now: Instant)
      requires Valid()
      modifies this
      ensures Valid()
      ensures scanMap == Recorded(old(scanMap), ip, port, now)
      ensures alertCooldown == old(alertCooldown)
    {
      var history := if ip in scanMap then scanMap[ip] else [];
      scanMap := scanMap[ip := history + [ScanEvent(port, now)]];
    }

    function UniquePortsInWindow(ip: IpAddr, windowSecs: u64, now: Instant): nat
      reads this
    {
      UniquePorts(scanMap, ip, windowSecs, now)
    }

    predicate IsInCooldown(ip: IpAddr, cooldownSecs: u64, now: Instant)
      reads this
    {
      InCooldown(alertCooldown, ip, cooldownSecs, now)
    }

    /** `mark_alerted`: the single cooldown slot of `ip` now holds `now`; histories are untouched. */
    method MarkAlerted(ip: IpAddr, now: Instant)
      requires Valid()
      modifies this
      ensures Valid()
      ensures alertCooldown == old(alertCooldown)[ip := now]
      ensures scanMap == old(scanMap)
    {
      alertCooldown := alertCooldown[ip := now];
    }

    /**
     * `cleanup_old_entries`: drops every history with no event inside
     * `maxAgeSecs` and every cooldown at least that old, and returns how many
     * histories it dropped.
     */
    method CleanupOldEntries(maxAgeSecs: u64, now: Instant) returns (removed: nat)
      requires Valid()
      modifies this
      ensures Valid()
      ensures scanMap == KeptHistories(old(scanMap), now, FromSecs(maxAgeSecs))
      ensures alertCooldown == KeptCooldowns(old(alertCooldown), now, FromSecs(maxAgeSecs))
      ensures removed == |Evicted(old(scanMap), now, FromSecs(maxAgeSecs))|
    {
      var maxAge := FromSecs(maxAgeSecs);
      ghost var start := scanMap;
      ghost var gone: set<IpAddr> := {};
      var todo := scanMap.Keys;
      removed := 0;
      while todo != {}
        invariant todo <= start.Keys
        invariant forall ip :: ip in scanMap <==> ip in start && (ip in todo || Fresh(start[ip], now, maxAge))
        invariant forall ip :: ip in scanMap ==> scanMap[ip] == start[ip]
        invariant forall ip :: ip in gone <==> ip in start && ip !in todo && !Fresh(start[ip], now, maxAge)
        invariant removed == |gone|
        invariant alertCooldown == old(alertCooldown)
        decreases |todo|
      {
        var ip :| ip in todo;
        if !Fresh(scanMap[ip], now, maxAge) {
          scanMap := scanMap - {ip};
          removed := removed + 1;
          gone := gone + {ip};
        }
        todo := todo - {ip};
      }
      assert scanMap == KeptHistories(start, now, maxAge);
      assert gone == Evicted(start, now, maxAge);
      alertCooldown := KeptCooldowns(alertCooldown, now, maxAge);
    }
  }
}
