# Port-scan detector: a verified model

The system is an intrusion detector for network port scans. Firewalls send
their logs to it over UDP. Each datagram may hold several log lines. Every
line goes through the configured log parser:

- the Check Point Gaia raw format, recognised by a regular expression;
- or ArcSight CEF, the `|`-separated header followed by `key=value` pairs.

A dropped (or, for CEF, denied) connection becomes a `LogEntry` holding the
source address, the destination port and the action. The entry is then
recorded in a shared store of per-source scan histories. The detector counts
the distinct ports that source touched in a fast window (seconds) and in a
slow window (minutes). A count strictly above its threshold is a fast scan,
a slow scan, or both.

A detection from a source that is not in its alert cooldown does three
things: it restarts the cooldown, it sends a CEF alert to the SIEM over UDP,
and, when email is enabled, it sends an email. A periodic task sweeps the
store. It drops every history whose every event is older than the slow
window plus two minutes, and every cooldown at least that old.

The model is split into one Dafny module per part of the program:

- `Prelude`: `Option`, the unsigned widths.
- `Text`: the string operations of Rust's standard library that the program
  relies on (`trim`, `splitn`, `trim_start_matches`,
  `parse::<uN>`, `format!("{}")` of numbers, `to_lowercase`), plus the greedy
  character-class runs of the regular expressions.
- `Ipv4`: parsing and printing source addresses.
- `Events`: `LogEntry`.
- `Gaia`, `Cef`: the two parsers.
- `Parser`: the factory and the dispatch through the `LogParser` interface.
- `Config`: the configuration records and the values derived from them.
- `State`: the shared store, both as the class `SharedState`, whose methods
  update its two maps in place, and as the pure functions that specify them.
- `Detector`: the classification.
- `Alert`: the CEF alert message, the email subject and what `send_alerts`
  delivers.
- `Ingest`: `str::lines` over a datagram, the per-packet loop
  (`process_packet`) and the cleanup tick.

Time is a monotonic clock reading in nanoseconds (`Instant`). The program
reads the clock itself; the model passes the reading in as a parameter.

## Model

| member | source | states |
|---|---|---|
| State.WindowPorts | src/state.rs:104-118 | the set of distinct ports in a window has no more elements than the history has events |
| State.WindowPortsMembers | src/state.rs:109-117 | a port is counted exactly when some event of the history names it and is at most `window` old (`<=`, inclusive) |
| State.WindowPortsNone | src/state.rs:104-118 | a history with no event inside the window counts no port |
| State.WindowPortsMonotone | src/state.rs:109-117 | a wider window counts a superset of ports |
| State.UniquePorts | src/state.rs:96-121 | an unknown source has 0 ports; a known one never more than its number of events |
| State.UniquePortsMonotone | src/state.rs:96-121 | the distinct-port count never decreases as the window widens |
| State.RecordedCount | src/state.rs:75-83 | after recording (ip, port) at `now`, the source's count in any window rises by exactly one, unless that port was already inside the window, when it stays the same |
| State.RecordedElsewhere | src/state.rs:75-83 | recording for one source leaves every other source's count unchanged |
| State.MarkedCooldown | src/state.rs:128-140 | after `mark_alerted` at `at`, the source is in cooldown at `now` exactly when `now - at` is strictly less than the cooldown; at the moment of marking it is in cooldown exactly when the cooldown is non-zero |
| State.InCooldown | src/state.rs:128-135 | definition: the source has a cooldown slot and strictly less than the cooldown has passed since it; State.MarkedCooldown and Ingest.FeedRespectsCooldown state its consequences |
| State.Recorded | src/state.rs:75-83 | definition: the source's history with (port, now) appended, a new source starting with just that event; State.RecordedCount and State.RecordedElsewhere state what it does to the counts |
| State.CleanupPartition | src/state.rs:150-167 | the kept histories plus the evicted sources are exactly the sources there were, so the count the sweep returns equals the number of entries it removed |
| State.TrackedCountsNewest | src/state.rs:75-83 | in a store whose histories are all non-empty (every entry is created by a push), a tracked source counts at least one port over any window that reaches its newest event, as the filter at src/state.rs:104-117 keeps it, and a sweep with that window as its age limit keeps its history |
| State.CleanupNonEmpty | src/state.rs:157-167 | every history the sweep keeps is non-empty |
| State.CleanupKeepsCounts | src/state.rs:150-167 | for any window no longer than the sweep's age limit, the sweep leaves every source's distinct-port count unchanged |
| State.CleanupKeepsCooldown | src/state.rs:170-172 | for a cooldown no longer than the age limit, the sweep does not change whether a source is in cooldown |
| State.CleanupEndsLongCooldown | src/state.rs:170-172 | for a cooldown longer than the age limit, there is a source still in cooldown that the sweep takes out of cooldown (`<` in the retain, so an entry exactly `max_age` old is dropped) |
| State.KeptHistories | src/state.rs:157-167 | definition: the histories with at least one event no older than the age limit; State.CleanupPartition, State.CleanupNonEmpty and State.CleanupKeepsCounts state its properties |
| State.KeptCooldowns | src/state.rs:170-172 | definition: the cooldown slots strictly younger than the age limit; State.CleanupKeepsCooldown and State.CleanupEndsLongCooldown state its properties |
| State.SharedState.constructor | src/state.rs:59-64 | the store starts with both maps empty |
| State.SharedState.RecordEvent | src/state.rs:75-83 | the source's history gains the event (port, now) at its end, a new source starting with just that event; the cooldowns are unchanged |
| State.SharedState.MarkAlerted | src/state.rs:138-140 | the source's cooldown slot becomes `now`, and nothing else changes |
| State.SharedState.CleanupOldEntries | src/state.rs:150-175 | keeps exactly the histories with some event at most `max_age` old, and the cooldowns strictly younger than `max_age`; returns the number of histories removed |
| Detector.Classify | src/detector.rs:62-85 | a threat exactly when a count is strictly above its threshold; fast-only, slow-only and both are told apart correctly, and each variant carries the counts and window it reports |
| Detector.Evaluate | src/detector.rs:52-86 | a threat exactly when the distinct-port count over the fast window exceeds the fast threshold, or the count over the slow window (minutes times 60) exceeds the slow threshold |
| Detector.DetectionResult.IsThreat | src/detector.rs:90-92 | definition: every result but `Clean` is a threat; Detector.Evaluate states when a threat is reported |
| Detector.DetectionResult.ScanTypeLabel | src/detector.rs:95-102 | the label is "CLEAN" exactly for a clean result; Detector.LabelsDistinct shows the four labels differ |
| Detector.ThresholdsStrict | src/detector.rs:62-63 | counts equal to both thresholds are clean |
| Detector.ClassifyMonotone | src/detector.rs:62-85 | more ports never turn a threat into a clean result |
| Detector.LabelsDistinct | src/detector.rs:95-102 | two results share a scan-type label exactly when they are the same variant, and only `Clean` is labelled "CLEAN" |
| Detector.SlowWindowCoversFast | src/detector.rs:54-59 | when the fast window is no longer than the slow one, the fast count never exceeds the slow count |
| Config.SlowScanWindowSecs | src/config.rs:120-122 | the slow window in seconds is a multiple of 60 whose quotient is the configured minutes |
| Config.ListenerAddr | src/config.rs:110-112 | definition: `<bind_address>:<port>`; Config.ListenerAddrRoundTrip reads it back |
| Config.SiemAddr | src/config.rs:115-117 | definition: `<address>:<port>`; Config.SiemAddrRoundTrip reads it back |
| Config.HostPortRoundTrip | src/config.rs:110-117 | a `host:port` string reads back, split at its last `:`, as the host and port it was built from |
| Config.ListenerAddrRoundTrip | src/config.rs:110-112 | the listener address reads back as the bind address and port |
| Config.SiemAddrRoundTrip | src/config.rs:115-117 | the SIEM address reads back as the SIEM host and port |
| Text.Span | src/parser/gaia.rs:46 | a greedy character-class run: every character before the returned end is in the class, and the character at the end (if any) is not |
| Text.SpanUnique | src/parser/gaia.rs:46 | any run of class characters that ends before a non-class character is the greedy run |
| Text.FindFrom | parser/cef.rs:55-57 | the position returned is where the pattern occurs, with no earlier occurrence; no result means no occurrence at all |
| Text.TrimStart | src/parser/gaia.rs:84 | drops exactly a leading run of whitespace and leaves a string that does not start with whitespace |
| Text.TrimEnd | src/parser/gaia.rs:84 | drops exactly a trailing run of whitespace and leaves a string that does not end with whitespace |
| Text.Trim | src/parser/gaia.rs:84 | the trimmed line is no longer than the line, and is empty or has non-whitespace at both ends |
| Text.TrimFixed | src/parser/gaia.rs:84 | a string without whitespace at either end is unchanged by trimming |
| Text.TrimIdempotent | src/parser/gaia.rs:84 | trimming twice is trimming once |
| Text.TrimBlank | src/parser/gaia.rs:84-87 | an all-whitespace line trims to the empty string |
| Text.ToLowerIdempotent | src/parser/gaia.rs:98 | lower-casing twice is lower-casing once |
| Text.Decimal | src/alert.rs:98-101 | the rendering of a number is canonical (no leading zero), with one digit exactly for numbers below 10 |
| Text.ValueOfDecimal | src/alert.rs:98-101 | the digits of a rendered number have that number as their value |
| Text.DecimalOfValue | src/parser/gaia.rs:112 | a canonical digit string is the rendering of its own value |
| Text.ParseUnsigned | src/parser/gaia.rs:112 | a parsed number never exceeds the type's maximum; a non-empty digit string parses to its value when that is at most the maximum, and fails otherwise |
| Text.ParseOutOfRange | src/parser/gaia.rs:112 | the decimal rendering of a number above the maximum does not parse |
| Text.ParseDecimal | src/parser/gaia.rs:112 | rendering a number within range and parsing it back yields the number |
| Text.FindChar | parser/cef.rs:64 | the index found holds the character |
| Text.FindCharFirst | parser/cef.rs:64 | the index found is the first occurrence, and nothing is found exactly when the character is absent |
| Text.RFindChar | src/config.rs:115-117 | the index found holds the character with none after it; nothing is found exactly when it is absent |
| Text.SplitN | parser/cef.rs:64 | `splitn(n)` yields between 1 and `n` pieces |
| Text.SplitNJoin | parser/cef.rs:64 | joining the pieces of `splitn` with the separator gives the line back |
| Text.SplitNCount | parser/cef.rs:64-68 | `splitn(n)` yields `n` pieces exactly when the separator occurs at least `n - 1` times |
| Text.SplitNTerminated | parser/cef.rs:64 | splitting separator-free pieces, each followed by the separator, and then a rest gives back the pieces and the rest |
| Text.TerminatedCount | parser/cef.rs:64-68 | separator-free pieces, each followed by the separator, hold one separator per piece |
| Text.TrimStartMatches | parser/cef.rs:71-72 | what is left is a suffix of the input that no longer starts with the pattern |
| Text.TrimStartMatchesOnce | parser/cef.rs:71-74 | a pattern that occurs once at the front is stripped, leaving the rest |
| Ipv4.ReadOctet | src/parser/gaia.rs:109 | an octet read consumes at least one character and stays within the string |
| Ipv4.ReadGroups | src/parser/gaia.rs:109 | reading `n` dot-separated octets yields exactly `n` values |
| Ipv4.ReadGroupsDotted | src/parser/gaia.rs:109 | the dotted rendering of any octets reads back as those octets |
| Ipv4.ReadGroupsSpell | src/parser/gaia.rs:109 | a string that reads as octets is exactly their dotted rendering (no leading zeros, no extra characters) |
| Ipv4.Parse | src/parser/gaia.rs:109 | definition: exactly four octets and nothing after them; Ipv4.ParseIffFormat states which strings parse |
| Ipv4.Format | src/alert.rs:71-73 | the dotted-decimal rendering of an address is non-empty and holds only digits and dots; Ipv4.ParseIffFormat shows it parses back |
| Ipv4.ParseIffFormat | src/parser/gaia.rs:109 | a string parses to an address exactly when it is that address's dotted-decimal rendering |
| Ipv4.DottedChars | src/parser/gaia.rs:46 | a rendered address consists only of digits and dots, the characters the source-address group captures |
| Gaia.PortAt | src/parser/gaia.rs:46 | `service:\s*(\d+)` matches at the front exactly when `service:` and optional whitespace are followed by a digit; the capture is a non-empty digit run |
| Gaia.LazyPort | src/parser/gaia.rs:46 | a port found by the lazy `.*?service:` search is a non-empty digit run |
| Gaia.MatchFront | src/parser/gaia.rs:46 | a match anchored at a position starts with `Checkpoint:`, and its captures are a non-empty word, a non-empty run of digits and dots, and a non-empty digit run |
| Gaia.Search | src/parser/gaia.rs:91 | a match captures a non-empty word as the action, a non-empty run of digits and dots as the source and non-empty digits as the port; Gaia.SearchLeftmost and Gaia.SearchNone show it is the leftmost match |
| Gaia.Parse | src/parser/gaia.rs:82-122 | every accepted entry has the action "drop" |
| Gaia.SearchLeftmost | src/parser/gaia.rs:91 | the search returns the match at the leftmost position where the pattern matches |
| Gaia.SearchNone | src/parser/gaia.rs:91 | the search fails exactly when the pattern matches at no position |
| Gaia.ParseTrim | src/parser/gaia.rs:84 | parsing a trimmed line is parsing the line |
| Gaia.ParseBlank | src/parser/gaia.rs:84-87 | a blank line is rejected |
| Gaia.LazyPortSkip | src/parser/gaia.rs:46 | the lazy search passes over text that holds no `s` and no newline |
| Gaia.PortAtDigits | src/parser/gaia.rs:46 | `service: ` followed by digits and then a non-digit captures exactly those digits |
| Gaia.LazyPortLogLine | src/parser/gaia.rs:46 | in the firewall's line format, the lazy search captures exactly the destination port's digits |
| Gaia.LazyPortDigits | src/parser/gaia.rs:46 | after the fixed `proto: tcp; service: ` middle, the lazy search captures exactly the digits that follow |
| Gaia.MatchFrontFields | src/parser/gaia.rs:46 | `Checkpoint: <word> <digits-and-dots>` followed by a non-class character is matched with exactly those captures |
| Gaia.SearchAfterPrefix | src/parser/gaia.rs:91 | a prefix that holds no `Checkpoint:` does not change what the search finds |
| Gaia.LogLineTrimmed | src/parser/gaia.rs:84 | a firewall line whose prefix does not start with whitespace is its own trim |
| Gaia.SearchLogLine | src/parser/gaia.rs:91 | on a firewall line, the search captures the action, the printed address and the port digits |
| Gaia.ParseLogLine | src/parser/gaia.rs:82-122 | a firewall line is accepted exactly when its action lower-cases to "drop" and its port digits are at most 65535, and then yields its own address and that port |
| Gaia.ParseLogLinePort | src/parser/gaia.rs:82-122 | a firewall line naming a 16-bit port is accepted exactly when its action is a drop, and yields that port |
| Gaia.ParseLogLineOutOfRange | src/parser/gaia.rs:112 | a firewall line naming a port above 65535 is rejected, whatever its action |
| Gaia.ParsePortOutOfRange | src/parser/gaia.rs:112 | any line whose captured port is above 65535 is rejected |
| Gaia.ParseBadAddress | src/parser/gaia.rs:109 | a captured source that is not an IPv4 address rejects the line |
| Gaia.ParseFirstMatchOnly | src/parser/gaia.rs:91-109 | only the first match is tried: a first `Checkpoint:` with a source that is not an address rejects the line, whatever follows |
| Gaia.ExampleLineAccepted | src/parser/gaia.rs:82-122 | the firewall line for 10.0.0.5, port 80, action drop, is accepted as (10.0.0.5, 80, "drop") |
| Gaia.ExampleFirstMatchOnly | src/parser/gaia.rs:91-109 | `Checkpoint: drop 10.0.0 ...` followed by that accepted line is rejected |
| Cef.ParseHeader | parser/cef.rs:62-85 | a header is only accepted from a line with at least seven `\|` |
| Cef.IsCef | parser/cef.rs:55-57 | definition: the line starts with `CEF:` once leading whitespace is removed; Cef.PrefixedRecordRejected shows what it rejects |
| Cef.Severity | parser/cef.rs:83 | definition: the trimmed field as a `u8`, or 5 when it is not one; Cef.SeverityNeverRejects shows a bad severity never rejects the header |
| Cef.Capture | parser/cef.rs:32-39 | a `key=value` capture is a non-empty run of the key's class |
| Cef.Parse | parser/cef.rs:93-140 | an accepted line, once trimmed, starts with `CEF:` and has a valid header; the action is "drop" or "deny" |
| Cef.ParseHeaderFields | parser/cef.rs:62-85 | seven `\|`-free fields each followed by `\|` give the header: a version parsed from the first field (rejected when not a `u8`), the five text fields, and the severity |
| Cef.ParseHeaderRecord | parser/cef.rs:70-74 | a header starting `CEF:<version>` yields that version |
| Cef.SeverityNeverRejects | parser/cef.rs:83 | a severity that does not parse never rejects the header (it defaults to 5) |
| Cef.ParseHeaderShort | parser/cef.rs:64-68 | a line with fewer than seven `\|` has no header |
| Cef.CaptureFront | parser/cef.rs:32-39 | a key followed by a run of its class and then a non-class character captures exactly that run |
| Cef.CaptureSkip | parser/cef.rs:32-39 | text without the key before its first occurrence does not change the capture |
| Cef.CaptureAbsent | parser/cef.rs:32-39 | a line without the key captures nothing |
| Cef.ParseTrim | parser/cef.rs:94 | parsing a trimmed line is parsing the line |
| Cef.ParseWithoutAction | parser/cef.rs:122-132 | a line without `act=` is rejected (its action defaults to "unknown") |
| Cef.ParseWithoutSource | parser/cef.rs:107-112 | a line with no `src=` key is rejected |
| Cef.ParseWithoutPort | parser/cef.rs:114-119 | a line with no `dpt=` key is rejected |
| Cef.ParseBadSource | parser/cef.rs:107-112 | a `src=` value that is not an IPv4 address rejects the line |
| Cef.PrefixedRecordRejected | parser/cef.rs:93-99 | as written: a record behind any prefix that starts neither with whitespace nor with `CEF:` is rejected |
| Cef.ParsePortOutOfRange | parser/cef.rs:114-119 | a line whose `dpt=` value is above 65535 is rejected |
| Cef.RecordSrc | parser/cef.rs:107-112 | in a record, `src=` captures the printed source address |
| Cef.RecordDpt | parser/cef.rs:114-119 | in a record, `dpt=` captures the printed port |
| Cef.RecordAct | parser/cef.rs:122-126 | in a record, `act=` captures the action word |
| Cef.RecordTrimmed | parser/cef.rs:94 | a record that ends in a non-whitespace character is its own trim |
| Cef.ParseRecord | parser/cef.rs:93-140 | a well-formed record is accepted exactly when its action lower-cases to "drop" or "deny", and then yields its own address, port and lower-cased action |
| Cef.ParseSyslog | parser/cef.rs:93-140 | corrected parser: every accepted entry is a drop or a deny |
| Cef.ParseSyslogAgrees | parser/cef.rs:93-140 | on a line that starts with `CEF:` after trimming, the corrected parser and the parser as written agree |
| Cef.ParseSyslogTrim | parser/cef.rs:94 | the corrected parser gives the same result on a trimmed line |
| Cef.ParseSyslogBlank | parser/cef.rs:94-99 | the corrected parser rejects a blank line |
| Cef.FirstPrefixAfter | parser/cef.rs:55-57 | in a prefix without `CEF:` followed by a record, the first `CEF:` is where the record starts |
| Cef.ParseSyslogPrefixed | parser/cef.rs:93-140 | the corrected parser reads a line with a syslog prefix as the parser as written reads the bare record |
| Cef.ExamplePrefixedRejected | parser/cef.rs:93-99 | as written, "Nov 20 15:30:00 fw CEF:0\|Vendor\|Prod\|1.0\|sig\|Name\|5\|src=10.0.0.5 dpt=80 act=Drop" is rejected |
| Cef.ExampleRecordParsed | parser/cef.rs:93-140 | the same record without its prefix yields (10.0.0.5, 80, "drop") |
| Cef.ExamplePrefixedRecord | parser/cef.rs:93-140 | the corrected parser reads the prefixed line as (10.0.0.5, 80, "drop") |
| Parser.CreateParser | parser/mod.rs:80-93 | the CEF parser is built exactly when the lower-cased setting is "cef"; a warning is printed exactly when it is neither "gaia" nor "cef" (and Gaia is used) |
| Parser.Parse | parser/mod.rs:53-69 | an entry from either parser is a drop, or a deny from the CEF parser; the CEF side is the parser as written |
| Parser.ParseGaiaLine | parser/mod.rs:53-69 | the Gaia parser reads a firewall line as its address and port exactly when the action is a drop and the port fits in 16 bits |
| Parser.ParseCefRecord | parser/mod.rs:53-69 | the CEF parser reads a record as its `src=` address, `dpt=` port and lower-cased action exactly when that action is a drop or a deny |
| Parser.CreateParserIgnoresCase | parser/mod.rs:81 | the setting selects the same parser as its lower-cased form |
| Parser.ParseTrimmed | src/main.rs:196-210 | trimming a line before handing it to the parser does not change the result |
| Parser.ParseBlank | src/main.rs:197-200 | a blank line yields no entry |
| Alert.BuildAlertMessage | src/alert.rs:62-102 | the alert message holds exactly seven more `\|` than its timestamp |
| Alert.SignatureId | src/alert.rs:66-93 | definition: IDS001, IDS002 or IDS003 by scan kind; Alert.SignaturesDistinct and Alert.RecordHeader state its properties |
| Alert.Title | src/alert.rs:66-93 | definition: the event name of each scan kind; Alert.RecordHeader reads it back from the header |
| Alert.Severity | src/alert.rs:66-93 | definition: 8, 6 or 9 by scan kind; Alert.SignaturesDistinct and Alert.RecordHeader state its properties |
| Alert.AlertRecord | src/alert.rs:97-101 | definition: the CEF record after the host name; Alert.RecordBars, Alert.RecordHeader, Alert.AlertSource and Alert.AlertKind, Alert.AlertSecond and Alert.AlertThird state what it carries |
| Alert.RecordBars | src/alert.rs:98-101 | the CEF record of an alert holds exactly seven `\|` |
| Alert.FieldsPlain | src/alert.rs:66-101 | no header field of the alert holds `\|` or `=` |
| Alert.MessageSuffix | src/alert.rs:98-101 | after the timestamp, the hostname and two spaces, the message is the CEF record |
| Alert.RecordHeader | src/alert.rs:98-101 | the alert's own CEF header parses back to version 0, the vendor, product and version strings, the signature, the title and the severity |
| Alert.AlertHeader | src/alert.rs:98-101 | the header of the message as sent parses back the same way |
| Alert.AlertSource | src/alert.rs:71-73 | `src=` in the alert captures the printed source address, which parses back to the source |
| Alert.AlertKind | src/alert.rs:66-93 | `cs1=` in the alert captures the scan kind: FastScan, SlowScan or FastAndSlowScan |
| Alert.AlertSecond | src/alert.rs:66-93 | `cs2=` in the alert captures the unique ports of a fast or slow scan, or the fast port count of a combined one |
| Alert.AlertThird | src/alert.rs:66-93 | `cs3=` in the alert captures the window (seconds or minutes) of a fast or slow scan, or the slow port count of a combined one |
| Alert.AlertReadBack | src/alert.rs:62-102 | the record in the built message carries the source under `src=`, the scan kind under `cs1=` and its two numbers under `cs2=` and `cs3=` |
| Alert.SignaturesDistinct | src/alert.rs:66-93 | two alerts share a signature id exactly when they share a severity, and exactly when they have the same scan type |
| Alert.EmailSubject | src/alert.rs:168 | definition: `[IDS ALERT] <label> detectat de la <ip>`; Alert.EmailSubjectReadBack reads it back |
| Alert.EmailSubjectReadBack | src/alert.rs:168 | the email subject reads back as the scan-type label and the source address |
| Alert.SendAlerts | src/alert.rs:35-54 | one SIEM datagram to the SIEM address whose payload is exactly BuildAlertMessage of the timestamp, the source and the result (so its content reads back by Alert.AlertReadBack), then an email to the configured recipient exactly when email is enabled, with the subject above and a body that contains the same message |
| Ingest.Lines | src/main.rs:196 | no line holds a newline |
| Ingest.LinesOfTerminated | src/main.rs:196 | newline-free pieces, each followed by a newline, and then a last piece come back as those pieces, and the last one only if it is non-empty |
| Ingest.Entries | src/main.rs:196-210 | a packet yields at most one entry per line |
| Ingest.EntriesAppend | src/main.rs:196-210 | the entries of two runs of lines are those of the first followed by those of the second |
| Ingest.FeedAppend | src/main.rs:196-250 | feeding two runs of entries is feeding the first and then the second to the store it left, with the alerts in that order |
| Ingest.Apply | src/main.rs:216-246 | definition: record the event, evaluate, and when it is a threat outside the cooldown, mark the source and dispatch; Ingest.ProcessEntry is proved equal to it |
| Ingest.Feed | src/main.rs:196-250 | definition: Ingest.Apply over the entries in order; Ingest.ProcessPacket is proved equal to it, and Ingest.FeedOncePerSource, Ingest.FeedRespectsCooldown and Ingest.AlertAfterCooldown state its properties |
| Ingest.ParseLine | src/main.rs:197-210 | the loop's trim-and-skip-blank followed by parsing gives exactly the configured parser's verdict on the raw line |
| Ingest.ProcessEntry | src/main.rs:216-246 | record, evaluate, and when it is a threat outside the cooldown, mark and dispatch: the new store and the dispatch are exactly one application of the entry |
| Ingest.ProcessLine | src/main.rs:196-250 | one loop iteration changes the store and dispatches exactly as feeding the line's entries |
| Ingest.ProcessPacket | src/main.rs:187-251 | the store after the packet and the alerts dispatched are those of feeding the entries of the packet's lines, in order |
| Ingest.FeedOncePerSource | src/main.rs:222-224 | with a non-zero cooldown, every alert of a packet is a threat whose source's cooldown now holds `now`, and no source is alerted twice |
| Ingest.FeedRespectsCooldown | src/main.rs:222 | a source in cooldown is never alerted, and its cooldown slot is left as it was |
| Ingest.AlertAfterCooldown | src/main.rs:219-224 | once the cooldown has run out, an entry is dispatched exactly when, with its event recorded, a count exceeds its threshold |
| Ingest.CleanupHorizon | src/main.rs:111 | the sweep's age limit is the slow window in seconds plus 120 |
| Ingest.CleanupTick | src/main.rs:113-125 | one tick sweeps the store with that age limit and reports the number of histories removed |
| Ingest.SweepKeepsDetection | src/main.rs:111-120 | when the fast window is no longer than the age limit, the sweep never changes a detection |
| Ingest.SweepAndCooldown | src/main.rs:111-120 | a cooldown no longer than the age limit survives the sweep; a longer one can be ended early by it |

## Left out

- Concurrency: the store's maps are `DashMap`s shared between tasks. The model runs packets and sweeps one at a time, so the interleaving of concurrent packet tasks and the cleanup task is not modelled.
- I/O: the UDP receive loop, the SIEM socket and SMTP delivery are not modelled. `SendAlerts` returns the deliveries it would attempt. Whether a send succeeds only chooses what is logged, so that is left out too.
- Clocks: `Instant::now()` and the UTC timestamps are parameters. Ingest.ProcessPacket takes one reading `now` per datagram and uses it for every event in it. The program instead reads the clock separately in `record_event` (src/state.rs:81), `unique_ports_in_window` (src/state.rs:98), `is_in_cooldown` (src/state.rs:132) and `mark_alerted` (src/state.rs:139). Those readings can be later than the model's `now`. So at the edge of a window (the inclusive `<=` at src/state.rs:114) or of a cooldown (the strict `<` at src/state.rs:132), the program can count one event fewer, or end a cooldown earlier, than the model does. The cooldown slot it stores can also be a later instant. Events are still recorded in time order in both.
- Ingest.FeedOncePerSource: holds only under the one clock reading per datagram. In the program, `mark_alerted` reads the clock (src/state.rs:139). `send_alerts` then awaits the SIEM socket and, when email is enabled, the SMTP relay (src/alert.rs:40, 48, 184-187). A later line of the same datagram then calls `is_in_cooldown` with a fresh reading (src/state.rs:132). With an `alert_cooldown_secs` shorter than that delay, the program alerts the same source twice in one datagram, which the model's `Feed` never does.
- Decoding: `String::from_utf8_lossy` (src/main.rs:157) is not modelled; a packet is given as text.
- Console and log output (`display`) is not modelled. Ingest.Dispatch records what is shown and sent.
- `Config::load` (reading and deserialising the TOML file) is not modelled. The configuration is a value.
- `LogEntry.timestamp`, the parse time, is never read after parsing and is not modelled.
- Character classes: `\d`, `\w` and `to_lowercase` are modelled on ASCII only. Unicode digits, letters and case mappings outside ASCII are not covered. `\s` and `trim` use the full Unicode White_Space list.
- `IpAddr`: only IPv4 is modelled. Both parsers capture only digits and dots, so an IPv6 address can never be parsed.
- Config.SlowScanWindowSecs: requires that `slow_scan_window_mins * 60` fits in a `u64` (`SlowWindowFits`). The program would overflow otherwise. Ingest.CleanupHorizon adds the same requirement for `+ 120` (`HorizonFits`).
- State.SharedState.UniquePortsInWindow and State.SharedState.IsInCooldown read the store and delegate to State.UniquePorts and State.InCooldown. Their properties are stated on those functions.
- The parser and the detector reach Ingest.Feed as function values (`ParserOf`, `Evaluator`). The lemmas about Feed hold for any parser and any detector.
- `LogParser::name` is modelled as Parser.Name, two constant strings with no property to state.
- Alert.EmailBody: the email body is modelled as its literal text. Only the fact that it contains the CEF message is stated.

## Findings

| source | as written | input that shows it | evidently intended | confidence | as-written member | corrected member |
|---|---|---|---|---|---|---|
| parser/cef.rs:93-99 | `is_cef` requires the trimmed line to start with `CEF:` (lines 55-57). `parse_header` would also fail behind a prefix: `trim_start_matches("CEF:")` leaves the prefix in the version field (lines 71-74). So every CEF line with a syslog prefix is rejected. | `Nov 20 15:30:00 fw CEF:0\|Vendor\|Prod\|1.0\|sig\|Name\|5\|src=10.0.0.5 dpt=80 act=Drop` | Parse the record from its first `CEF:`, giving (10.0.0.5, 80, "drop"). The test generator in tester/tester.py:75-86 says that real CEF lines carry this prefix. | not executed | Cef.PrefixedRecordRejected, Cef.ExamplePrefixedRejected | Cef.ParseSyslogPrefixed, Cef.ExamplePrefixedRecord |

Cef.Parse is the parser as written, and Parser.Parse and the packet pipeline use it, so the model of the program rejects prefixed CEF lines just as the program does. Cef.ParseSyslog is the corrected parser, stated and proved beside it. Cef.ParseSyslogAgrees shows that the two agree on every line that has no prefix.
