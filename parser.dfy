/**
 * The parser factory: the listener's `parser` setting picks one of the two
 * `LogParser` implementations, and every packet line goes through the one
 * picked.
 */
module Parser {
  import opened Prelude
  import opened Text
  import opened Events
  import Ipv4
  import Gaia
  import Cef

  /** The two implementations of the `LogParser` interface. */
  datatype Kind = GaiaRaw | ArcSightCef

  /** What `create_parser` builds, and whether it warned about an unknown setting on stderr. */
  datatype Created = Created(kind: Kind, warned: bool)

  /**
   * `create_parser`: the setting is lower-cased; "cef" selects the CEF parser
   * and everything else the Gaia one, with a warning unless it was "gaia".
   */
  function CreateParser(parserType: string): (r: Created)
    ensures r.kind == ArcSightCef <==> ToLower(parserType) == "cef"
    ensures r.warned <==> ToLower(parserType) != "gaia" && ToLower(parserType) != "cef"
  {
    var t := ToLower(parserType);
    if t == "gaia" then Created(GaiaRaw, false)
    else if t == "cef" then Created(ArcSightCef, false)
    else Created(GaiaRaw, true)
  }

  /** `LogParser::name`. */
  function Name(k: Kind): string {
    match k
    case GaiaRaw => "Checkpoint Gaia Raw"
    case ArcSightCef => "ArcSight CEF"
  }

  /**
   * `LogParser::parse` through the trait object: the result depends only on
   * the parser kind and the line, and every accepted entry is a drop or a deny
   * (only the CEF parser reports "deny"). The CEF side is the parser as
   * written, which rejects records behind a syslog prefix (see the README's
   * findings for `Cef.ParseSyslog`, the corrected parser).
   */
  function Parse(k: Kind, line: string): (r: Option<LogEntry>)
    ensures r.Some? ==> r.value.action == "drop" || (k == ArcSightCef && r.value.action == "deny")
  {
    match k
    case GaiaRaw => Gaia.Parse(line)
    case ArcSightCef => Cef.Parse(line)
  }

  /**
   * The Gaia parser picked by the factory reads a firewall line as the
   * address and port it names, exactly when its action is a drop and its
   * port fits in 16 bits.
   */
  lemma {:induction false} ParseGaiaLine(pre: string, action: string, ip: Ipv4.IpAddr, digits: string, sport: nat)
    requires Free(pre, Gaia.Tag) && (pre == [] || !IsWhitespace(pre[0]))
    requires action != [] && AllIn(action, Word)
    requires digits != [] && AllIn(digits, Digit)
    ensures Parse(GaiaRaw, Gaia.LogLine(pre, action, ip, digits, sport))
      == if ToLower(action) == "drop" && DigitsValue(digits) <= U16Max
         then Some(LogEntry(ip, DigitsValue(digits) as u16, "drop")) else None
  {
    Gaia.ParseLogLine(pre, action, ip, digits, sport);
  }

  /**
   * The CEF parser picked by the factory reads a record as the address, port
   * and lower-cased action it names, exactly when that action is a drop or a
   * deny.
   */
  lemma {:induction false} ParseCefRecord(version: u8, fields: seq<string>, ip: Ipv4.IpAddr, gap: string, port: u16, action: string, more: string)
    requires |fields| == 6 && forall i :: 0 <= i < 6 ==> '|' !in fields[i] && '=' !in fields[i]
    requires gap != [] && gap[0] == ' ' && Free(gap, Cef.DptKey) && Free(gap, Cef.ActKey)
    requires action != [] && AllIn(action, Word)
    requires more == [] || (more[0] == ' ' && !IsWhitespace(more[|more| - 1]))
    ensures Parse(ArcSightCef, Cef.Record(version, fields, Cef.Extension(ip, gap, port, action, more)))
      == if ToLower(action) == "drop" || ToLower(action) == "deny"
         then Some(LogEntry(ip, port, ToLower(action))) else None
  {
    Cef.ParseRecord(version, fields, ip, gap, port, action, more);
  }

  /** The setting is case-insensitive: it selects the same parser as its lower-cased form. */
  lemma {:induction false} CreateParserIgnoresCase(parserType: string)
    ensures CreateParser(parserType) == CreateParser(ToLower(parserType))
  {
    ToLowerIdempotent(parserType);
  }

  /** Either parser trims first, so trimming a line before handing it over changes nothing. */
  lemma {:induction false} ParseTrimmed(k: Kind, line: string)
    ensures Parse(k, Trim(line)) == Parse(k, line)
  {
    match k
    case GaiaRaw => Gaia.ParseTrim(line);
    case ArcSightCef => Cef.ParseTrim(line);
  }

  /** An empty or all-whitespace line yields nothing, whichever parser reads it. */
  lemma {:induction false} ParseBlank(k: Kind, line: string)
    requires Trim(line) == []
    ensures Parse(k, line).None?
  {
    Gaia.ParseTrim(line);
    Cef.ParseTrim(line);
  }
}
