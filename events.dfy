/** The parsed event every log format is turned into (`LogEntry` of parser/mod.rs). */
module Events {
  import opened Prelude
  import Ipv4

  /**
   * A relevant firewall event: who sent the packet, which port it was aimed at
   * and the lower-cased action the firewall reported. The wall-clock timestamp
   * the parsers attach is never read downstream and is not modelled.
   */
  datatype LogEntry = LogEntry(sourceIp: Ipv4.IpAddr, destPort: u16, action: string)
}
