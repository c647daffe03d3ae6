/** Spoofed probes. */
module SpoofTypes {
  import opened Common

  /** A received probe; `body` stands for the fields the protocol carries along unread. */
  datatype Probe = Probe(id: uint32, sender: uint32, body: nat)
}
