// What every component shares: the port record (pkg/port/port.go, pkg/protocol/protocol.go).
module PortTypes {

  datatype Protocol = TCP | UDP | ARP

  // Banner, TLS and service details never influence scheduling or recording.
  datatype Port = Port(number: int, protocol: Protocol)

  // uint32 arithmetic is modulo this.
  const WORD: nat := 0x1_0000_0000

  datatype Option<+T> = None | Some(value: T)

  ghost predicate DistinctNumbers(ports: seq<Port>) {
    forall i, j :: 0 <= i < j < |ports| ==> ports[i].number != ports[j].number
  }
}
