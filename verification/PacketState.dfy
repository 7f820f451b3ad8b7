/** The state a P4 control works on: the headers, the metadata, where the packet
    is to leave and whether it is dropped. */
module PacketState {
  import opened WireFormat
  import opened HeaderStack

  /** The metadata fields that decide anything; the lookup keys that only feed
      selectors and user ACLs are not kept. */
  datatype Meta = Meta(vxlanType: bv2, egrPipeline: bv3, withinCluster: bv1, betweenCluster: bv1,
                       haveSharedBd: bv1, bandwidthId: bv32, innerChecksumEn: bool)

  /** Metadata starts at zero; the parser sets the VXLAN type. */
  function FreshMeta(vxlanType: bv2): Meta {
    Meta(vxlanType, 0, 0, 0, 0, 0, false)
  }

  /** What an invalid header holds when it is made valid: P4 leaves it open, so
      every theorem quantifies over it. */
  datatype Residue = Residue(bridge: Bridge, ethernet: Ethernet, fabric: Fabric, cpu: Cpu, ipv4: Ipv4, udp: Udp,
                             vxlan: Vxlan, innerEthernet: Ethernet, innerIpv4: Ipv4, payloadLen: bv16)

  datatype State = State(hdr: Headers, meta: Meta, port: nat, drop: bool)

  class Phv {
    var hdr: Headers
    var meta: Meta
    var port: nat
    var drop: bool

    constructor (s: State)
      ensures Value() == s
    {
      hdr, meta, port, drop := s.hdr, s.meta, s.port, s.drop;
    }

    function Value(): State
      reads this
    {
      State(hdr, meta, port, drop)
    }
  }
}
