# An Internet gateway on a programmable switch, and what its traffic can rely on

The gateway's P4 programs classify traffic between the Internet and virtual
machines, tunnel it in VXLAN, meter it, and send packets that must be metered
elsewhere to other gateways of the cluster in a VXLAN variant of their own. A
control plane in C fills the tables, follows routes and neighbours, and watches
the ports. This project models both and proves what they promise.

- **Redirect protocol** (`Gateway`, `Redirect`, `RedirectHop`, `HopTheorem`,
  `RedirectedFrames`, `Frames`, `InnerAcceptance`, `RedirectProtocol`,
  `RedirectLimits`, `LimitedEips`, `RedirectExample`, `DlPeers`). One gateway is a function from
  bytes to bytes: parse, classify, translate, redirect, choose a pipe, loop back,
  rewrite, deparse. A network is any sequence of gateways with any tables, hashes
  and ACL outcomes. A redirect strictly lowers a rank, so a packet that reaches the
  gateways it is addressed to is redirected at most twice, and what it carries in
  the end is named exactly.
- **Bytes** (`Words`, `WireFormat`, `HeaderStack`, `PacketParsers`,
  `FrameParsing`, `Tunnel`, `TunnelAcceptance`, `CpuHeader`, `KnetFilter`). Four
  parser state machines, one emit order, encapsulation as in section 5 of RFC
  7348, and the CPU header that P4 builds and C strips, inserts and filters.
- **Tables** (`IpTypeInit`, `IpTypeTable`, `IngressShape`, `Classification`,
  `VipClash`, `Ecmp`, `PipeAffinity`, `PuntTable`, `DlPrefix`). The C
  initialisers refill keys in place; the ternary tables they leave are proved to
  decide as short functions say, for every packet the parser accepts.
- **Control plane** (`IntrusiveLists`, `HashTables`, `RouteAgent`,
  `NeighbourCache`, `NetlinkAttributes`, `PortMonitor`, `Transceivers`). Heap
  lists with `pprev`, hash tables over them, and state machines over whole runs
  of messages, polls and calls.
- **Metering** (`Metering`, `EgressDrops`, `MeteredEips`). Colours, counters, the
  drop mark and the egress ACL, over any run of packets and any meter answers, and
  which EIP's meter and counter a packet meets.

Controls, initialisers and loops are methods that assign header vectors, key
buffers, arrays and heap nodes; each is proved equal to a function, and the
theorems are lemmas about those functions. A hardware call succeeds or fails as
a parameter says. A header that P4 makes valid holds arbitrary contents (a
`Residue` parameter), and so do the meters' answers, the selector hashes and the
checksum unit.

Where the code does something other than it is meant to, the model follows the
code and the exact condition is a lemma:

- With equal VIPs two classification entries of one priority match a packet
  (`Classification.DeterministicIffVipsDiffer`, `VipClash.ClashIffVipsEqual`).
- A redirected packet at a gateway it is not addressed to is raw traffic again
  (`RedirectProtocol.UnderstoodIffAddressed`), so the bound of two needs delivery
  (`RedirectLimits.BoundNeedsDelivery`).
- The parser that feeds the encapsulation does not look behind IPv4 options, the
  one the encapsulated packet comes back through does: a packet cut inside its
  options or the L4 header behind them is put into the tunnel and lost there
  (`TunnelAcceptance.LostInLoopIff`, `TunnelAcceptance.CutPacketIsLost`).
- The two shared-bandwidth tables are filled separately; an odd EIP that is in one
  of them only has its raw and its redirected traffic metered in different pipes
  (`PipeAffinity.RawAndRedirectedMeetIff`).
- Colour and QoS bit-fields are declared in opposite order in C and P4
  (`CpuHeader.ColourAgreesIff`, `CpuHeader.ColourIsMisread`), and without bypass
  flags the port is stored without a byte swap (`CpuHeader.TxHeaderSays`).
- The list of DL addresses can run past 255.255.255.255
  (`DlPrefix.MembersInBlockIff`).
- The colour a packet starts with is nowhere set, so a RED one that meets no
  meter is counted and dropped as RED (`Metering.RedIffMeterSaidRed`).
- Marked packets are not always dropped: entries between the first priority and
  that of the installed one come first (`EgressDrops.InstalledDropIff`,
  `EgressDrops.MirrorSavesMarkedPacket`).
- Interfaces that share a port break the neighbour cache
  (`NeighbourCache.CoherentIffPortsDistinct`).

## Model

| member | source | states |
|---|---|---|
| RedirectProtocol.NoRedirectLoops | p4src/src/redirect.p4:64-97 | for any network of gateways, any tables and any packet: a packet delivered where it is addressed is redirected at most twice, every gateway on the way sees the direction the first one saw, and what it carries in the end is exactly the first inner packet after the SNAT tables of the gateways on its way; inbound it is the very packet, but for the IPv4 checksum raw traffic loses as it enters the tunnel |
| RedirectProtocol.PeerUnderstands | p4src/src/redirect.p4:189-220 | whatever a gateway sends on, every gateway with the same DL block, or owning the shared-bandwidth VIP, classifies with the same direction and scope and with `dl_pkt` set, so it is never put into the tunnel again |
| RedirectProtocol.UnderstoodIffAddressed | igw-h/init_setup/switchapi/switch_igw_ip_type_table.c:121-280 | a receiver takes a redirected frame for what its sender meant exactly when the frame is addressed to it as that scope is; any other receiver takes it for raw inbound traffic of the highest rank |
| DlPeers.PicksOwnBlockIff | igw-h/init_setup/switchapi/switch_eip_dl.c:48-73 | with the members the initialiser lists, a gateway redirects only into its own DL block (so that every peer sharing the block understands) if and only if the list does not run past 255.255.255.255 |
| HopTheorem.HopSends | p4src/pipe02/P02_ingress.p4:8-51 | for every packet and every outcome of hashes and tables: a gateway sends it on as redirected traffic if and only if the parser accepts it, the CPU does not take it, no ACL drops it, the entry of its EIP asks for a scope and its inner packet is complete; what it sends is a frame of the same direction and strictly lower rank, addressed to exactly that scope, around exactly the inner packet (with the SNAT source outbound, unchanged inbound, without its checksum when it was raw IPv4) |
| LimitedEips.OutboundIpv4SentIff | p4src/src/redirect.p4:144-254 | said of the packet and the tables alone: a frame delivered outbound around an IPv4 packet is sent on if and only if the source it has after SNAT has an outbound entry that asks for it at this stage (fresh: within or between clusters; from another cluster: within), and to where the entry says, at the DL address its bandwidth id picks |
| LimitedEips.OutboundIpv6SentIff | p4src/src/redirect.p4:144-254 | the same for IPv6: the inner source, without SNAT |
| LimitedEips.InboundIpv4SentIff | p4src/src/redirect.p4:21-131 | inbound, already in a tunnel: the inner IPv4 destination decides |
| LimitedEips.InboundIpv6SentIff | p4src/src/redirect.p4:21-131 | inbound, already in a tunnel: the inner IPv6 destination decides |
| LimitedEips.RawSentIff | p4src/src/redirect.p4:21-131 | a raw inbound packet, read off its own bytes: sent on if and only if the entry of its IPv4 or IPv6 destination asks for it and its headers are complete, and to where the entry says |
| RedirectHop.HashIndexIs | p4src/src/redirect.p4:115-131 | the DL selector hashes the shared bandwidth id of the EIP's entry when it has one, else the entry's own id |
| RedirectedFrames.InnerSentIsKept | p4src/src/nat.p4:8-41 | the inner packet sent on is the one that came but for the four bytes of an IPv4 source outbound, or the two of an IPv4 checksum inbound |
| HopTheorem.SnatOnWire | p4src/src/nat.p4:8-41 | on the wire SNAT replaces the inner source by the entry of its VNI and address and leaves every other byte |
| HopTheorem.InboundRawHop | p4src/pipe13/P13_egress.p4:24-42 | a raw inbound packet is put into the tunnel and sent on if and only if the entry of its EIP, the destination, asks for a scope and its headers are complete |
| RedirectLimits.PeerSendsOnIff | p4src/src/redirect.p4:64-97 | the gateway that owns the shared-bandwidth VIP redirects an inbound packet a second time if and only if it limits the EIP within the cluster: the bound of two is reached |
| RedirectLimits.StrangerSendsOnIff | igw-h/init_setup/switchapi/switch_igw_ip_type_table.c:282-346 | a gateway a redirected frame is not addressed to puts it into a tunnel again if and only if it limits the EIP of the outer destination and no CPU header hides the packet |
| RedirectLimits.BoundNeedsDelivery | igw-h/init_setup/switchapi/switch_igw_ip_type_table.c:282-346 | without delivery the bound fails: however often a packet has been redirected, a gateway it is not addressed to redirects it once more exactly under that condition |
| RedirectExample.RedirectedThreeTimes | p4src/src/redirect.p4:64-97 | an instance: three configured gateways and a packet that is redirected twice when delivered, and a third time when then handed to a gateway it is not addressed to |
| RedirectLimits.RoutedIff | igw-h/init_setup/switchapi/switch_ecmp_group2.c:80-199 | with the initialised groups, every packet meets a group with an active member if and only if the route messages so far have put gateways of pipe 0 and of pipe 2 into service |
| Redirect.RedirectLowersRank | p4src/src/redirect.p4:84-97 | every redirect strictly lowers the rank `tof` 0 > AZ > EIP and stamps its own direction |
| Redirect.JdTableDecides | igw-h/init_setup/switchapi/switch_eip_in_jd_vxlan_table.c:28-73 | the entries the initialisers install decide exactly one next scope for every `tof` and cluster flags, and no two of them match one packet |
| Redirect.JdVxlanTable.EntryAdd | igw-h/init_setup/switchapi/switch_eip_in_jd_vxlan_table.c:41-41 | one entry is appended, nothing else changes |
| Redirect.JdVxlanTable.EipEntryInit | igw-h/init_setup/switchapi/switch_eip_out_jd_vxlan_table.c:28-57 | the within-cluster entries of either direction, appended in the source's order |
| Redirect.JdVxlanTable.AzEntryInit | igw-h/init_setup/switchapi/switch_eip_out_jd_vxlan_table.c:59-73 | the between-cluster entry of either direction |
| Redirect.JdVxlanTable.Init | igw-h/init_setup/switchapi/switch_eip_in_jd_vxlan_table.c:75-80 | the table is exactly `JdTable` of the configuration and direction |
| Redirect.LookUpEip | p4src/src/redirect.p4:21-60 | the EIP entry sets bandwidth ids and cluster flags; a miss clears the shared id and nothing else |
| Redirect.RewriteJdVxlan | p4src/src/redirect.p4:64-82 | each of the four rewrites changes exactly `flags`, `version`, `vni`, `tof`, the UDP source port, one outer address and the direct-send mark |
| Redirect.EipRedirect | p4src/src/redirect.p4:115-131 | the whole control is lookup, ternary decision, rewrite and selection of a DL address by the shared or own bandwidth id |
| RedirectHop.RedirectDecides | p4src/src/redirect.p4:238-254 | on any VXLAN frame: sent to the next scope when there is one, otherwise untouched |
| RedirectHop.StartResult | p4src/src/vxlan_route.p4:99-128 | a packet that classification does not drop carries the direction, `dl_pkt` and pipe of the one rule that fires for it |
| RedirectHop.ScopeFromEip | p4src/src/redirect.p4:25-32 | since metadata starts at zero, the next scope depends on the packet only through its `tof` and its EIP's entry |
| RedirectHop.DropIsKept | p4src/pipe02/P02_ingress.p4:36-51 | no later stage of P02 ingress rescues a dropped packet or drops another |
| RedirectedFrames.LoopsBack | p4src/pipe13/P13_ingress.p4:25-38 | P13 ingress hands redirected traffic on byte for byte |
| Frames.LeavesAsFrame | p4src/pipe02/P02_egress.p4:49-80 | redirected traffic leaves P02 egress exactly when it is marked for direct send and parsable, as the frame it entered as with fresh MAC addresses and outer checksum |
| InnerAcceptance.FrameAccepted | p4src/pipe02/P02_ingress_parser.p4:107-280 | whether P02 ingress accepts a VXLAN frame depends on the inner packet alone |
| InnerAcceptance.LoopAccepted | p4src/pipe13/P13_ingress_parser.p4:36-268 | P13 ingress accepts a bridged frame exactly when the inner packet is one P02 ingress can parse |
| InnerAcceptance.KeptIsParsable | p4src/src/redirect.p4:64-82 | a packet with a rewritten inner source or checksum is parsable exactly when the original was |
| Gateway.P02IngressControl | p4src/pipe02/P02_ingress.p4:8-51 | the controls in their order compute `P02IngressResult`, the function the hop theorems are about |
| Gateway.P13EgressControl | p4src/pipe13/P13_egress.p4:8-42 | the controls in their order compute `P13EgressResult`: bridge metadata noted, encapsulation of raw traffic only, inbound redirect |
| Gateway.P02EgressControl | p4src/pipe02/P02_egress.p4:33-80 | a redirected packet is re-framed and deparsed to exactly the bytes the hop theorems use |
| Gateway.FipInnerIpSnat | p4src/src/nat.p4:8-41 | only the inner IPv4 source changes, to the entry of its VNI and address |
| Gateway.PipelineFix | p4src/src/vxlan_route.p4:36-62 | entry by entry: outbound IPv4 goes to pipe 0 or 2 by the parity of its source |
| Gateway.PipelineFixInit | igw-h/init_setup/switchapi/switch_igw_ip_type_table.c:565-582 | the two parity entries |
| Gateway.HaveSharedBindWith | p4src/src/redirect.p4:257-303 | the flag is set exactly for inbound EIPs with shared bandwidth, read from the outer or inner destination by `dl_pkt` |
| Gateway.EcmpGroup02 | p4src/src/nexthop.p4:8-51 | the port is the selected active member of the chosen group, else the port in the bridge header |
| Gateway.EncapMetaData02 | p4src/src/bridge.p4:106-121 | the bridge header is completed and the Ethernet header comes off tunnelled traffic |
| PacketParsers.ParsePacket | p4src/pipe02/P02_ingress_parser.p4:11-284 | the loop over the packet and the recursive parser compute the same outcome, for all four parsers |
| PacketParsers.ParseThenEmit | p4src/common/header.h:200-226 | parse then emit is the identity on bytes, for each of the four parsers and every packet it accepts |
| PacketParsers.TransitionsGoDeeper | p4src/pipe13/P13_egress_parser.p4:22-178 | every transition goes strictly deeper in emit order, so a parser terminates and never fills a slot it has passed |
| PacketParsers.RunThenEmit | p4src/pipe02/P02_egress_parser.p4:23-154 | from any state on, what is emitted is what was emitted before followed by the bytes that were left |
| Tunnel.EncapsulationKeepsEveryByte | p4src/src/tunnel.p4:8-172 | for every raw IPv4/IPv6 packet P13 egress accepts, with options, fragments and any L4: the bytes sent are the bridge header, fifty bytes of tunnel headers and the original L3 bytes but for the inner IPv4 checksum |
| Tunnel.OuterLengthsAreTrue | p4src/src/tunnel.p4:113-153 | outer total length and UDP length are the true byte counts modulo 2^16 if and only if the packet's own length field tells its true length |
| Tunnel.OuterLengthsInNumbers | p4src/src/tunnel.p4:113-153 | in numbers: a packet short enough for the sums not to overflow has outer total length |l3| + 50 and UDP length |l3| + 30 if and only if its own length field is |l3| |
| Tunnel.TunnelOnWire | p4src/src/tunnel.p4:113-164 | read off the bytes behind the bridge header, in numbers: version 4, header length 5, DSCP 0, identification 0, DF, offset 0, TTL 64, protocol 17; UDP 0 to 4789 without checksum; VXLAN flags 8 and `tof` 0; the packet's own EtherType and its bytes, but for an IPv4 checksum; and when the two length fields are true |
| Tunnel.TunnelledPacketReparses | p4src/pipe13/P13_ingress_parser.p4:36-122 | re-parsing a tunnelled packet in P13 ingress or P02 egress finds exactly the inner header the encapsulation made and all inner bytes |
| Tunnel.DecapsulationLeavesInner | p4src/src/tunnel.p4:294-341 | decapsulation strips exactly the tunnel |
| Tunnel.TunnelRoundTrip | p4src/src/tunnel.p4:302-316 | P02 egress accepts whatever the encapsulation sent, and decapsulating it gives the original L3 packet with a fresh IPv4 checksum |
| Tunnel.EgressAcceptsTunnelled | p4src/pipe02/P02_egress_parser.p4:23-154 | P02 egress accepts whatever the encapsulation sent |
| TunnelAcceptance.ParsableIff | p4src/pipe02/P02_ingress_parser.p4:136-279 | an inner packet can be parsed if and only if it is as long as the headers it announces: IP header, options, and TCP or UDP header of an unfragmented packet |
| TunnelAcceptance.RawAcceptedIff | p4src/pipe13/P13_egress_parser.p4:22-178 | P13 egress accepts a raw packet if and only if it is that long, not counting options and what stands behind them |
| TunnelAcceptance.LoopedBackIff | p4src/pipe13/P13_ingress_parser.p4:36-268 | P13 ingress accepts what the encapsulation sent if and only if the original packet is as long as the headers it announces |
| TunnelAcceptance.LostInLoopIff | p4src/pipe13/P13_ingress_parser.p4:124-245 | a raw packet P13 egress put into the tunnel is rejected by P13 ingress if and only if it has IPv4 options and ends inside them or inside the L4 header behind them |
| TunnelAcceptance.CutPacketIsLost | p4src/pipe13/P13_ingress_parser.p4:124-245 | one such packet: a TCP packet with one option word and nothing behind it |
| Tunnel.FreshIsExact | p4src/pipe02/P02_egress_parser.p4:319-368 | the round trip is exact if and only if the packet is IPv6 or came with the checksum the unit computes |
| Tunnel.CopyIpv4Header | p4src/src/tunnel.p4:18-35 | the outer IPv4 header becomes the inner one, its checksum left open |
| Tunnel.EncapOuter | p4src/src/tunnel.p4:84-111 | the six entries of `encap_outer` move the L3/L4 headers behind the tunnel and compute the payload length; a miss moves nothing |
| Tunnel.AddVxlan | p4src/src/tunnel.p4:113-164 | the outer headers, made valid one after the other, are exactly `Wrapped` |
| Tunnel.EnCapVxlan | p4src/src/tunnel.p4:166-172 | the whole control computes `Encapsulated`, the function the byte theorems are about |
| Tunnel.InternetOutProcess | p4src/src/tunnel.p4:294-341 | outer IP, UDP, VXLAN and inner Ethernet headers go; IPv6 changes the EtherType; IPv4 asks for a checksum |
| Tunnel.P02EgressDeparse | p4src/pipe02/P02_egress_parser.p4:319-368 | the bytes are the emitted stack with the outer checksum recomputed and the inner one when asked for |
| WireFormat.BridgeRoundTrip | p4src/common/header.h:142-198 | the bridge header decodes to what was encoded |
| WireFormat.BridgeBytes | p4src/common/header.h:142-198 | every 29 bytes are the encoding of the bridge header they decode to |
| WireFormat.Ipv4RoundTrip | p4src/common/header.h:29-43 | the IPv4 header decodes to what was encoded |
| WireFormat.Ipv6RoundTrip | p4src/common/header.h:49-58 | the IPv6 header decodes to what was encoded |
| WireFormat.TcpRoundTrip | p4src/common/header.h:60-71 | the TCP header decodes to what was encoded |
| HeaderStack.EmitAppends | p4src/common/header.h:200-226 | filling one slot of a stack that is clear from there on appends exactly that slot's bytes |
| Classification.DeterministicIffVipsDiffer | igw-h/init_setup/switchapi/switch_igw_ip_type_table.c:35-563 | no packet matches two entries of equal priority, for all packets, if and only if the two VIPs differ (or there is no backup) |
| Classification.EqualVipsClash | igw-h/init_setup/switchapi/switch_igw_ip_type_table.c:55-60 | with equal VIPs a host's packet matches two entries |
| VipClash.HostFramesClash | igw-h/init_setup/switchapi/switch_igw_ip_type_table.c:35-62 | with equal VIPs every IPv4 packet a host tunnels to the VIP is accepted by the parser and matches two entries of one priority |
| VipClash.ClashIffVipsEqual | igw-h/init_setup/switchapi/switch_igw_ip_type_table.c:35-62 | the table is ambiguous on some packet the parser accepts if and only if the VIPs are equal |
| Classification.LookupDecides | p4src/src/vxlan_route.p4:99-124 | for distinct VIPs the installed table decides as the short function `Decision` says |
| Classification.EveryIpPacketMatches | igw-h/init_setup/switchapi/switch_igw_ip_type_table.c:282-346 | every packet with one outer IP version matches some entry |
| Classification.EveryPacketDecided | p4src/pipe02/P02_ingress_parser.p4:28-134 | for every packet P02 ingress accepts, the table takes one decision, whatever invalid headers hold |
| Classification.BridgeIsInitialised | p4src/src/bridge.p4:75-103 | for every accepted packet exactly one `ig_decap_md02` entry fires, so the bridge header is always valid, its direct-send mark, drop mark, next hop and tunnel ids start cleared, and its VNI is that of the tunnel |
| Classification.DecapMetaData02 | p4src/src/bridge.p4:8-103 | the control computes `BridgeStart` |
| Classification.IgwIpType | p4src/src/vxlan_route.p4:64-128 | the control takes the action of the best matching entry |
| IngressShape.IngressIsShaped | p4src/pipe02/P02_ingress_parser.p4:28-280 | every accepted packet has the header stack its own type fields announce; never both outer and never both inner IP versions are valid |
| IpTypeTable.LookupEntry | p4src/src/vxlan_route.p4:99-124 | the loop returns the action of the first matching entry of best priority, or the default |
| IpTypeTable.RuleFiresOnce | igw-h/init_setup/switchapi/switch_igw_ip_type_table.c:121-280 | of the entries a rule is installed as (one or two, by VIP), exactly one matches where the rule applies and none elsewhere |
| IpTypeTable.TableFires | igw-h/init_setup/switchapi/switch_igw_ip_type_table.c:584-600 | at each priority the whole table matches a packet with the one rule that applies to it |
| IpTypeTable.MulticastByte | igw-h/init_setup/switchapi/switch_igw_ip_type_table.c:308-319 | the addresses the multicast entry drops are those whose first byte is 0xFF |
| IpTypeInit.IgwIpTypeTable.EntryAdd | igw-h/init_setup/switchapi/switch_igw_ip_type_table.c:55-55 | one entry is appended, nothing else changes |
| IpTypeInit.IgwIpTypeTable.EntryAddVips | igw-h/init_setup/switchapi/switch_igw_ip_type_table.c:53-60 | the entry for the VIP, then the one for the backup VIP exactly when there is one |
| IpTypeInit.IgwIpTypeTable.InternetOutEntryInit | igw-h/init_setup/switchapi/switch_igw_ip_type_table.c:35-119 | the key refilled in place yields exactly the host rules' entries |
| IpTypeInit.IgwIpTypeTable.InternetOutBetweenClusterEntryInit | igw-h/init_setup/switchapi/switch_igw_ip_type_table.c:121-205 | likewise for outbound AZ traffic |
| IpTypeInit.IgwIpTypeTable.InternetOutWithinClusterEntryInit | igw-h/init_setup/switchapi/switch_igw_ip_type_table.c:207-280 | likewise for outbound EIP traffic |
| IpTypeInit.IgwIpTypeTable.InternetInEntryInit | igw-h/init_setup/switchapi/switch_igw_ip_type_table.c:282-346 | likewise for raw inbound traffic, with the multicast rule |
| IpTypeInit.IgwIpTypeTable.InternetInBetweenClusterEntryInit | igw-h/init_setup/switchapi/switch_igw_ip_type_table.c:348-462 | likewise for inbound AZ traffic |
| IpTypeInit.IgwIpTypeTable.InternetInWithinClusterEntryInit | igw-h/init_setup/switchapi/switch_igw_ip_type_table.c:464-563 | likewise for inbound EIP traffic |
| IpTypeInit.IgwIpTypeTable.Init | igw-h/init_setup/switchapi/switch_igw_ip_type_table.c:584-600 | the six initialisers leave exactly `Table` of the configuration |
| PipeAffinity.InboundPipe | igw-h/init_setup/switchapi/switch_igw_ip_type_table.c:282-346 | for every inbound packet, selector hash and member status the internal pipe is 3 when the EIP is even or shares bandwidth, else 1 |
| PipeAffinity.RawAndRedirectedMeetIff | p4src/src/redirect.p4:297-303 | raw and redirected traffic of one IPv4 EIP meet in the same pipe if and only if the EIP is even or is in both shared-bandwidth tables or in neither |
| PipeAffinity.RawAndRedirectedMeet6 | igw-h/init_setup/switchapi/switch_igw_ip_type_table.c:464-563 | for IPv6 they always meet |
| PipeAffinity.OutboundPipe | p4src/src/nexthop.p4:45-51 | for every outbound packet the pipe depends only on parity and shared flag of its EIP after SNAT |
| Ecmp.EcmpHardware.Init4p | igw-h/init_setup/switchapi/switch_ecmp_group2.c:80-199 | the four loops program every member with its own port, one group per pipe (1 and 3 active, 0 and 2 not) and the six forwarding entries |
| Ecmp.EcmpHardware.AddPipe | igw-h/init_setup/switchapi/switch_ecmp_group2.c:93-125 | one loop: sixteen members with every fourth port of the pipe, no other member touched |
| Ecmp.ServesInNumbers | igw-h/init_setup/switchapi/switch_ecmp_group2.c:80-199 | member and port numbers of the programmed groups: 1 to 16 for pipe 1, 17 to 32 for pipe 3, 33 to 48 for pipe 0, 49 to 64 for pipe 2, every fourth port from 128 times the pipe on |
| Ecmp.ChosenPortInPipe | p4src/src/nexthop.p4:8-51 | for every hash and member status the chosen port is an active member of the intended pipe; only a group with none keeps the port set before |
| CpuHeader.LayoutsAgree | igw-h/init_setup/switchapi/include/switch_packet.h:35-69 | every field of the packed C structures sits where the P4 header reads it |
| CpuHeader.ColourAgreesIff | igw-h/init_setup/switchapi/include/switch_packet.h:54-64 | colour and QoS, declared in opposite bit order, agree exactly when both are zero or both are all ones |
| CpuHeader.ColourIsMisread | igw-h/init_setup/switchapi/include/switch_packet.h:54-64 | colour 1 with QoS 0 is read as colour 0 with QoS 1 |
| CpuHeader.AddNosCpuHeader | p4src/common/platform.p4:20-36 | the control adds the two headers and moves the EtherType into the CPU header |
| CpuHeader.ReceiveFromCpuNos | p4src/common/platform.p4:45-52 | the control removes them, restores the EtherType and takes the port from the fabric header |
| CpuHeader.ReceiveUndoesAdd | p4src/common/platform.p4:20-61 | removing undoes adding |
| CpuHeader.ReceiveIsStrip | igw-h/init_setup/switchapi/switch_packet.c:88-95 | P4 taking the header off is, on the wire, the driver's strip of sixteen bytes at offset 12 |
| CpuHeader.PuntedFrameIsOriginal | igw-h/init_setup/switchapi/switch_packet.c:47-95 | stripping a frame built by `add_nos_cpu_header` gives the original frame |
| CpuHeader.PuntedHeaderSays | p4src/common/platform.p4:20-36 | what stands in front of a punted frame, in numbers: type 0x9000, an all-zero fabric header, and a CPU header with queue, bypass and reserved bits zero, the port it came in on and the frame's own type |
| CpuHeader.KnetTxFilterCreate | igw-h/init_setup/switchapi/switch_packet.c:132-181 | the inserted sixteen bytes, field by field in memory order |
| CpuHeader.TxHeaderSays | igw-h/init_setup/switchapi/switch_packet.c:151-177 | P4 reads the requested port from the inserted header with the bypass flags, and 0xFF01 without them |
| CpuHeader.TxHeaderFields | igw-h/init_setup/switchapi/switch_packet.c:151-177 | every field P4 reads from the inserted header, in numbers: packet type 5, queue 7, bypass bit, reason and, without the bypass flags, the bridge domain |
| CpuHeader.InsertedAcceptedIff | p4src/pipe02/P02_ingress_parser.p4:28-54 | P02 ingress accepts a frame with an inserted CPU header if and only if it accepts the frame or the frame's own type is not IPv4 |
| CpuHeader.CpuFrameRoundTrip | p4src/common/platform.p4:45-61 | a frame from the CPU is accepted exactly then; parsing it and `receive_from_cpu_nos` give the original frame and the requested port |
| KnetFilter.StoreField | igw-h/init_setup/switchapi/switch_packet.c:47-86 | one field and its mask stored in place, all other bytes kept |
| KnetFilter.KnetRxFilterCreate | igw-h/init_setup/switchapi/switch_packet.c:30-112 | the filter's bytes and mask for any combination of keys |
| KnetFilter.PassesIffFieldsMatch | igw-h/init_setup/switchapi/switch_packet.c:47-95 | a frame with a CPU header passes if and only if every field the key asks for has its value |
| KnetFilter.PortFilterIff | p4src/common/platform.p4:20-36 | the filter for a port accepts a P4-built frame if and only if it came in on that port |
| PuntTable.ProcessProtocolTable.Init | igw-h/init_setup/switchapi/switch_packet_table.c:402-412 | the initialisers leave exactly `ProtocolTable` for any host interfaces |
| PuntTable.ProcessProtocolTable.ReceiveFromCpuNosInit | igw-h/init_setup/switchapi/switch_packet_table.c:70-93 | the entry that receives frames from the CPU |
| PuntTable.ProcessProtocolTable.HostifCopyInit | igw-h/init_setup/switchapi/switch_packet_table.c:201-346 | one IPv4 entry and, with IPv6, four more for every host interface, in order |
| PuntTable.PuntDecision | p4src/common/platform.p4:63-86 | for every packet: one from the CPU is received, as LLDP when it is, and never punted back; of the others exactly those for the gateway itself are copied to the CPU |
| IntrusiveLists.JdListAdd | igw-h/init_setup/include/init_setup_list.h:69-73 | behind the given node of the ring: the sequence gains the entry there, links mutually inverse, every other node as it was |
| IntrusiveLists.LinkBetween | igw-h/init_setup/include/init_setup_list.h:51-60 | the four pointer writes keep the ring |
| IntrusiveLists.JdListAddTail | igw-h/init_setup/include/init_setup_list.h:84-88 | before the given node of the ring |
| IntrusiveLists.JdListDel | igw-h/init_setup/include/init_setup_list.h:97-115 | the neighbours close the gap; the entry itself is left as it was |
| IntrusiveLists.ForEachSafe | igw-h/init_setup/include/init_setup_list.h:179-181 | safe iteration whose body deletes and reuses visited entries visits every original entry once, in order, and leaves the others |
| IntrusiveLists.EmptyIff | igw-h/init_setup/include/init_setup_list.h:120-123 | the ring test holds exactly for the empty sequence |
| IntrusiveLists.HashedIff | igw-h/init_setup/include/init_setup_list.h:251-259 | the chain test holds exactly for the empty sequence, and no node of a chain counts as unhashed |
| IntrusiveLists.HListAddHead | igw-h/init_setup/include/init_setup_list.h:275-285 | the chain gains the node at its head; `pprev` of every node is the slot that points to it |
| IntrusiveLists.HListDel | igw-h/init_setup/include/init_setup_list.h:261-273 | `*pprev` takes over `next`; all other nodes framed |
| IntrusiveLists.HListAddBefore | igw-h/init_setup/include/init_setup_list.h:287-294 | the node joins just before the given one |
| IntrusiveLists.HListAddAfter | igw-h/init_setup/include/init_setup_list.h:296-305 | the node joins just behind the given one |
| IntrusiveLists.HListForEachSafe | igw-h/init_setup/include/init_setup_list.h:312-321 | likewise for chains with `pprev` |
| HashTables.HashTable.Add | igw-h/init_setup/switchapi/switch_hostif.c:431-431 | an entry joins at the head of the bucket of its key's low six bits; the other buckets keep their chains |
| HashTables.HashTable.Get | igw-h/init_setup/switchapi/switch_hostif.c:402-412 | walking bucket `key & 63` returns the last array element with that key, or none |
| HashTables.ArrayToHashTable | igw-h/init_setup/switchapi/switch_hostif.c:414-434 | the table built from an array has the array as its contents; the same for all three tables |
| HashTables.LastWithIsLast | igw-h/init_setup/switchlink/switchlink_neigh.c:28-39 | none exactly when no element has the key, else the last such element |
| HashTables.BucketFindsLast | igw-h/init_setup/switchlink/switchlink_route.c:105-116 | the first match in a bucket is the array's last match |
| RouteAgent.GetMemberIndexFromPort | igw-h/init_setup/switchlink/switchlink_route.c:36-64 | the position of the port in its pipe's array, or the array's size when it has none |
| RouteAgent.HostifArrayToGateways | igw-h/init_setup/switchlink/switchlink_route.c:66-103 | aborts exactly when there are more than 64 interfaces or one is on no gateway port; otherwise every gateway sits at the member whose port is its own |
| RouteAgent.ProcessEcmp | igw-h/init_setup/switchlink/switchlink_route.c:140-167 | an address is collected for each of the first 64 next hops that are gateways and whose interface is up, in order, and for no other |
| RouteAgent.Agent.InitMembersState | igw-h/init_setup/switchlink/switchlink_route.c:169-176 | both status arrays cleared |
| RouteAgent.Agent.ReadAttrs | igw-h/init_setup/switchlink/switchlink_route.c:211-234 | returns at a non-zero destination, else the last gateway and last multipath list |
| RouteAgent.Agent.MarkMembers | igw-h/init_setup/switchlink/switchlink_route.c:258-277 | marks exactly the members of the known gateways in the list |
| RouteAgent.Agent.ProcessRouteMsg | igw-h/init_setup/switchlink/switchlink_route.c:178-299 | the hardware groups after one message, whatever writes fail, are `Handled` of those before |
| RouteAgent.StatusAfterRun | igw-h/init_setup/switchlink/switchlink_route.c:178-299 | after any run of messages, whichever writes fail, a pipe's group shows exactly the known gateways of the last accepted message that names one of that pipe and whose write succeeded, and its first status before there is one |
| RouteAgent.LastWrittenIsLast | igw-h/init_setup/switchlink/switchlink_route.c:258-299 | `LastWritten` is the message after which no other changes the pipe's group |
| RouteAgent.ActiveMembersAreGateways | igw-h/init_setup/switchapi/switch_ecmp_group2.c:127-161 | a member is active if and only if the message names a known gateway on the member's egress port |
| RouteAgent.AcceptedIff | igw-h/init_setup/switchlink/switchlink_route.c:140-257 | in terms of the message's attributes: an address is in the list the agent acts on if and only if the message is an IPv4 default route without a non-zero destination and the address is one of the first 64 hops of its last multipath list that are gateways on an interface that is up, or, when that list has none, its last gateway |
| RouteAgent.ActiveAfterRun | igw-h/init_setup/switchlink/switchlink_route.c:178-299 | over any run, in the same terms: a member is active if and only if the last message that led anywhere in its pipe, and whose write succeeded, leads to its egress port |
| RouteAgent.KeptWithoutEffective | igw-h/init_setup/switchlink/switchlink_route.c:283-299 | without such a message the group keeps its status |
| RouteAgent.NamesPipeIff | igw-h/init_setup/switchlink/switchlink_route.c:259-277 | a list names a gateway of the pipe if and only if it marks one of its members |
| RouteAgent.ActiveAfterRunIff | igw-h/init_setup/switchlink/switchlink_route.c:283-299 | whichever writes fail, a group has an active member after a run if and only if it had one before or some message changed it: a group once non-empty never becomes empty |
| RouteAgent.AllActiveIff | igw-h/init_setup/switchapi/switch_ecmp_group2.c:80-199 | from the initialised tables on, all four groups have an active member if and only if messages have changed the groups of pipe 0 and of pipe 2 |
| NeighbourCache.ReverseMac | igw-h/init_setup/include/utils.h:106-113 | the six bytes reversed in place |
| NeighbourCache.ReversedBytesAreTheAddress | igw-h/init_setup/include/utils.h:106-113 | reversed bytes read little-endian give the big-endian address in the low 48 bits, whatever the stack held above |
| NeighbourCache.ValidIsUnicastNonZero | igw-h/init_setup/include/utils.h:127-142 | the byte test accepts exactly the unicast, non-zero addresses |
| NeighbourCache.MacRewriteTable.EntryAdd | igw-h/init_setup/switchbfrt/bf_outer_mac_rewrite_table.c:198-218 | find, then add or modify: the entry is replaced exactly when the write succeeds |
| NeighbourCache.HostifArrayToMacEntryTable | igw-h/init_setup/switchlink/switchlink_neigh.c:41-67 | one invalid entry per interface, none when an interface has no index |
| NeighbourCache.NeighbourAgent.ProcessNeighMsg | igw-h/init_setup/switchlink/switchlink_neigh.c:69-136 | cache, hardware and attempted writes after one message are `Step` of those before, whatever fails |
| NeighbourCache.AgreesAfterRun | igw-h/init_setup/switchlink/switchlink_neigh.c:69-136 | over every run and any failures: every valid entry equals its port's hardware entry, and every attempted write changes the port's entry, to a unicast non-zero destination |
| NeighbourCache.CoherentIffPortsDistinct | igw-h/init_setup/switchlink/switchlink_neigh.c:69-136 | the cache agrees with the hardware on every run if and only if no two interfaces that lookups can find share a port |
| NeighbourCache.AnnouncementIsProgrammed | igw-h/init_setup/switchlink/switchlink_neigh.c:98-135 | a gateway's announcement, when nothing fails, ends valid and in the hardware |
| NeighbourCache.IgnoredIff | igw-h/init_setup/switchlink/switchlink_neigh.c:69-136 | a message leaves cache, hardware and writes as they are if and only if it is not a complete new IPv4 neighbour that gives a unicast, non-zero address to the gateway of a findable interface, or the interface has this address already |
| NeighbourCache.AttendedWrites | igw-h/init_setup/switchlink/switchlink_neigh.c:98-135 | any other message: one write to the interface's port, whose success alone decides whether slot and hardware change, and to what |
| NeighbourCache.ValidWasGiven | igw-h/init_setup/switchlink/switchlink_neigh.c:98-135 | over every run: the destination of a valid entry was given by some message of the run, for this interface and for its gateway's address |
| NeighbourCache.FreshIsStarted | igw-h/init_setup/switchlink/switchlink_neigh.c:41-67 | the table the initialiser leaves holds each interface's own data and no valid entry |
| NeighbourCache.SharedPortClash | igw-h/init_setup/switchlink/switchlink_neigh.c:127-135 | two interfaces on one port: two announcements break the agreement |
| NetlinkAttributes.ParseRtattrFlags | igw-h/init_setup/switchlink/include/switchlink.h:49-66 | ends on every buffer; each slot up to `max` holds the offset of the first attribute of its type |
| NetlinkAttributes.FirstFromIsFirst | igw-h/init_setup/switchlink/include/switchlink.h:56-61 | the offset leads to the first well-formed attribute of the type, inside the buffer; none exactly when there is none |
| NetlinkAttributes.AttributesOfBuilt | igw-h/init_setup/switchlink/include/switchlink.h:49-66 | parsing a built list gives the list back, whatever incomplete bytes follow |
| NetlinkAttributes.ParseOfBuilt | igw-h/init_setup/switchlink/include/switchlink.h:49-66 | each type's slot leads to the value of its first attribute in a built list |
| NetlinkAttributes.MaskedBit | igw-h/init_setup/switchlink/include/switchlink.h:58-58 | a bit of the type stays exactly when it is not one of the flags |
| PortMonitor.Monitor.ReadGroups | igw-h/init_setup/switchapi/switch_monitor.c:130-149 | none exactly when some port cannot be read, else whether any port of pipe 0 and of pipe 2 is up |
| PortMonitor.PollFinds | igw-h/init_setup/switchapi/switch_monitor.c:130-149 | in device ports: nothing when some port cannot be read, else whether a port from 0 to 127 and one from 256 to 383 is up |
| PortMonitor.Monitor.MonitorAllDevports | igw-h/init_setup/switchapi/switch_monitor.c:122-184 | one poll takes counters, state and commands to `Step` |
| PortMonitor.DownExactlyAtSixteen | igw-h/init_setup/switchapi/switch_monitor.c:150-170 | while UP, a poll brings the gateway down if and only if it completes sixteen complete polls in a row with all of pipe 0, or all of pipe 2, down |
| PortMonitor.DownCommandsOfPoll | igw-h/init_setup/switchapi/switch_monitor.c:150-170 | a poll issues one `set_igw_down` for each pipe that is down and was in at least fifteen complete polls before, counted in 32 bits, and no other |
| PortMonitor.OutageBeginsWithDown | igw-h/init_setup/switchapi/switch_monitor.c:150-170 | the poll that begins an outage issues one down command for each pipe that completes its sixteen polls, at least one, and last |
| PortMonitor.DownRunIsTheLastPolls | igw-h/init_setup/switchapi/switch_monitor.c:150-170 | the run counts exactly the last complete polls, aborted ones skipped |
| PortMonitor.UpMeansLastCommandUp | igw-h/init_setup/switchapi/switch_monitor.c:172-183 | while UP no retry is pending and the last command, if any, was `set_igw_up` |
| PortMonitor.ThreeUpsPerOutage | igw-h/init_setup/switchapi/switch_monitor.c:172-183 | every outage ends with exactly three `set_igw_up` commands issued since it began |
| DlPrefix.GetMaskByPrefixLen | igw-h/init_setup/include/utils.h:44-52 | the bit loop ends with the mask the shift macro gives |
| DlPrefix.MaskValue | igw-h/init_setup/switchapi/include/switch_packet.h:32 | the mask is 2^32 - 2^(32 - len) |
| DlPrefix.EcmpDlTableInit | igw-h/init_setup/switchapi/switch_eip_dl.c:35-81 | consecutive addresses from the network address, dense ids from 1, all active; the outbound initialiser is the same loop |
| DlPrefix.ListBlock | igw-h/init_setup/switchapi/switch_eip_dl.c:48-73 | the capped loop over a 32-bit range lists exactly the counted members |
| DlPrefix.MembersInBlockIff | igw-h/init_setup/switchapi/switch_igw_ip_type_table.c:216-218 | every listed address matches the DL classification entries if and only if the list does not run past 255.255.255.255 |
| DlPrefix.BlockSize | igw-h/init_setup/switchapi/switch_eip_dl.c:98-124 | the number of members is min(2^(32 - len), 120) for lengths 24 to 32 |
| Metering.EipMeter | p4src/src/meter.p4:8-37 | the colour becomes the meter's answer exactly when the packet has an inner IP header and its bandwidth id an entry |
| Metering.SharedMeter | p4src/src/meter.p4:162-227 | the shared meter runs only on IPv4 packets that are not RED; the ledger is told the colour after it |
| Metering.EipInSharedMeter | p4src/src/meter.p4:39-129 | the same, and the packet is dropped when its colour has a drop entry |
| Metering.EipInMeterDropInit | igw-h/init_setup/switchapi/switch_meter_drop_table.c:26-29 | the installed drop entry is the one for RED |
| Metering.RedIffMeterSaidRed | p4src/src/meter.p4:118-128 | the final colour is RED exactly when a meter that ran said RED, if and only if the packet was not RED to begin with or its EIP meter ran |
| Metering.InboundDroppedIffMeterSaidRed | p4src/src/meter.p4:104-128 | with the installed entry, P13 ingress drops an inbound packet if and only if a meter that ran said RED |
| Metering.InboundFate | p4src/src/meter.p4:8-129 | in terms of headers, entries and answers: with the installed drop entry P13 ingress drops a packet if and only if the meter of its EIP said RED (or it has none and came RED), or, on IPv4, the meter of its shared group did |
| Metering.InboundIpv6Fate | p4src/src/meter.p4:31-36 | an IPv6 packet whose id has an entry: dropped if and only if its meter said RED |
| Metering.InboundIpv4Fate | p4src/src/meter.p4:104-128 | an IPv4 packet whose id has an entry: dropped if and only if its meter said RED or its group has a meter that did |
| Metering.SharedIsTold | p4src/src/meter.p4:104-128 | what the shared ledger is told: of an IPv4 packet that did not come RED, whether its group has a meter that said RED |
| MeteredEips.EipIsNoted | p4src/src/redirect.p4:21-60 | the ids and flags a redirect stage leaves in bridge header and metadata are those of the packet's own EIP, the inner source outbound and the inner destination inbound, whether it is redirected or not; without an entry the shared id is cleared |
| MeteredEips.InboundIpv6Limited | p4src/src/meter.p4:8-37 | an inbound IPv6 packet to an EIP with an entry is dropped by P13 ingress if and only if the meter of the entry's id said RED |
| MeteredEips.InboundIpv4Limited | p4src/src/meter.p4:104-128 | an inbound IPv4 packet, raw or tunnelled: if and only if the meter of the entry's id, or that of the entry's shared group, said RED |
| MeteredEips.TunnelsRawOnly | p4src/pipe13/P13_egress.p4:30-34 | before the redirect P13 egress makes a tunnel exactly for packets that are neither redirected traffic nor in a tunnel, and changes nothing but the noted EIP of any other |
| MeteredEips.InboundKeyIsEip | p4src/src/bridge.p4:132-149 | P13 egress notes the destination of the IPv4 packet inside, raw or tunnelled: the key of the inbound counters |
| MeteredEips.InboundIpv4Counted | p4src/src/traffic_stats.p4:89-167 | the packet moves the counter of the EIP it was sent to, the drop counter exactly when it is dropped, and none when it is marked |
| MeteredEips.InboundIpv6Counted | p4src/src/traffic_stats.p4:89-167 | the same for IPv6 |
| MeteredEips.InboundReturnsToItsPort | p4src/pipe13/P13_ingress.p4:25-38 | from P02 ingress through P13 egress to P13 ingress: an inbound packet leaves for the network port it came in on |
| Metering.Ledger.Count | p4src/src/traffic_stats.p4:100-127 | a key with an entry gains one, in 32 bits, in the table of its verdict; no other key changes |
| Metering.PassPlusDrop | p4src/src/traffic_stats.p4:156-165 | each counter of a key moves by the packets of its verdict, and these are all the key's packets |
| Metering.Conservation | p4src/src/meter.p4:118-126 | the same for any ledger and any sequence of packets of which some tell it nothing |
| Metering.EachVerdict | p4src/src/traffic_stats.p4:156-165 | each counter of a key grows by exactly as many packets of the run as told the ledger its verdict, in 32 bits |
| Metering.InboundConservation | p4src/src/traffic_stats.p4:89-167 | over any run, any answers and lookups, in the IPv4, the IPv6 and the shared-bandwidth ledger: a key's passed and dropped counts grow together by exactly its packets, those of an EIP without `need_drop`, those of a shared group that did not come RED |
| Metering.VmLocationMapping | p4src/src/vmipv4.p4:7-66 | an address without a host marks the packet |
| Metering.AzSelector | p4src/src/vmipv4.p4:136-165 | the next hop changes only for an NLB EIP with an entry |
| Metering.NexthopProcess | p4src/src/vmipv4.p4:69-134 | an unknown, non-zero next hop marks the packet |
| Metering.InboundForwarding | p4src/src/vmipv4.p4:7-165 | field by field, what P13 ingress leaves in the bridge header: the last lookup that hits gives the next hop, the next hop's entry the tunnel; the mark is set for an address without a host and for a next hop without an entry; the IPv4 destination becomes the host's own |
| Metering.EipInEgressPktStats | p4src/src/traffic_stats.p4:89-167 | the ledgers are told EIP and colour of packets that are not marked |
| Metering.P13IngressControl | p4src/pipe13/P13_ingress.p4:8-38 | the controls in their order, with all three ledgers |
| Metering.MarkIsNeverCleared | p4src/src/vmipv4.p4:20-23 | after the lookups a packet is marked if and only if it was before, its address has no host, or its next hop is unknown; colour and EIP stay |
| EgressDrops.EgressAclInit | igw-h/init_setup/switchapi/switch_acl_table_init.c:25-48 | the two installed entries |
| EgressDrops.EgressSystemAcl | p4src/src/acl.p4:87-171 | the lookup takes an action the table may take, and drops exactly on the two drop actions |
| EgressDrops.InstalledDropIff | igw-h/init_setup/switchapi/switch_acl_table_init.c:29-47 | a packet that matches an installed entry is dropped, whatever becomes of ties, if and only if no foreign entry that lets it through comes first or ties for first |
| EgressDrops.NoRedLeaves | igw-h/init_setup/switchapi/switch_acl_table_init.c:39-47 | no RED packet leaves unless a foreign entry of the first priority lets it |
| EgressDrops.MirrorSavesMarkedPacket | igw-h/init_setup/switchapi/include/switch_acl_table_init.h:13-15 | a mirror entry at the mirror priority lets a marked packet out |
| EgressDrops.EipOutEgressPktStats | p4src/src/traffic_stats.p4:8-86 | the outbound ledgers are told source EIP and colour |
| EgressDrops.P02EgressMatched | p4src/pipe02/P02_egress.p4:8-70 | meters, counters, decapsulation or the destination check, then the ACL, in order |
| EgressDrops.SeenIsFate | p4src/pipe02/P02_egress.p4:21-30 | what the ACL sees of a packet in either direction |
| EgressDrops.OutboundRedDropped | p4src/src/meter.p4:155-227 | an outbound packet some executed meter called RED is dropped |
| EgressDrops.OutboundFate | p4src/src/meter.p4:131-227 | in terms of headers, entries and answers: the ACL sees RED if and only if the meter of the packet's EIP said so (or it has none and came RED), or, on IPv4, that of its shared group |
| EgressDrops.OutboundIpv6Fate | p4src/src/meter.p4:155-160 | with the installed ACL entries alone, an outbound IPv6 packet whose id has an entry is dropped if and only if its meter said RED |
| EgressDrops.OutboundIpv4Fate | p4src/src/meter.p4:155-227 | likewise on IPv4: its meter or that of its shared group |
| MeteredEips.OutboundNotes | p4src/src/bridge.p4:196-214 | P02 ingress hands an outbound packet on with the ids of the entry of its source after SNAT |
| MeteredEips.OutboundIpv4Limited | p4src/src/meter.p4:131-227 | an outbound IPv4 packet of an EIP with an entry, from P02 ingress to the ACL of P02 egress: dropped if and only if the meter of the entry's id, or that of the entry's shared group, said RED |
| MeteredEips.OutboundIpv6Limited | p4src/src/meter.p4:131-160 | the same for IPv6: the meter of the entry's id alone |
| MeteredEips.OutboundIpv4Counted | p4src/src/traffic_stats.p4:8-86 | the packet moves the counter of its source after SNAT, the drop counter exactly when the ACL sees it RED |
| MeteredEips.OutboundIpv6Counted | p4src/src/traffic_stats.p4:8-86 | the same for IPv6 |
| EgressDrops.InboundMarkDropsIff | p4src/src/tunnel.p4:282-289 | a mark set before P02 egress survives P13 ingress and drops the packet if and only if no foreign entry saves it |
| EgressDrops.OutboundConservation | p4src/src/traffic_stats.p4:8-86 | over any run, in each of the three outbound ledgers: a key's passed and dropped counts grow together by exactly the packets that go out from the EIP, or from the shared group after its EIP meter left them not RED |
| Transceivers.SfpUtil.CheckTransceiverChange | tools/sonic-plugins/python2.7/native/sfputil.py:166-199 | the dictionary becomes exactly the ports whose state differs, the states exactly the answers |
| Transceivers.SfpUtil.GetTransceiverChangeEvent | tools/sonic-plugins/python2.7/native/sfputil.py:201-235 | a call's outcome and the state it leaves, over any answers, failures and timeouts |
| Transceivers.MergedIsCurrent | tools/sonic-plugins/python2.7/native/sfputil.py:166-235 | over every history of calls: merging every dictionary returned so far gives exactly the port states, even when a stale one is returned again |
| Transceivers.CallAnswers | tools/sonic-plugins/python2.7/native/sfputil.py:201-235 | a ready call looks when its counter runs out and every fourth second from then on; it answers in the first such second, before its time is out, with a port that changed, and with exactly the ports that changed |
| Transceivers.CallTimesOut | tools/sonic-plugins/python2.7/native/sfputil.py:211-235 | without news it ends after as many seconds as begin before its time is out, with no changes if it has looked and with the dictionary of the call before if it has not |
| Transceivers.CallConnects | tools/sonic-plugins/python2.7/native/sfputil.py:212-221 | before the first contact a call waits for one and then answers that it is ready |

## Left out

- RedirectProtocol.NoRedirectLoops: speaks of packets delivered where they are addressed, because a misdelivered one is raw traffic to its receiver (`RedirectLimits.BoundNeedsDelivery` says when it goes on), and of gateways whose selector groups all have an active member (`RedirectLimits.RoutedIff` says when), because a group without one falls back to a port read from the bridge header before it is written.
- RedirectProtocol.PeerUnderstands: takes the inner packet to be one the ingress parser can parse, as every packet a gateway sends on is (`HopTheorem.HopSends` with `InnerAcceptance.KeptIsParsable`).
- EgressDrops.InboundMarkDropsIff: takes the outer IPv4 header to be valid, as it is on every inbound packet once P13 egress has tunnelled it.
- Lookup keys that only feed selectors and user ACLs (`meta.l3`), and which hash a selector uses: the hash value is arbitrary.
- The ten option-word slots are one slot holding the option bytes; the state `parse_cpu` is split in two, one for each header it extracts.
- Mirroring: copies, sessions and the headers of mirrored packets; mirror metadata is only parsed.
- Byte counters and their adjustment constants, port counters, and the disabled route table.
- What `InternetInProcess` rewrites besides the drop mark: VXLAN header, inner MAC addresses, tunnel source and destination.
- The MAC addresses a packet leaves with: any addresses.
- Ingress ACL entries and whether a packet is for the CPU, inside the hop theorems: arbitrary outcomes there; `PuntTable` models the second.
- The vendor's calls for tables, ports, kernel interfaces and thrift: they succeed or fail as a parameter says. Sockets, ioctl, JSON and daemon start-up are not modelled; the range checks of the configuration are preconditions.
- The two-pipe selector set-up: route handling supports only the four-pipe box.
- `switchlink_route.c:259` compares where it means to assign, and lines 147-160 never shorten the attribute length: the model walks a finite list of next hops from its start.
- `DEV_PORT_TO_PIPE` is the vendor's macro; it is taken as a division by 128.
- An attribute's payload of an unexpected length: an address attribute is taken to hold an address.
- Names of interfaces, front-panel ports and log messages.
- A shift by 32 in `SWITCH_IPV4_COMPUTE_MASK`, undefined in C: the length zero is left to the bit loop.
- Checksums: an arbitrary function of the other header fields; P02 egress recomputes them over twenty bytes, so nothing is said of option bytes.
