# NetX transport core in Dafny

This project models three service routines of the NetX TCP/IP stack and
proves properties of them:

- `_nx_tcp_client_socket_connect` (module `TcpConnect`): the active open of
  a TCP client socket. It runs the precondition ladder (bound, closed,
  route found) and moves the socket from CLOSED to SYN_SENT. It rolls back
  the counters, state and peer fields when the egress interface's MTU
  cannot carry an IP plus a TCP header. It chooses the initial sequence
  number, fresh from two random draws or advanced by a 64K stride on a
  reused socket. It wipes the per-connection fields, and it ends in
  completed, suspended or in-progress.
- `_nx_udp_socket_bind` (module `UdpBind`): binding a UDP socket to a port.
  It refuses a socket that is already bound or has a bind pending, and it
  picks an ephemeral port for "any port". It hashes the port to a bucket
  of the port table, then walks that bucket's circular list. Then it either:
  - appends the socket at the tail,
  - refuses with "port unavailable", or
  - queues the caller's thread on the holder's bind-suspension list.
- `_nx_igmp_interface_report_send` (module `IgmpReport`): building,
  checksumming and addressing an IGMP membership report or leave message.

Supporting modules:
- `Common`: the completion status and the optional value.
- `Bits`: 32-bit unsigned words as bounded integers, with explicit
  wrap-around and a bit-by-bit OR.
- `Rings`: circular doubly linked lists as sequences.
- `Checksum`: the ones'-complement sum of RFC 1071 and the fold shortcut.

Each service call is one atomic step, a pure function from the state
before to an outcome. What the routine learns from collaborators is a
parameter: the route, the random draws, the free-port search, the packet
allocator's status, the state the SYN transmission leaves, and the suspend
status a waiting thread is resumed with.

Central results:
- **Connect.** The full case analysis of the TCP open, including the
  rollback. Further lemmas show:
  - how the two draws make up a fresh sequence number, for draws of any
    width;
  - a reused sequence number moves forward in sequence space when the
    draw is below 0x7FFF0000;
  - a rolled-back socket can retry;
  - a connect in progress refuses a second one and changes nothing.
- **Bind.** The port-table invariant holds after every outcome: each socket
  sits in the bucket its port hashes to, and no two sockets of a bucket
  share a port. Further results:
  - ports are unique across the whole table;
  - a successful bind leaves the caller as the port's only holder;
  - the bucket walk (a loop) computes the first holder;
  - any number of waiters are queued on the holder in arrival order.
- **IGMP report.** The C code's add-and-fold-twice checksum equals the
  reference ones'-complement sum. The finished message checks out at a
  receiver: its fields sum to 0xFFFF and a recomputed checksum is zero.
  With the RFC 2236 constants the type byte is 0x12, 0x16 or 0x17 as
  appropriate, and the maximum response time is zero.

## Model

| member | source | states |
|---|---|---|
| `Common.FromCode` | common/src/nx_tcp_client_socket_connect.c:257-269 | a raw completion code is success exactly when it is zero; any other code is returned to the caller verbatim |
| `TcpConnect.Connect` | common/src/nx_tcp_client_socket_connect.c:102-281 | an unbound socket gets NotBound and a non-closed one NotClosed, with socket and counters untouched; a failed route gives IpAddressError, with only the resolver's next-hop out-parameter written; InvalidInterface is returned exactly when the ladder passes (bound, closed, route found) and the route's MTU is below the IP+TCP header size, and then the counters are unchanged and peer address, peer port and next hop are zero; a SYN is sent exactly when the ladder passes and the MTU suffices, and then both TCP counters rise by one modulo 2^32, the socket handed to the SYN transmission is in SYN_SENT with its next sequence one past the SYN and every per-connection field reset, the socket after the call differs from it only in its state, the SYN carries the sequence seed, the socket's next sequence is one past it, peer, interface and next hop are recorded and every per-connection field is reset; the call returns Success if the SYN completed the handshake, InProgress without waiting or on the IP thread, and otherwise the suspend status, with the socket closed again if that status is an error |
| `TcpConnect.FreshSequenceFromDraws` | common/src/nx_tcp_client_socket_connect.c:193-196 | for any two draws, a fresh socket's initial sequence number has the second draw's low 16 bits in its low half and, in its high half, the first draw's low 16 bits OR-ed with the second draw's bits above 15; a second draw below 2^16 leaves exactly the first draw's low 16 bits there |
| `TcpConnect.ReusedSequenceAdvances` | common/src/nx_tcp_client_socket_connect.c:197-200 | a reused socket's sequence number advances by 0x10000 plus the draw modulo 2^32, and lies after the old one in RFC 793 sequence space when the draw is below 0x7FFF0000 |
| `TcpConnect.RollbackAllowsRetry` | common/src/nx_tcp_client_socket_connect.c:159-188 | after the invalid-interface rollback the socket passes the ladder again: a retry over a usable route sends its SYN and leaves the active-connection count one above its value before the first attempt |
| `TcpConnect.ConnectWhileInProgress` | common/src/nx_tcp_client_socket_connect.c:113-121 | a second connect on a socket left in SYN_SENT is refused with NotClosed and changes nothing |
| `Rings.AppendAtTail` | common/src/nx_udp_socket_bind.c:171-192 | appending a socket to a ring sequence performs exactly the pointer surgery of the C insertion: the new member links forward to the head and back to the old tail, the old tail and the head link to it, all other links are kept, and on an empty ring it links to itself |
| `Rings.LinksInverse` | common/src/nx_udp_socket_bind.c:176-182 | a member's forward link's backward link is the member itself, and the same holds the other way round |
| `UdpBind.EphemeralStart` | common/src/nx_udp_socket_bind.c:113-117 | the ephemeral search starts inside the configured range from the search start to the maximum port |
| `UdpBind.BucketIndex` | common/src/nx_udp_socket_bind.c:133 | the hash of a port is a valid index of the port table |
| `UdpBind.FirstMatch` | common/src/nx_udp_socket_bind.c:136-162 | the position found holds the port and no earlier member of the bucket does; None means no member of the bucket holds it |
| `UdpBind.ScanBucket` | common/src/nx_udp_socket_bind.c:138-159 | the do-while walk from the head, stopping on a match or on the return to the head, finds exactly the first holder (or none), comparing one member past the ones skipped, or all members |
| `UdpBind.Bind` | common/src/nx_udp_socket_bind.c:101-286 | the table stays well formed over the same sockets; a socket already bound or with a bind pending gets AlreadyBound with nothing changed; "any port" starts its search in range and, if no free port is found, gives NoFreePorts with nothing changed; otherwise the port is recorded in the socket; a holder is found exactly when some bucket member holds the port, and it is the first one from the head; without a holder the socket is appended to its bucket's ring and the result is Success; with a holder and no wait the result is PortUnavailable and the rings are unchanged; with a wait the table returned is the one at the moment the caller suspends: the caller's thread joins the end of the holder's suspension list, the holder's count rises by one modulo 2^32, the caller records the port, the holder and its pending thread, every other field of those two sockets and every other socket are unchanged, and the status is the one the caller is resumed with |
| `UdpBind.InUseIffInOwnBucket` | common/src/nx_udp_socket_bind.c:132-162 | under the table invariant a port is held anywhere in the table exactly when it is held in the bucket it hashes to, so searching that one bucket is enough |
| `UdpBind.ValidRingsDistinct` | common/src/nx_udp_socket_bind.c:144-158 | under the table invariant no socket appears twice on a bucket ring |
| `UdpBind.PortsUnique` | common/src/nx_udp_socket_bind.c:161-202 | under the table invariant two positions holding the same port are the same position: no two bound sockets share a port |
| `UdpBind.BindPreservesValid` | common/src/nx_udp_socket_bind.c:161-286 | every outcome of a bind preserves the table invariant: each member sits in the bucket its port hashes to, and no two members of a bucket share a port |
| `UdpBind.BindGrantsPortExclusively` | common/src/nx_udp_socket_bind.c:161-202 | after a bind that succeeds without waiting, the caller is on the table and is the only socket holding its port |
| `UdpBind.AnyWaitOptionWaitsAlike` | common/src/nx_udp_socket_bind.c:203 | the wait option is only tested against zero: every non-zero option gives the same outcome as option 1, so the waiting-bind lemmas stated for option 1 cover them all |
| `UdpBind.WaitingBindKeepsHolders` | common/src/nx_udp_socket_bind.c:203-252 | a bind that waits changes no ring and no port held on a ring, keeps the holder first, extends its list by the caller's thread, and leaves every other socket's bound-or-pending status as it was |
| `UdpBind.QueueBehind` | common/src/nx_udp_socket_bind.c:203-252 | a waiting bind for a port whose first holder is w finds w, queues behind it and leaves w the first holder |
| `UdpBind.WaitersQueueInArrivalOrder` | common/src/nx_udp_socket_bind.c:228-252 | when any number of distinct unbound sockets bind a held port in turn, the holder stays the same, the rings are unchanged, and the holder's suspension list grows by exactly their threads, in arrival order |
| `Checksum.OnesSum` | common/src/nx_igmp_interface_report_send.c:177-189 | the RFC 1071 ones'-complement sum of 16-bit fields is itself a 16-bit value |
| `Checksum.OnesSumResidue` | common/src/nx_igmp_interface_report_send.c:177-189 | the ones'-complement sum differs from the integer sum by 0xFFFF per end-around carry, and is zero only when every field is zero |
| `Checksum.Fold` | common/src/nx_igmp_interface_report_send.c:186 | adding the bits above 16 into the low 16 never increases the value, changes it by a multiple of 0xFFFF, and gives zero only for zero |
| `Checksum.FoldTwiceIsOnesSum` | common/src/nx_igmp_interface_report_send.c:185-189 | folding twice a sum of 16-bit fields that fits in a 32-bit accumulator gives exactly their ones'-complement sum |
| `Checksum.MultipleSumsToMinusZero` | common/src/nx_igmp_interface_report_send.c:192 | fields whose integer sum is a positive multiple of 0xFFFF have ones'-complement sum 0xFFFF |
| `IgmpReport.FoldedSum` | common/src/nx_igmp_interface_report_send.c:178-189 | two folds bring the four-halves sum into 16 bits |
| `IgmpReport.FoldedSumIsOnesSum` | common/src/nx_igmp_interface_report_send.c:177-189 | the C accumulation over the two header words is the RFC 1071 ones'-complement sum of their four halves |
| `IgmpReport.ChecksumVerifies` | common/src/nx_igmp_interface_report_send.c:177-192 | when word 0's low half is clear, inserting the complemented checksum keeps word 0's high half and sets the low half to 0xFFFF minus the ones'-complement sum of the unchecksummed header; the finished header's four fields sum to 0xFFFF in ones' complement, and a receiver recomputing the checksum gets zero |
| `IgmpReport.Rfc2236VersionResponse` | common/src/nx_igmp_interface_report_send.c:154 | with the RFC 2236 constants, version OR response type is the word 0x12000000 |
| `IgmpReport.ReportSend` | common/src/nx_igmp_interface_report_send.c:104-226 | a failed packet allocation returns its status verbatim and changes and sends nothing; otherwise the result is Success and a report is sent; the report count rises by one modulo 2^32 exactly when the allocation succeeded and the join flag equals NX_TRUE; word 1 is the group and the interface is the one given; destination and next hop are the group for a join and all-routers otherwise; for type constants whose low half is clear, word 0 keeps the chosen type in its high half, its low half is 0xFFFF minus the ones'-complement sum of the header before the checksum, and the header's checksum verifies |
| `IgmpReport.Rfc2236ReportTypes` | common/src/nx_igmp_interface_report_send.c:147-175 | with the RFC 2236 constants the type byte is 0x12 when the router runs IGMPv1, whatever the join flag, else 0x16 for a join and 0x17 for a leave; the maximum response time is zero |
| `IgmpReport.JoinFlagTestedTwoWays` | common/src/nx_igmp_interface_report_send.c:121-221 | the message type treats any non-zero join flag as a join, but the count and the destination need NX_TRUE exactly: a flag of 2 to an IGMPv2 router builds a membership report (0x16), sends it to all routers (224.0.0.2) and does not count it |

## Left out

- Mutual exclusion is not modelled. Each call is one atomic step, so the
  IP mutex, the interrupt lockout and preemption control do not appear.
  Trace-buffer macros are left out too.
- Thread suspension itself is not modelled. This covers the timer, the
  cleanup routines `_nx_tcp_connect_cleanup` and `_nx_udp_bind_cleanup`,
  and the resume path. Those routines are not part of this model. The
  suspend status a thread is resumed with is an input, and so is the
  state other contexts leave a connecting socket in. The
  "caller is the IP helper thread" test is a boolean input.
- Foreign calls become inputs: route lookup, random draws, the UDP
  free-port search and packet allocation. For the SYN transmission only
  the socket state it leaves behind is modelled. `_nx_tcp_packet_send_syn`
  is not part of this model, so any other socket field it may write is
  not modelled either: the model takes the send to change only the
  socket's state. The cleared per-connection fields that `Connect`
  promises are therefore the state the SYN send starts from.
- `_nx_ip_packet_send` is represented by the report it is given and its
  destination. Its fixed arguments (type of service, TTL, protocol,
  fragmentation) are left out.
- Packet buffer details of the IGMP report are left out: the length field,
  the prepend pointer and the interface pointer. The interface is kept as
  its index.
- The endian swap before transmission is left out. Both header words are
  modelled in host order.
- Only the default build is modelled: TCP and IGMP statistics enabled and
  IGMPv2 enabled. The `NX_DISABLE_TCP_INFO`, `NX_DISABLE_IGMP_INFO` and
  `NX_DISABLE_IGMPV2` variants are left out.
- Completion statuses are a datatype. Their numeric values are defined in
  `nx_api.h`, which is not part of this model. The build constants are
  parameters, with a concrete RFC 2236 instance for IGMP. These include
  header size, any-port value, search range, table size, IGMP type words
  and the all-routers address.
- The socket's per-connection statistics and queue counters are unbounded
  naturals. The connect only sets them to zero, so their width does not
  matter.
- The UDP table mask is modelled as reduction modulo the table size. The
  table size is a power of two, and `& (size - 1)` on an unsigned value is
  that reduction.
- TcpConnect.Connect: for a suspended caller, every socket field other
  than the state, and both TCP counters, are those at the moment of
  suspension. While the caller waits, other contexts run, such as
  handling a SYN-ACK or a reset, or the timeout cleanup. Their writes are
  not modelled. Only their effect on the state is an input, and after a
  failed wait that state is forced back to CLOSED.
- UdpBind.Bind: the port returned by the free-port search is taken as
  given. The model does not establish that it is unused.
- UdpBind.Bind: for a suspended caller the outcome's table is the table at
  the moment of suspension. The resume is not modelled: the holder's
  unbind handing the port to the first waiter, or the cleanup after a
  timeout, happens in routines outside this model. So a suspended outcome
  whose resume status is success does not show the caller on a ring.
- The order of the two `NX_RAND()` calls in
  `(NX_RAND() << 16) | NX_RAND()` is unspecified in C. The model names
  the shifted draw `rand1`.
