/**
 * Active open of a TCP client socket: the precondition ladder, the
 * Closed -> SynSent transition of section 3.4 of RFC 793, the compensating
 * rollback when the egress interface cannot carry the IP and TCP headers,
 * the choice of the initial send sequence number (modulo 2^32, section 3.3
 * of RFC 793), the per-connection clean slate, and the final
 * completed / suspended / in-progress branch.
 *
 * The whole call is one atomic step: the instance mutex is not modelled.
 * What the route resolver, the random generator, the SYN transmission and
 * the scheduler contribute arrives as a `ConnectEnv`.
 */
module TcpConnect {
  import opened Common
  import opened Bits

  /** The connection states of section 3.2 of RFC 793. */
  datatype TcpState =
    | Closed
    | Listen
    | SynSent
    | SynReceived
    | Established
    | CloseWait
    | FinWait1
    | FinWait2
    | Closing
    | TimedWait
    | LastAck

  type InterfaceId = nat
  type PacketId = nat

  /** The fields of a TCP socket control block that the active open reads or writes. */
  datatype TcpSocket = TcpSocket(
    bound: bool,                          // the port-table link is non-null
    state: TcpState,
    connectIp: Word,                      // peer address
    connectPort: nat,                     // peer port
    connectInterface: Option<InterfaceId>,
    nextHopAddress: Word,
    txSequence: Word,                     // next sequence number to send
    rxWindowDefault: nat,
    rxWindowCurrent: nat,
    rxWindowLastSent: nat,
    finReceived: bool,
    timeoutRate: nat,
    timeout: nat,
    timeoutRetries: nat,
    txWindowCongestion: nat,
    txOutstandingBytes: nat,
    packetsSent: nat,
    bytesSent: nat,
    packetsReceived: nat,
    bytesReceived: nat,
    retransmitPackets: nat,
    checksumErrors: nat,
    transmitSent: seq<PacketId>,          // sent-but-unacknowledged queue, head first
    transmitSentCount: nat,
    receiveQueue: seq<PacketId>,
    receiveQueueCount: nat)

  /** The TCP statistics of the IP instance; both are 32-bit unsigned counters. */
  datatype IpTcpInfo = IpTcpInfo(activeConnections: Word, connections: Word)

  /**
   * What the route resolver produced. On failure the resolver may still have
   * written its next-hop out-parameter, which is the socket's own field.
   */
  datatype Route =
    | RouteFound(iface: InterfaceId, mtu: nat, nextHop: Word)
    | RouteNotFound(nextHop: Word)

  /**
   * Everything the call learns from outside the core: the route, the two
   * random draws (`rand1` is the one shifted into the high half of a fresh
   * sequence number and the only one used on a reused socket), the socket
   * state once the SYN transmission returns (a same-instance peer may have
   * completed the handshake already), whether the caller is the IP helper
   * thread, and, for a suspended caller, the suspend status and the state
   * other contexts left the socket in.
   */
  datatype ConnectEnv = ConnectEnv(
    route: Route,
    rand1: Word,
    rand2: Word,
    stateAfterSyn: TcpState,
    callerIsIpThread: bool,
    suspendStatus: nat,
    stateAfterWait: TcpState)

  /**
   * The socket and instance after the call, its status, the sequence number
   * handed to the SYN transmission and the socket as that transmission
   * receives it (if a SYN was sent), and whether the caller was suspended.
   */
  datatype ConnectOutcome = ConnectOutcome(
    socket: TcpSocket,
    ip: IpTcpInfo,
    status: Status,
    syn: Option<Word>,
    synSocket: Option<TcpSocket>,
    suspended: bool)

  /**
   * A fresh socket's sequence number: the first draw shifted into the high
   * half, OR-ed with the second draw, as 32-bit unsigned values.
   */
  function FreshSeed(rand1: Word, rand2: Word): Word
  {
    var high := Wrap(rand1 * 0x10000);
    WordBitOr(high, rand2);
    BitOr(high, rand2)
  }

  /**
   * The sequence number the SYN carries: a fresh socket (sequence 0) takes it
   * from two random draws, a reused one advances by a 64K stride plus a draw.
   */
  function SequenceSeed(prior: Word, rand1: Word, rand2: Word): Word
  {
    if prior == 0 then FreshSeed(rand1, rand2) else Wrap(prior + 0x10000 + rand1)
  }

  /** `a` lies strictly after `b` in sequence space (modular comparison of RFC 793 section 3.3). */
  predicate SeqAfter(a: Word, b: Word)
  {
    0 < Wrap(a - b) < 0x8000_0000
  }

  /** The per-connection fields hold nothing left over from an earlier connection. */
  predicate CleanSlate(s: TcpSocket)
  {
    && s.rxWindowCurrent == s.rxWindowDefault
    && s.rxWindowLastSent == s.rxWindowDefault
    && !s.finReceived
    && s.timeout == s.timeoutRate
    && s.timeoutRetries == 0
    && s.txWindowCongestion == 0
    && s.txOutstandingBytes == 0
    && s.packetsSent == 0
    && s.bytesSent == 0
    && s.packetsReceived == 0
    && s.bytesReceived == 0
    && s.retransmitPackets == 0
    && s.checksumErrors == 0
    && s.transmitSent == []
    && s.transmitSentCount == 0
    && s.receiveQueue == []
    && s.receiveQueueCount == 0
  }

  /** The ladder passed and the interface can carry the headers: a SYN goes out. */
  predicate SendsSyn(headerSize: nat, s: TcpSocket, env: ConnectEnv)
  {
    s.bound && s.state == Closed && env.route.RouteFound? && env.route.mtu >= headerSize
  }

  /**
   * `_nx_tcp_client_socket_connect`: `headerSize` is the size of an IP plus a
   * TCP header, the smallest MTU the egress interface may have.
   */
  function Connect(headerSize: nat, s: TcpSocket, ip: IpTcpInfo, serverIp: Word, serverPort: nat,
                   waitOption: nat, env: ConnectEnv): (o: ConnectOutcome)
    // precondition ladder: each failure leaves the socket and the counters alone
    ensures !s.bound ==> o == ConnectOutcome(s, ip, NotBound, None, None, false)
    ensures s.bound && s.state != Closed ==> o == ConnectOutcome(s, ip, NotClosed, None, None, false)
    ensures s.bound && s.state == Closed && env.route.RouteNotFound? ==>
              && o.status == IpAddressError && o.ip == ip && !o.suspended && o.syn == None && o.synSocket == None
              && o.socket == s.(nextHopAddress := env.route.nextHop)
    // the interface rollback
    ensures o.status == InvalidInterface <==>
              s.bound && s.state == Closed && env.route.RouteFound? && env.route.mtu < headerSize
    ensures o.status == InvalidInterface ==>
              && o.ip == ip && o.syn == None && o.synSocket == None && !o.suspended
              && o.socket == s.(connectIp := 0, connectPort := 0, nextHopAddress := 0)
    // the open itself
    ensures o.syn.Some? <==> SendsSyn(headerSize, s, env)
    ensures o.synSocket.Some? <==> SendsSyn(headerSize, s, env)
    ensures SendsSyn(headerSize, s, env) ==>
              // the socket the SYN transmission receives: in SYN_SENT, one past the SYN, all cleared
              var sent := o.synSocket.value;
              && sent.state == SynSent
              && sent.txSequence == Wrap(o.syn.value + 1)
              && CleanSlate(sent)
              // after the call only the state differs from it
              && o.socket == sent.(state := o.socket.state)
    ensures SendsSyn(headerSize, s, env) ==>
              && o.ip.activeConnections == Wrap(ip.activeConnections + 1)
              && o.ip.connections == Wrap(ip.connections + 1)
              && o.syn == Some(SequenceSeed(s.txSequence, env.rand1, env.rand2))
              && o.socket.txSequence == Wrap(o.syn.value + 1)
              && o.socket.connectIp == serverIp
              && o.socket.connectPort == serverPort
              && o.socket.connectInterface == Some(env.route.iface)
              && o.socket.nextHopAddress == env.route.nextHop
              && o.socket.bound
              && o.socket.rxWindowDefault == s.rxWindowDefault
              && o.socket.timeoutRate == s.timeoutRate
              && CleanSlate(o.socket)
    // how the call ends once the SYN is out
    ensures SendsSyn(headerSize, s, env) && env.stateAfterSyn == Established ==>
              o.status == Success && !o.suspended && o.socket.state == Established
    ensures SendsSyn(headerSize, s, env) && env.stateAfterSyn != Established
              && (waitOption == 0 || env.callerIsIpThread) ==>
              o.status == InProgress && !o.suspended && o.socket.state == env.stateAfterSyn
    ensures SendsSyn(headerSize, s, env) && env.stateAfterSyn != Established
              && waitOption != 0 && !env.callerIsIpThread ==>
              && o.suspended
              && o.status == FromCode(env.suspendStatus)
              && (env.suspendStatus != 0 ==> o.socket.state == Closed)
              && (env.suspendStatus == 0 ==> o.socket.state == env.stateAfterWait)
  {
    if !s.bound then
      ConnectOutcome(s, ip, NotBound, None, None, false)
    else if s.state != Closed then
      ConnectOutcome(s, ip, NotClosed, None, None, false)
    else
      match env.route
      case RouteNotFound(hop) =>
        ConnectOutcome(s.(nextHopAddress := hop), ip, IpAddressError, None, None, false)
      case RouteFound(iface, mtu, hop) =>
        var ip1 := ip.(activeConnections := Wrap(ip.activeConnections + 1),
                       connections := Wrap(ip.connections + 1));
        var s1 := s.(nextHopAddress := hop, state := SynSent,
                     connectIp := serverIp, connectPort := serverPort);
        if mtu < headerSize then
          // roll back the counters, the state and the peer fields
          var ip2 := ip1.(activeConnections := Wrap(ip1.activeConnections - 1),
                          connections := Wrap(ip1.connections - 1));
          var s2 := s1.(state := Closed, connectIp := 0, connectPort := 0, nextHopAddress := 0);
          ConnectOutcome(s2, ip2, InvalidInterface, None, None, false)
        else
          var seed := SequenceSeed(s1.txSequence, env.rand1, env.rand2);
          var s2 := s1.(
            connectInterface := Some(iface),
            txSequence := Wrap(seed + 1),
            rxWindowCurrent := s1.rxWindowDefault,
            rxWindowLastSent := s1.rxWindowDefault,
            finReceived := false,
            timeout := s1.timeoutRate,
            timeoutRetries := 0,
            txWindowCongestion := 0,
            txOutstandingBytes := 0,
            packetsSent := 0,
            bytesSent := 0,
            packetsReceived := 0,
            bytesReceived := 0,
            retransmitPackets := 0,
            checksumErrors := 0,
            transmitSent := [],
            transmitSentCount := 0,
            receiveQueue := [],
            receiveQueueCount := 0);
          var syn := Wrap(s2.txSequence - 1);
          var s3 := s2.(state := env.stateAfterSyn);
          if s3.state == Established then
            ConnectOutcome(s3, ip1, Success, Some(syn), Some(s2), false)
          else if waitOption != 0 && !env.callerIsIpThread then
            var s4 := s3.(state := if env.suspendStatus != 0 then Closed else env.stateAfterWait);
            ConnectOutcome(s4, ip1, FromCode(env.suspendStatus), Some(syn), Some(s2), true)
          else
            ConnectOutcome(s3, ip1, InProgress, Some(syn), Some(s2), false)
  }

  /**
   * A fresh socket's SYN sequence number has the second draw's low 16 bits
   * in its low half and, in its high half, the first draw's low 16 bits
   * OR-ed with whatever of the second draw lies above bit 15. A second
   * draw that fits in 16 bits leaves the first draw alone in the high half.
   */
  lemma FreshSequenceFromDraws(rand1: Word, rand2: Word)
    ensures SequenceSeed(0, rand1, rand2) % 0x10000 == rand2 % 0x10000
    ensures SequenceSeed(0, rand1, rand2) / 0x10000 == BitOr(rand1 % 0x10000, rand2 / 0x10000)
    ensures rand2 < 0x10000 ==> SequenceSeed(0, rand1, rand2) / 0x10000 == rand1 % 0x10000
  {
    var high := Wrap(rand1 * 0x10000);
    var q := rand1 / 0x10000;
    assert rand1 * 0x10000 == q * WordModulus + (rand1 % 0x10000) * 0x10000;
    assert high == (rand1 % 0x10000) * 0x10000;
    Pow2Values();
    assert rand2 == (rand2 / 0x10000) * 0x10000 + rand2 % 0x10000;
    BitOrShifted(rand1 % 0x10000, rand2 / 0x10000, rand2 % 0x10000, 16);
    var v := BitOr(rand1 % 0x10000, rand2 / 0x10000);
    var lo := rand2 % 0x10000;
    assert SequenceSeed(0, rand1, rand2) == v * 0x10000 + lo;
    assert (v * 0x10000 + lo) % 0x10000 == lo && (v * 0x10000 + lo) / 0x10000 == v;
  }

  /**
   * A reused socket's SYN sequence number is ahead of the value it held by
   * the stride plus the draw (modulo 2^32), and lies after it in sequence
   * space unless the draw comes within 64K of half the sequence space.
   */
  lemma ReusedSequenceAdvances(prior: Word, rand1: Word)
    requires prior != 0
    ensures Wrap(SequenceSeed(prior, rand1, 0) - prior) == Wrap(0x10000 + rand1)
    ensures rand1 < 0x7FFF_0000 ==> SeqAfter(SequenceSeed(prior, rand1, 0), prior)
  {
  }

  /**
   * After the interface rollback the socket is bound and closed again, so a
   * retry over a usable route gets past the ladder and sends its SYN.
   */
  lemma RollbackAllowsRetry(headerSize: nat, s: TcpSocket, ip: IpTcpInfo, serverIp: Word, serverPort: nat,
                            waitOption: nat, env: ConnectEnv, retry: ConnectEnv)
    requires Connect(headerSize, s, ip, serverIp, serverPort, waitOption, env).status == InvalidInterface
    requires retry.route.RouteFound? && retry.route.mtu >= headerSize
    ensures
      var o := Connect(headerSize, s, ip, serverIp, serverPort, waitOption, env);
      var o2 := Connect(headerSize, o.socket, o.ip, serverIp, serverPort, waitOption, retry);
      o2.syn.Some? && o2.ip.activeConnections == Wrap(ip.activeConnections + 1)
  {
  }

  /**
   * A second connect on a socket whose first connect is still in progress
   * is refused with NotClosed and changes nothing.
   */
  lemma ConnectWhileInProgress(headerSize: nat, s: TcpSocket, ip: IpTcpInfo, serverIp: Word, serverPort: nat,
                               waitOption: nat, env: ConnectEnv, again: ConnectEnv)
    requires Connect(headerSize, s, ip, serverIp, serverPort, waitOption, env).status == InProgress
    requires env.stateAfterSyn == SynSent
    ensures
      var o := Connect(headerSize, s, ip, serverIp, serverPort, waitOption, env);
      Connect(headerSize, o.socket, o.ip, serverIp, serverPort, waitOption, again)
        == ConnectOutcome(o.socket, o.ip, NotClosed, None, None, false)
  {
  }
}
