/**
 * Binding a UDP socket to a port. The IP instance keeps a port table: a
 * power-of-two array of buckets, each the head of a ring of the sockets
 * bound to ports that hash to that bucket. A bind either inserts the socket
 * at the tail of its bucket's ring, refuses, or (when the port is held and
 * the caller is willing to wait) queues the caller's thread on the holder's
 * bind-suspension list.
 *
 * The call is one atomic step: the mutex, the interrupt lockout and the
 * thread suspension itself are not modelled; the suspend status the thread
 * eventually receives is an input.
 */
module UdpBind {
  import opened Common
  import opened Bits
  import opened Rings

  type SocketId = nat
  type ThreadId = nat

  /**
   * The binding fields of a UDP socket. Whether the socket is bound is its
   * membership in a bucket ring; `waitingOn` is the back link the socket
   * uses, while its bind waits, to remember the socket that holds the port.
   */
  datatype UdpSocket = UdpSocket(
    port: Word,
    waitingOn: Option<SocketId>,
    bindInProgress: Option<ThreadId>,      // the thread whose bind is pending
    bindSuspensionList: seq<ThreadId>,     // threads waiting for this socket's port, head first
    bindSuspendedCount: Word)

  /** The port table of an IP instance and the sockets it links to. */
  datatype PortTable = PortTable(buckets: seq<seq<SocketId>>, sockets: map<SocketId, UdpSocket>)

  /**
   * Build-time constants: the "any port" request value, the ephemeral search
   * range and the table size 2^tableBits (its mask is the size minus one).
   */
  datatype UdpConfig = UdpConfig(anyPort: Word, searchPortStart: nat, maxPort: nat, tableBits: nat)

  predicate ValidConfig(c: UdpConfig)
  {
    c.searchPortStart <= c.maxPort < WordModulus
  }

  function TableSize(c: UdpConfig): nat
  {
    Pow2(c.tableBits)
  }

  /**
   * The bucket a port hashes to: the port plus its high byte, in 32-bit
   * arithmetic, masked to the table. Masking with size - 1 keeps the value
   * modulo the power-of-two size.
   */
  function BucketIndex(c: UdpConfig, port: Word): (i: nat)
    ensures i < TableSize(c)
  {
    Wrap(port + port / 0x100) % TableSize(c)
  }

  /** Every ring member is a known socket and the table has its configured size. */
  predicate WellFormed(c: UdpConfig, t: PortTable)
  {
    && |t.buckets| == TableSize(c)
    && forall b, i :: 0 <= b < |t.buckets| && 0 <= i < |t.buckets[b]| ==> t.buckets[b][i] in t.sockets
  }

  /**
   * The port-table invariant: the table is well formed, every socket sits in
   * the bucket its port hashes to, and no two members of a ring share a port.
   */
  predicate Valid(c: UdpConfig, t: PortTable)
  {
    && WellFormed(c, t)
    && (forall b, i :: 0 <= b < |t.buckets| && 0 <= i < |t.buckets[b]| ==>
          BucketIndex(c, t.sockets[t.buckets[b][i]].port) == b)
    && (forall b, i, j :: 0 <= b < |t.buckets| && 0 <= i < j < |t.buckets[b]| ==>
          t.sockets[t.buckets[b][i]].port != t.sockets[t.buckets[b][j]].port)
  }

  /** The socket is on some bucket ring. */
  predicate InTable(t: PortTable, id: SocketId)
  {
    exists b :: 0 <= b < |t.buckets| && id in t.buckets[b]
  }

  /** The socket at position i of bucket b is bound to port p. */
  predicate HoldsPort(t: PortTable, b: int, i: int, p: Word)
  {
    && 0 <= b < |t.buckets|
    && 0 <= i < |t.buckets[b]|
    && t.buckets[b][i] in t.sockets
    && t.sockets[t.buckets[b][i]].port == p
  }

  /** Some bound socket holds port p. */
  ghost predicate PortInUse(t: PortTable, p: Word)
  {
    exists b, i :: HoldsPort(t, b, i, p)
  }

  /** The socket is bound already or has a bind pending. */
  predicate Binding(t: PortTable, id: SocketId)
    requires id in t.sockets
  {
    InTable(t, id) || t.sockets[id].bindInProgress.Some?
  }

  /**
   * Position of the first ring member bound to `port`, scanning from the
   * head; None when no member holds it.
   */
  function FirstMatch(ring: seq<SocketId>, sockets: map<SocketId, UdpSocket>, port: Word): (r: Option<nat>)
    requires forall i :: 0 <= i < |ring| ==> ring[i] in sockets
    ensures r.Some? ==> r.value < |ring| && sockets[ring[r.value]].port == port
    ensures r.Some? ==> forall i :: 0 <= i < r.value ==> sockets[ring[i]].port != port
    ensures r.None? ==> forall i :: 0 <= i < |ring| ==> sockets[ring[i]].port != port
    decreases |ring|
  {
    if |ring| == 0 then None
    else if sockets[ring[0]].port == port then Some(0)
    else
      match FirstMatch(ring[1..], sockets, port)
      case None => None
      case Some(k) => Some(k + 1)
  }

  /**
   * The bucket walk of the bind: start at the head, stop at the first member
   * bound to `port`, or when the forward link leads back to the head.
   * `compared` counts the members whose port was examined.
   */
  method ScanBucket(ring: seq<SocketId>, sockets: map<SocketId, UdpSocket>, port: Word)
    returns (found: Option<nat>, compared: nat)
    requires Distinct(ring)
    requires forall i :: 0 <= i < |ring| ==> ring[i] in sockets
    ensures found == FirstMatch(ring, sockets, port)
    ensures found.Some? ==> compared == found.value + 1
    ensures found.None? ==> compared == |ring|
  {
    found := None;
    compared := 0;
    if |ring| == 0 {
      return;
    }
    var k := 0;
    var search := ring[0];
    var end := search;
    while true
      invariant 0 <= k < |ring| && search == ring[k] && end == ring[0]
      invariant compared == k
      invariant forall i :: 0 <= i < k ==> sockets[ring[i]].port != port
      decreases |ring| - k
    {
      compared := compared + 1;
      if sockets[search].port == port {
        found := Some(k);
        return;
      }
      k := NextIndex(|ring|, k);
      search := ring[k];
      if search == end {
        return;
      }
    }
  }

  /**
   * What the call learns from outside: the random draw for an ephemeral
   * port, the free-port search's answer, the calling thread and the status
   * a suspended caller is eventually resumed with.
   */
  datatype BindEnv = BindEnv(rand: nat, freePort: Option<Word>, thread: ThreadId, suspendStatus: nat)

  /**
   * The table when the call returns (for a suspended caller: when it
   * suspends, before anything that resumes it has run), the completion
   * status (for a suspended caller: the status it is resumed with), the port
   * the ephemeral search started from (if one ran), the socket found holding
   * the port (if any), and whether the caller was suspended.
   */
  datatype BindOutcome = BindOutcome(
    table: PortTable,
    status: Status,
    searchStart: Option<Word>,
    owner: Option<SocketId>,
    suspended: bool)

  /** Where the search for a free ephemeral port starts. */
  function EphemeralStart(c: UdpConfig, rand: nat): (p: Word)
    requires ValidConfig(c)
    ensures c.searchPortStart <= p <= c.maxPort
  {
    c.searchPortStart + rand % (c.maxPort + 1 - c.searchPortStart)
  }

  /** The port the bind goes on with, None when the ephemeral search found none. */
  function RequestedPort(c: UdpConfig, port: Word, env: BindEnv): Option<Word>
  {
    if port == c.anyPort then env.freePort else Some(port)
  }

  /**
   * `w` is the socket holding port p that a walk of bucket b from its head
   * meets first.
   */
  ghost predicate FirstHolder(t: PortTable, b: int, p: Word, w: SocketId)
  {
    exists k :: HoldsPort(t, b, k, p) && t.buckets[b][k] == w && forall j :: 0 <= j < k ==> !HoldsPort(t, b, j, p)
  }

  /** `_nx_udp_socket_bind` for socket `id`. */
  function Bind(c: UdpConfig, t: PortTable, id: SocketId, port: Word, waitOption: nat, env: BindEnv): (o: BindOutcome)
    requires ValidConfig(c) && WellFormed(c, t) && id in t.sockets
    ensures WellFormed(c, o.table) && o.table.sockets.Keys == t.sockets.Keys
    ensures Binding(t, id) ==> o == BindOutcome(t, AlreadyBound, None, None, false)
    ensures !Binding(t, id) && port == c.anyPort ==>
              o.searchStart.Some? && c.searchPortStart <= o.searchStart.value <= c.maxPort
    ensures !Binding(t, id) && RequestedPort(c, port, env).None? ==>
              o.status == NoFreePorts && o.table == t && !o.suspended
    ensures !Binding(t, id) && RequestedPort(c, port, env).Some? ==>
              var p := RequestedPort(c, port, env).value;
              var b := BucketIndex(c, p);
              && o.table.sockets[id].port == p
              && (o.owner.None? <==> !exists i :: HoldsPort(t, b, i, p))
              && (o.owner.Some? ==> FirstHolder(t, b, p, o.owner.value))
              && (o.owner.None? ==>
                    && o.status == Success && !o.suspended
                    && o.table.buckets == t.buckets[b := t.buckets[b] + [id]]
                    && o.table.sockets == t.sockets[id := t.sockets[id].(port := p)])
              && (o.owner.Some? && waitOption == 0 ==>
                    && o.status == PortUnavailable && !o.suspended
                    && o.table.buckets == t.buckets
                    && o.table.sockets == t.sockets[id := t.sockets[id].(port := p)])
              && (o.owner.Some? && waitOption != 0 ==>
                    var w := o.owner.value;
                    && o.suspended && o.status == FromCode(env.suspendStatus)
                    && o.table.buckets == t.buckets
                    && o.table.sockets
                       == t.sockets[id := t.sockets[id].(port := p, waitingOn := Some(w), bindInProgress := Some(env.thread))]
                                   [w := t.sockets[w].(bindSuspensionList := t.sockets[w].bindSuspensionList + [env.thread],
                                                       bindSuspendedCount := Wrap(t.sockets[w].bindSuspendedCount + 1))])
  {
    var s := t.sockets[id];
    if Binding(t, id) then
      BindOutcome(t, AlreadyBound, None, None, false)
    else
      var start := if port == c.anyPort then Some(EphemeralStart(c, env.rand)) else None;
      match RequestedPort(c, port, env)
      case None =>
        BindOutcome(t, NoFreePorts, start, None, false)
      case Some(p) =>
        var named := t.sockets[id := s.(port := p)];
        var b := BucketIndex(c, p);
        var ring := t.buckets[b];
        match FirstMatch(ring, t.sockets, p)
        case None =>
          BindOutcome(PortTable(t.buckets[b := ring + [id]], named), Success, start, None, false)
        case Some(k) =>
          var owner := ring[k];
          assert owner != id;
          assert HoldsPort(t, b, k, p);
          if waitOption != 0 then
            var w := t.sockets[owner];
            var queued := named[owner := w.(bindSuspensionList := w.bindSuspensionList + [env.thread],
                                            bindSuspendedCount := Wrap(w.bindSuspendedCount + 1))];
            var waiting := queued[id := s.(port := p, waitingOn := Some(owner), bindInProgress := Some(env.thread))];
            BindOutcome(PortTable(t.buckets, waiting), FromCode(env.suspendStatus), start, Some(owner), true)
          else
            BindOutcome(PortTable(t.buckets, named), PortUnavailable, start, Some(owner), false)
  }

  /**
   * Under the invariant, a port is held somewhere in the table exactly when
   * it is held in the bucket it hashes to, so scanning one bucket suffices.
   */
  lemma InUseIffInOwnBucket(c: UdpConfig, t: PortTable, p: Word)
    requires Valid(c, t)
    ensures PortInUse(t, p) <==> exists i :: HoldsPort(t, BucketIndex(c, p), i, p)
  {
    if PortInUse(t, p) {
      var b, i :| HoldsPort(t, b, i, p);
      assert HoldsPort(t, BucketIndex(c, p), i, p);
    }
  }

  /** Under the invariant no socket appears twice on a ring, so the bucket walk terminates. */
  lemma ValidRingsDistinct(c: UdpConfig, t: PortTable, b: nat)
    requires Valid(c, t) && b < |t.buckets|
    ensures Distinct(t.buckets[b])
  {
  }

  /**
   * Port uniqueness across the whole table: two positions holding the same
   * port are the same position, so no two bound sockets share a port.
   */
  lemma PortsUnique(c: UdpConfig, t: PortTable, b1: int, i1: int, b2: int, i2: int, p: Word)
    requires Valid(c, t)
    requires HoldsPort(t, b1, i1, p) && HoldsPort(t, b2, i2, p)
    ensures b1 == b2 && i1 == i2
  {
    assert b1 == BucketIndex(c, p) == b2;
  }

  /** Every outcome of a bind leaves the port-table invariant intact. */
  lemma BindPreservesValid(c: UdpConfig, t: PortTable, id: SocketId, port: Word, waitOption: nat, env: BindEnv)
    requires ValidConfig(c) && Valid(c, t) && id in t.sockets
    ensures Valid(c, Bind(c, t, id, port, waitOption, env).table)
  {
    var o := Bind(c, t, id, port, waitOption, env);
    if !Binding(t, id) && RequestedPort(c, port, env).Some? {
      var p := RequestedPort(c, port, env).value;
      var b := BucketIndex(c, p);
      var u := o.table;
      // the caller is on no ring, so every old ring member keeps its record's port
      assert forall bb, i :: 0 <= bb < |t.buckets| && 0 <= i < |t.buckets[bb]| ==> t.buckets[bb][i] != id;
      if o.owner.None? {
        forall bb, i | 0 <= bb < |u.buckets| && 0 <= i < |u.buckets[bb]|
          ensures BucketIndex(c, u.sockets[u.buckets[bb][i]].port) == bb
        {
          if bb != b || i < |t.buckets[b]| {
            assert u.buckets[bb][i] == t.buckets[bb][i];
          }
        }
        forall bb, i, j | 0 <= bb < |u.buckets| && 0 <= i < j < |u.buckets[bb]|
          ensures u.sockets[u.buckets[bb][i]].port != u.sockets[u.buckets[bb][j]].port
        {
          assert u.buckets[bb][i] == t.buckets[bb][i];
          if bb == b && j == |t.buckets[b]| {
            assert !HoldsPort(t, b, i, p);
          } else {
            assert u.buckets[bb][j] == t.buckets[bb][j];
          }
        }
      } else {
        assert u.buckets == t.buckets;
        assert forall bb, i :: 0 <= bb < |t.buckets| && 0 <= i < |t.buckets[bb]| ==>
          u.sockets[t.buckets[bb][i]].port == t.sockets[t.buckets[bb][i]].port;
      }
    }
  }

  /**
   * A bind that succeeds without waiting leaves the caller on the table as
   * the one and only holder of its port.
   */
  lemma BindGrantsPortExclusively(c: UdpConfig, t: PortTable, id: SocketId, port: Word, waitOption: nat,
                                  env: BindEnv)
    requires ValidConfig(c) && Valid(c, t) && id in t.sockets
    requires Bind(c, t, id, port, waitOption, env).status == Success
    requires !Bind(c, t, id, port, waitOption, env).suspended
    ensures var u := Bind(c, t, id, port, waitOption, env).table;
      && InTable(u, id)
      && forall b, i :: HoldsPort(u, b, i, u.sockets[id].port) ==> u.buckets[b][i] == id
  {
    var o := Bind(c, t, id, port, waitOption, env);
    var u := o.table;
    var p := RequestedPort(c, port, env).value;
    var b := BucketIndex(c, p);
    var k := |t.buckets[b]|;
    BindPreservesValid(c, t, id, port, waitOption, env);
    assert u.buckets[b][k] == id;
    assert HoldsPort(u, b, k, p);
    forall bb, i | HoldsPort(u, bb, i, p)
      ensures u.buckets[bb][i] == id
    {
      PortsUnique(c, u, bb, i, b, k, p);
    }
  }

  /** At most one socket is the first holder of a port in a bucket. */
  lemma FirstHolderUnique(t: PortTable, b: int, p: Word, w1: SocketId, w2: SocketId)
    requires FirstHolder(t, b, p, w1) && FirstHolder(t, b, p, w2)
    ensures w1 == w2
  {
    var k1 :| HoldsPort(t, b, k1, p) && t.buckets[b][k1] == w1 && forall j :: 0 <= j < k1 ==> !HoldsPort(t, b, j, p);
    var k2 :| HoldsPort(t, b, k2, p) && t.buckets[b][k2] == w2 && forall j :: 0 <= j < k2 ==> !HoldsPort(t, b, j, p);
    assert k1 == k2;
  }

  /**
   * The wait option is only tested against zero (its value is otherwise the
   * timeout, which is not modelled): every non-zero option gives the outcome
   * of option 1. The lemmas below about waiting binds use option 1 and so
   * cover every non-zero option.
   */
  lemma AnyWaitOptionWaitsAlike(c: UdpConfig, t: PortTable, id: SocketId, port: Word, waitOption: nat, env: BindEnv)
    requires ValidConfig(c) && WellFormed(c, t) && id in t.sockets
    requires waitOption != 0
    ensures Bind(c, t, id, port, waitOption, env) == Bind(c, t, id, port, 1, env)
  {
  }

  /**
   * A bind that waits behind a holder changes no ring and no port held on
   * a ring, and no other socket's binding state: only the caller and the
   * holder's queue are touched, and the holder stays the first holder.
   * Stated for wait option 1, which stands for any non-zero option
   * (`AnyWaitOptionWaitsAlike`).
   */
  lemma WaitingBindKeepsHolders(c: UdpConfig, t: PortTable, id: SocketId, p: Word, env: BindEnv)
    requires ValidConfig(c) && WellFormed(c, t) && id in t.sockets
    requires !Binding(t, id) && p != c.anyPort
    requires exists i :: HoldsPort(t, BucketIndex(c, p), i, p)
    ensures var o := Bind(c, t, id, p, 1, env);
      var bk := BucketIndex(c, p);
      && o.suspended && o.owner.Some?
      && FirstHolder(t, bk, p, o.owner.value) && FirstHolder(o.table, bk, p, o.owner.value)
      && o.table.buckets == t.buckets
      && o.table.sockets[o.owner.value].bindSuspensionList
         == t.sockets[o.owner.value].bindSuspensionList + [env.thread]
      && (forall x :: x in t.sockets && x != id ==> (Binding(o.table, x) <==> Binding(t, x)))
  {
    var o := Bind(c, t, id, p, 1, env);
    var bk := BucketIndex(c, p);
    var w := o.owner.value;
    assert forall b, i :: 0 <= b < |t.buckets| && 0 <= i < |t.buckets[b]| ==> t.buckets[b][i] != id;
    assert o.table.sockets[w].port == t.sockets[w].port;
    forall i | 0 <= i < |t.buckets[bk]|
      ensures HoldsPort(o.table, bk, i, p) <==> HoldsPort(t, bk, i, p)
    {
      var x := t.buckets[bk][i];
      assert o.table.sockets[x].port == t.sockets[x].port;
    }
    var k :| HoldsPort(t, bk, k, p) && t.buckets[bk][k] == w && forall j :: 0 <= j < k ==> !HoldsPort(t, bk, j, p);
    assert HoldsPort(o.table, bk, k, p);
  }

  /**
   * A waiting bind (wait option 1, standing for any non-zero option) for a
   * port whose first holder is `w` queues the caller on w.
   */
  lemma QueueBehind(c: UdpConfig, t: PortTable, id: SocketId, p: Word, env: BindEnv, w: SocketId)
    requires ValidConfig(c) && WellFormed(c, t) && id in t.sockets
    requires !Binding(t, id) && p != c.anyPort
    requires FirstHolder(t, BucketIndex(c, p), p, w)
    ensures var o := Bind(c, t, id, p, 1, env);
      && o.suspended && o.owner == Some(w)
      && FirstHolder(o.table, BucketIndex(c, p), p, w)
      && o.table.buckets == t.buckets
      && o.table.sockets[w].bindSuspensionList == t.sockets[w].bindSuspensionList + [env.thread]
      && (forall x :: x in t.sockets && x != id ==> (Binding(o.table, x) <==> Binding(t, x)))
  {
    var o := Bind(c, t, id, p, 1, env);
    WaitingBindKeepsHolders(c, t, id, p, env);
    FirstHolderUnique(t, BucketIndex(c, p), p, w, o.owner.value);
  }

  /** The threads of a sequence of callers, in order. */
  function Threads(envs: seq<BindEnv>): seq<ThreadId>
  {
    if |envs| == 0 then [] else [envs[0].thread] + Threads(envs[1..])
  }

  lemma ThreadsUnfold(before: seq<ThreadId>, envs: seq<BindEnv>)
    requires |envs| > 0
    ensures before + [envs[0].thread] + Threads(envs[1..]) == before + Threads(envs)
  {
  }

  /**
   * Sockets ids[0], ids[1], ... each bind port p with a non-zero wait option
   * (written as 1, see `AnyWaitOptionWaitsAlike`), in that order.
   */
  function WaitInTurn(c: UdpConfig, t: PortTable, ids: seq<SocketId>, p: Word, envs: seq<BindEnv>): (u: PortTable)
    requires ValidConfig(c) && WellFormed(c, t) && |envs| == |ids|
    requires forall i :: 0 <= i < |ids| ==> ids[i] in t.sockets
    ensures WellFormed(c, u) && u.sockets.Keys == t.sockets.Keys
    decreases |ids|
  {
    if |ids| == 0 then t
    else WaitInTurn(c, Bind(c, t, ids[0], p, 1, envs[0]).table, ids[1..], p, envs[1..])
  }

  /**
   * After the first of several waiting binds the rest are still unbound
   * sockets of the table, queued behind the same first holder.
   */
  lemma FirstWaiterQueued(c: UdpConfig, t: PortTable, ids: seq<SocketId>, p: Word, envs: seq<BindEnv>, w: SocketId)
    requires ValidConfig(c) && WellFormed(c, t) && |envs| == |ids| > 0
    requires forall i :: 0 <= i < |ids| ==> ids[i] in t.sockets && !Binding(t, ids[i])
    requires Distinct(ids)
    requires p != c.anyPort
    requires FirstHolder(t, BucketIndex(c, p), p, w)
    ensures var t1 := Bind(c, t, ids[0], p, 1, envs[0]).table;
      && WellFormed(c, t1)
      && (forall i :: 0 <= i < |ids[1..]| ==> ids[1..][i] in t1.sockets && !Binding(t1, ids[1..][i]))
      && Distinct(ids[1..])
      && FirstHolder(t1, BucketIndex(c, p), p, w)
      && t1.buckets == t.buckets
      && t1.sockets[w].bindSuspensionList == t.sockets[w].bindSuspensionList + [envs[0].thread]
  {
    QueueBehind(c, t, ids[0], p, envs[0], w);
    assert forall i :: 0 <= i < |ids[1..]| ==> ids[1..][i] == ids[i + 1] && ids[i + 1] != ids[0];
  }

  /**
   * Callers that contend for a held port are queued on the holder's
   * bind-suspension list in the order they arrive: after any number of
   * distinct unbound sockets bind a port whose first holder is w, w is
   * still its first holder, the rings are as they were, and w's list has
   * grown by exactly the callers' threads in arrival order.
   */
  lemma {:induction false} WaitersQueueInArrivalOrder(c: UdpConfig, t: PortTable, ids: seq<SocketId>, p: Word,
                                                      envs: seq<BindEnv>, w: SocketId)
    requires ValidConfig(c) && WellFormed(c, t) && |envs| == |ids|
    requires forall i :: 0 <= i < |ids| ==> ids[i] in t.sockets && !Binding(t, ids[i])
    requires Distinct(ids)
    requires p != c.anyPort
    requires FirstHolder(t, BucketIndex(c, p), p, w)
    ensures var u := WaitInTurn(c, t, ids, p, envs);
      && u.buckets == t.buckets
      && FirstHolder(u, BucketIndex(c, p), p, w)
      && u.sockets[w].bindSuspensionList == t.sockets[w].bindSuspensionList + Threads(envs)
    decreases |ids|
  {
    if |ids| > 0 {
      var t1 := Bind(c, t, ids[0], p, 1, envs[0]).table;
      FirstWaiterQueued(c, t, ids, p, envs, w);
      WaitersQueueInArrivalOrder(c, t1, ids[1..], p, envs[1..], w);
      ThreadsUnfold(t.sockets[w].bindSuspensionList, envs);
    }
  }
}
