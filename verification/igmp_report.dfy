/**
 * `_nx_igmp_interface_report_send`: build an IGMP membership report (or,
 * to an IGMPv2 router, a leave message), checksum it and hand it to the IP
 * layer. The message is two 32-bit words in host order: word 0 holds the
 * type, the maximum response time and the checksum, word 1 the group
 * address.
 */
module IgmpReport {
  import opened Common
  import opened Bits
  import opened Checksum

  /** The value of NX_TRUE: only this exact value of `is_joining` counts as a join in some tests. */
  const NxTrue: nat := 1

  /** The build-time constants the report is assembled from. */
  datatype IgmpConfig = IgmpConfig(
    hostVersion1: nat,          // router version value meaning IGMPv1
    version: Word,              // version nibble, in place in word 0
    hostResponseType: Word,     // IGMPv1 report type, in place in word 0
    v2JoinType: Word,           // IGMPv2 membership report, in place in word 0
    v2LeaveType: Word,          // IGMPv2 leave group, in place in word 0
    allRoutersAddress: Word)    // 224.0.0.2

  /** IGMPv1 report word: version and type OR-ed together. */
  function VersionResponse(c: IgmpConfig): (w: Word)
  {
    WordBitOr(c.version, c.hostResponseType);
    BitOr(c.version, c.hostResponseType)
  }

  /** The type words leave the low half (where the checksum goes) clear. */
  predicate ValidConfig(c: IgmpConfig)
  {
    && VersionResponse(c) % FieldModulus == 0
    && c.v2JoinType % FieldModulus == 0
    && c.v2LeaveType % FieldModulus == 0
  }

  /** The constants of RFC 2236 (types 0x12, 0x16, 0x17 in the top byte, all-routers 224.0.0.2). */
  const Rfc2236Config: IgmpConfig :=
    IgmpConfig(1, 0x1000_0000, 0x0200_0000, 0x1600_0000, 0x1700_0000, 0xE000_0002)

  /** With the RFC 2236 constants the IGMPv1 report word is 0x1200_0000: the two constants share no bits. */
  lemma Rfc2236VersionResponse()
    ensures VersionResponse(Rfc2236Config) == 0x1200_0000
  {
    assert Pow2(26) == 0x400_0000 by {
      Pow2Values();
      Pow2Add(16, 10);
    }
    assert 0x1000_0000 == 4 * Pow2(26);
    MultipleHasLowBitsClear(4, 26);
    BitOrDisjoint(0x1000_0000, 0x0200_0000, 26);
  }

  /** Word 0 before the checksum: chosen by the router's version and the join flag. */
  function ReportType(c: IgmpConfig, routerVersion: nat, isJoining: nat): Word
  {
    if routerVersion == c.hostVersion1 then VersionResponse(c)
    else if isJoining != 0 then c.v2JoinType
    else c.v2LeaveType
  }

  /** The four 16-bit fields of the message, most significant first. */
  function Halves(w0: Word, w1: Word): (xs: seq<int>)
    ensures Fields16(xs) && |xs| == 4
  {
    [w0 / FieldModulus, w0 % FieldModulus, w1 / FieldModulus, w1 % FieldModulus]
  }

  /** The checksum accumulation of the C code: add the four halves in a ULONG, then fold twice. */
  function FoldedSum(w0: Word, w1: Word): (f: nat)
    ensures f <= 0xFFFF
  {
    var s := w0 / FieldModulus + w0 % FieldModulus + w1 / FieldModulus + w1 % FieldModulus;
    Fold(Fold(s))
  }

  /** `~checksum & NX_LOWER_16_MASK` on a 32-bit checksum. */
  function Complement16(x: nat): (r: nat)
    ensures r < FieldModulus
  {
    0xFFFF - x % FieldModulus
  }

  /** Word 0 with the complemented checksum OR-ed into its low half. */
  function WithChecksum(w0: Word, w1: Word): Word
  {
    WordBitOr(w0, Complement16(FoldedSum(w0, w1)));
    BitOr(w0, Complement16(FoldedSum(w0, w1)))
  }

  /** The C accumulation computes the ones'-complement sum of RFC 1071. */
  lemma FoldedSumIsOnesSum(w0: Word, w1: Word)
    ensures FoldedSum(w0, w1) == OnesSum(Halves(w0, w1))
  {
    var xs := Halves(w0, w1);
    Sum4(w0 / FieldModulus, w0 % FieldModulus, w1 / FieldModulus, w1 % FieldModulus);
    FoldTwiceIsOnesSum(xs);
  }

  /**
   * The checksum is correct: when word 0's low half starts clear, the
   * finished message keeps word 0's high half, carries the complement of
   * the ones'-complement sum in its low half, its four fields add up (in
   * ones' complement) to 0xFFFF, and a receiver recomputing the checksum
   * over the finished message gets zero.
   */
  lemma ChecksumVerifies(w0: Word, w1: Word)
    requires w0 % FieldModulus == 0
    ensures WithChecksum(w0, w1) / FieldModulus == w0 / FieldModulus
    ensures WithChecksum(w0, w1) % FieldModulus == 0xFFFF - OnesSum(Halves(w0, w1))
    ensures OnesSum(Halves(WithChecksum(w0, w1), w1)) == 0xFFFF
    ensures Complement16(FoldedSum(WithChecksum(w0, w1), w1)) == 0
  {
    var f := FoldedSum(w0, w1);
    var cs := 0xFFFF - f;
    assert Complement16(f) == cs;
    OrIntoClearLowHalf(w0, cs);
    var w := WithChecksum(w0, w1);
    assert w == w0 + cs;
    assert w / FieldModulus == w0 / FieldModulus && w % FieldModulus == cs;
    var before := Halves(w0, w1);
    var after := Halves(w, w1);
    Sum4(w0 / FieldModulus, w0 % FieldModulus, w1 / FieldModulus, w1 % FieldModulus);
    Sum4(w / FieldModulus, w % FieldModulus, w1 / FieldModulus, w1 % FieldModulus);
    OnesSumResidue(before);
    FoldedSumIsOnesSum(w0, w1);
    assert Sum(after) == 0xFFFF * (Carries(before) + 1);
    MultipleSumsToMinusZero(after, Carries(before) + 1);
    FoldedSumIsOnesSum(w, w1);
    FoldedSumIsOnesSum(w0, w1);
  }

  /** The IP instance's IGMP state this operation reads and writes. */
  datatype IgmpInstance = IgmpInstance(routerVersion: nat, reportsSent: Word)

  /** The message handed to the IP layer, with where it goes. */
  datatype Report = Report(word0: Word, word1: Word, interfaceIndex: nat, destination: Word, nextHop: Word)

  datatype ReportOutcome = ReportOutcome(ip: IgmpInstance, status: Status, sent: Option<Report>)

  /**
   * `_nx_igmp_interface_report_send`. `allocStatus` is the packet
   * allocator's completion code.
   */
  function ReportSend(c: IgmpConfig, ip: IgmpInstance, group: Word, interfaceIndex: nat, isJoining: nat,
                      allocStatus: nat): (o: ReportOutcome)
    ensures allocStatus != 0 ==> o == ReportOutcome(ip, Passed(allocStatus), None)
    ensures allocStatus == 0 ==> o.status == Success && o.sent.Some?
    ensures o.ip.routerVersion == ip.routerVersion
    ensures o.ip.reportsSent
            == if allocStatus == 0 && isJoining == NxTrue then Wrap(ip.reportsSent + 1) else ip.reportsSent
    ensures o.sent.Some? ==>
              var r := o.sent.value;
              && r.word1 == group
              && r.interfaceIndex == interfaceIndex
              && r.destination == r.nextHop == (if isJoining == NxTrue then group else c.allRoutersAddress)
              && (ValidConfig(c) ==>
                    && r.word0 / FieldModulus == ReportType(c, ip.routerVersion, isJoining) / FieldModulus
                    && r.word0 % FieldModulus == 0xFFFF - OnesSum(Halves(ReportType(c, ip.routerVersion, isJoining), group))
                    && OnesSum(Halves(r.word0, r.word1)) == 0xFFFF)
  {
    if allocStatus != 0 then
      ReportOutcome(ip, Passed(allocStatus), None)
    else
      var counted := if isJoining == NxTrue then ip.(reportsSent := Wrap(ip.reportsSent + 1)) else ip;
      var w0 := ReportType(c, ip.routerVersion, isJoining);
      var word0 := WithChecksum(w0, group);
      var to := if isJoining == NxTrue then group else c.allRoutersAddress;
      assert ValidConfig(c) ==>
               && word0 / FieldModulus == w0 / FieldModulus
               && word0 % FieldModulus == 0xFFFF - OnesSum(Halves(w0, group))
               && OnesSum(Halves(word0, group)) == 0xFFFF
      by {
        if ValidConfig(c) {
          ChecksumVerifies(w0, group);
        }
      }
      ReportOutcome(counted, Success, Some(Report(word0, group, interfaceIndex, to, to)))
  }

  /** The type byte (bits 24..31) and the maximum response time (bits 16..23) of word 0. */
  function TypeByte(w: Word): nat { w / 0x100_0000 }
  function MaxResponseTime(w: Word): nat { w / FieldModulus % 0x100 }

  /**
   * With the RFC 2236 constants the report has type 0x12 (IGMPv1 report)
   * when the router runs IGMPv1 whatever the join flag, otherwise 0x16
   * (v2 membership report) for a join and 0x17 (leave group) for a leave,
   * always with a zero maximum response time.
   */
  lemma Rfc2236ReportTypes(ip: IgmpInstance, group: Word, interfaceIndex: nat, isJoining: nat)
    ensures var r := ReportSend(Rfc2236Config, ip, group, interfaceIndex, isJoining, 0).sent.value;
      && TypeByte(r.word0) == (if ip.routerVersion == 1 then 0x12 else if isJoining != 0 then 0x16 else 0x17)
      && MaxResponseTime(r.word0) == 0
  {
    Rfc2236VersionResponse();
  }

  /**
   * Leave messages go to all routers and are not counted. The join flag is
   * tested two ways: for the message type any non-zero value means join,
   * but for the destination and the count only NX_TRUE does, so a flag of
   * 2 sent to an IGMPv2 router builds a membership report addressed to all
   * routers and leaves the report count alone.
   */
  lemma JoinFlagTestedTwoWays(ip: IgmpInstance, group: Word, interfaceIndex: nat)
    requires ip.routerVersion != 1
    ensures var o := ReportSend(Rfc2236Config, ip, group, interfaceIndex, 2, 0);
      && TypeByte(o.sent.value.word0) == 0x16
      && o.sent.value.destination == 0xE000_0002
      && o.ip.reportsSent == ip.reportsSent
  {
    Rfc2236ReportTypes(ip, group, interfaceIndex, 2);
  }
}
