/** devIocStats/os/RTEMS/osdIPStat.c: the RTEMS network statistics. The kernel's udpstat,
    tcpstat and ipstat counters are inputs; the accessor maps them, by straight-line field
    assignments and sums, into an ipStatInfo. */
module RtemsIPStat {
  import opened IocStatsTypes

  /** 2^32: the width of `unsigned long` (u_long) on the 32-bit RTEMS targets. */
  const ULONG_MOD: nat := 0x1_0000_0000

  type ULong = x: int | 0 <= x < ULONG_MOD

  /** The udpstat counters the accessor reads. */
  datatype UdpStat = UdpStat(
    ipackets: ULong, opackets: ULong,
    badlen: ULong, badsum: ULong, noportbcast: ULong, noport: ULong)

  /** The tcpstat counters the accessor reads. */
  datatype TcpStat = TcpStat(
    sndpack: ULong, rcvpack: ULong,
    rcvbadoff: ULong, rcvbadsum: ULong, rcvshort: ULong, drops: ULong, pawsdrop: ULong)

  /** The ipstat counters the accessor reads. */
  datatype IpStat = IpStat(
    total: ULong,
    badhlen: ULong, badlen: ULong, badsum: ULong, badoptions: ULong, badvers: ULong,
    noroute: ULong, noproto: ULong, cantforward: ULong, toolong: ULong, tooshort: ULong,
    toosmall: ULong)

  /** One unsigned long addition (section 6.2.5 of ISO/IEC 9899:2011: reduced modulo 2^N). */
  function UAdd(a: nat, b: nat): (r: nat)
    ensures r < ULONG_MOD
    ensures a + b < ULONG_MOD ==> r == a + b
  {
    (a + b) % ULONG_MOD
  }

  /** Two counters below 2^32 whose sum reaches 2^32 wrap around exactly once. */
  lemma UAddWraps(a: nat, b: nat)
    requires a < ULONG_MOD && b < ULONG_MOD && a + b >= ULONG_MOD
    ensures UAdd(a, b) == a + b - ULONG_MOD
  {
  }

  /** One more wrapping addition keeps a running total equal to the exact total mod 2^32. */
  lemma UAddStep(w: nat, total: nat, x: nat)
    requires w == total % ULONG_MOD
    ensures UAdd(w, x) == (total + x) % ULONG_MOD
  {
  }

  /** udp_err: the four UDP error counters added left to right in unsigned long. */
  function UdpErrors(u: UdpStat): (r: nat)
    ensures r == (u.badlen + u.badsum + u.noportbcast + u.noport) % ULONG_MOD
  {
    var w2 := UAdd(u.badlen, u.badsum);
    UAddStep(w2, u.badlen + u.badsum, u.noportbcast);
    var w3 := UAdd(w2, u.noportbcast);
    UAddStep(w3, u.badlen + u.badsum + u.noportbcast, u.noport);
    UAdd(w3, u.noport)
  }

  /** tcp_err: the five TCP error counters added left to right in unsigned long. */
  function TcpErrors(t: TcpStat): (r: nat)
    ensures r == (t.rcvbadoff + t.rcvbadsum + t.rcvshort + t.drops + t.pawsdrop) % ULONG_MOD
  {
    var s2 := t.rcvbadoff + t.rcvbadsum;
    var w2 := UAdd(t.rcvbadoff, t.rcvbadsum);
    UAddStep(w2, s2, t.rcvshort);
    var w3 := UAdd(w2, t.rcvshort);
    UAddStep(w3, s2 + t.rcvshort, t.drops);
    var w4 := UAdd(w3, t.drops);
    UAddStep(w4, s2 + t.rcvshort + t.drops, t.pawsdrop);
    UAdd(w4, t.pawsdrop)
  }

  /** ip_err: the eleven IP error counters added left to right in unsigned long. */
  function IpErrors(i: IpStat): (r: nat)
    ensures r == (i.badhlen + i.badlen + i.badsum + i.badoptions + i.badvers + i.noroute
                  + i.noproto + i.cantforward + i.toolong + i.tooshort + i.toosmall) % ULONG_MOD
  {
    var s2 := i.badhlen + i.badlen;
    var w2 := UAdd(i.badhlen, i.badlen);
    UAddStep(w2, s2, i.badsum);
    var s3 := s2 + i.badsum;
    var w3 := UAdd(w2, i.badsum);
    UAddStep(w3, s3, i.badoptions);
    var s4 := s3 + i.badoptions;
    var w4 := UAdd(w3, i.badoptions);
    UAddStep(w4, s4, i.badvers);
    var s5 := s4 + i.badvers;
    var w5 := UAdd(w4, i.badvers);
    UAddStep(w5, s5, i.noroute);
    var s6 := s5 + i.noroute;
    var w6 := UAdd(w5, i.noroute);
    UAddStep(w6, s6, i.noproto);
    var s7 := s6 + i.noproto;
    var w7 := UAdd(w6, i.noproto);
    UAddStep(w7, s7, i.cantforward);
    var s8 := s7 + i.cantforward;
    var w8 := UAdd(w7, i.cantforward);
    UAddStep(w8, s8, i.toolong);
    var s9 := s8 + i.toolong;
    var w9 := UAdd(w8, i.toolong);
    UAddStep(w9, s9, i.tooshort);
    var s10 := s9 + i.tooshort;
    var w10 := UAdd(w9, i.tooshort);
    UAddStep(w10, s10, i.toosmall);
    UAdd(w10, i.toosmall)
  }

  /** devIocStatsInitIPStat: nothing to set up. */
  function InitIPStat(): (rc: int)
    ensures rc == 0
  {
    0
  }

  /** devIocStatsGetIPStat: returns 0 and the record it writes; the record depends on the
      kernel counters only, since every one of its eight fields is assigned. */
  function GetIPStat(udp: UdpStat, tcp: TcpStat, ip: IpStat): (r: (int, IpStatInfo))
    ensures r.0 == 0
    ensures r.1.udpRecv == udp.ipackets && r.1.udpSend == udp.opackets
    ensures r.1.udpErr ==
      (udp.badlen + udp.badsum + udp.noportbcast + udp.noport) % ULONG_MOD
    ensures r.1.tcpSend == tcp.sndpack && r.1.tcpRecv == tcp.rcvpack
    ensures r.1.tcpErr ==
      (tcp.rcvbadoff + tcp.rcvbadsum + tcp.rcvshort + tcp.drops + tcp.pawsdrop) % ULONG_MOD
    ensures r.1.ipErr ==
      (ip.badhlen + ip.badlen + ip.badsum + ip.badoptions + ip.badvers + ip.noroute
       + ip.noproto + ip.cantforward + ip.toolong + ip.tooshort + ip.toosmall) % ULONG_MOD
    ensures r.1.ipRecv == ip.total
  {
    (0, IpStatInfo(
      ipRecv := ip.total,
      ipErr := IpErrors(ip),
      udpRecv := udp.ipackets,
      udpSend := udp.opackets,
      udpErr := UdpErrors(udp),
      tcpRecv := tcp.rcvpack,
      tcpSend := tcp.sndpack,
      tcpErr := TcpErrors(tcp)))
  }

  /** No error counter wraps while the raw counters it adds stay below 2^32 in total. */
  lemma ErrorsExactWithoutOverflow(udp: UdpStat, tcp: TcpStat, ip: IpStat)
    requires udp.badlen + udp.badsum + udp.noportbcast + udp.noport < ULONG_MOD
    requires tcp.rcvbadoff + tcp.rcvbadsum + tcp.rcvshort + tcp.drops + tcp.pawsdrop < ULONG_MOD
    requires ip.badhlen + ip.badlen + ip.badsum + ip.badoptions + ip.badvers + ip.noroute
             + ip.noproto + ip.cantforward + ip.toolong + ip.tooshort + ip.toosmall < ULONG_MOD
    ensures GetIPStat(udp, tcp, ip).1.udpErr == udp.badlen + udp.badsum + udp.noportbcast + udp.noport
    ensures GetIPStat(udp, tcp, ip).1.tcpErr ==
      tcp.rcvbadoff + tcp.rcvbadsum + tcp.rcvshort + tcp.drops + tcp.pawsdrop
    ensures GetIPStat(udp, tcp, ip).1.ipErr ==
      ip.badhlen + ip.badlen + ip.badsum + ip.badoptions + ip.badvers + ip.noroute
      + ip.noproto + ip.cantforward + ip.toolong + ip.tooshort + ip.toosmall
  {
    var r := GetIPStat(udp, tcp, ip).1;
    var su := udp.badlen + udp.badsum + udp.noportbcast + udp.noport;
    var st := tcp.rcvbadoff + tcp.rcvbadsum + tcp.rcvshort + tcp.drops + tcp.pawsdrop;
    var si := ip.badhlen + ip.badlen + ip.badsum + ip.badoptions + ip.badvers + ip.noroute
              + ip.noproto + ip.cantforward + ip.toolong + ip.tooshort + ip.toosmall;
    assert r.udpErr == su % ULONG_MOD == su;
    assert r.tcpErr == st % ULONG_MOD == st;
    assert r.ipErr == si % ULONG_MOD == si;
  }
}
