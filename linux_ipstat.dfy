/** devIocStats/os/Linux/osdIPStat.c: the Linux netstat schema resolver. A table of twelve
    named counters, each with a column offset that starts at -1, is resolved from the text
    of /proc/net/netstat by scanning its lines for the `TcpExt: ` and `IpExt: ` headers.
    The first half of the module is the pure meaning of that scan, on the buffer's contents;
    the second half is the table and its Init and Get, proved to compute it. */
module LinuxIPStat {
  import opened CString
  import opened CLib
  import opened IocStatsTypes

  // ---------------------------------------------------------------------------------------
  // The counter table

  const L_IP_IN_RECV: nat := 0
  const L_IP_OUT_TRANS: nat := 1
  const L_IP_IN_UNK_PROTO: nat := 2
  const L_IP_REASM_TIMEO: nat := 3
  const L_IP_FIRST_PROP: nat := L_IP_IN_RECV
  const L_IP_LAST_PROP: nat := L_IP_REASM_TIMEO

  const L_UDP_IN_DG: nat := 4
  const L_UDP_IN_ERRS: nat := 5
  const L_UDP_OUT_DG: nat := 6
  const L_UDP_FIRST_PROP: nat := L_UDP_IN_DG
  const L_UDP_LAST_PROP: nat := L_UDP_OUT_DG

  const L_TCP_RETRANS_SEGS: nat := 7
  const L_TCP_IN_SEGS: nat := 8
  const L_TCP_OUT_SEGS: nat := 9
  const L_TCP_TIMEO: nat := 10
  const L_TCP_IN_ERRS: nat := 11
  const L_TCP_FIRST_PROP: nat := L_TCP_RETRANS_SEGS
  const L_TCP_LAST_PROP: nat := L_TCP_IN_ERRS

  const L_PROP_COUNT: nat := 12

  /** The `name` column of linuxNetStats, indexed by the enumeration above. It never changes. */
  const NAMES: seq<seq<char>> := [
    "IpInReceives", "IpOutTransmits", "IpInUnknownProtos", "IpReasmTimeout",
    "UdpInDatagrams", "UdpInErrors", "UdpOutDatagrams",
    "TcpRetransSegs", "TcpInSegs", "TcpOutSegs", "TcpExtTCPTimeouts", "TcpInErrs"]

  /** The `offset` column as the program starts: every counter unresolved. */
  const INITIAL_OFFSETS: seq<int> := seq(L_PROP_COUNT, _ => -1)

  /** The two line headers the resolver looks for. */
  const TCP_HEADER: seq<char> := "TcpExt: "
  const IP_HEADER: seq<char> := "IpExt: "

  predicate InTcp(i: int) { L_TCP_FIRST_PROP <= i <= L_TCP_LAST_PROP }
  predicate InIp(i: int) { L_IP_FIRST_PROP <= i <= L_IP_LAST_PROP }
  predicate InUdp(i: int) { L_UDP_FIRST_PROP <= i <= L_UDP_LAST_PROP }

  /** Every name is a C string. */
  lemma NamesAreCStrings()
    ensures |NAMES| == L_PROP_COUNT
    ensures forall i :: 0 <= i < L_PROP_COUNT ==> NoNul(NAMES[i])
  {
  }

  // ---------------------------------------------------------------------------------------
  // The meaning of the scan

  /** The read buffer: the bytes read, then NULs. Two are needed because the `p +=
      sizeof(header)` step can land one past the terminator of the last line. */
  predicate Padded(t: seq<char>)
  {
    |t| >= 2 && t[|t| - 1] == NUL && t[|t| - 2] == NUL
  }

  /** The buffer Init tokenizes for the bytes `data` it read. */
  function NetStatBuffer(data: seq<char>): (t: seq<char>)
    ensures Padded(t) && |t| == |data| + 2 && t[..|data|] == data
  {
    data + [NUL, NUL]
  }

  /** The outcome of a strtok chain run until it returns a null pointer. */
  datatype Scan = Scan(count: nat, end: nat)

  /** strtok(t + from, d) followed by strtok(NULL, d) until a null pointer: how many tokens
      it returns and where the saved position rests afterwards (on a NUL). */
  function ScanTokens(t: seq<char>, from: nat, d: seq<char>): (r: Scan)
    requires Terminated(t) && from < |t| && NUL !in d
    ensures from <= r.end < |t| && t[r.end] == NUL
    ensures r.count <= r.end - from
    decreases |t| - from
  {
    var st := Strtok(t, from, d);
    if st.tok.None? then Scan(0, st.next)
    else
      var rest := ScanTokens(t, st.next, d);
      Scan(rest.count + 1, rest.end)
  }

  /** ScanTokens by its first step. */
  lemma ScanTokensStep(t: seq<char>, from: nat)
    requires Terminated(t) && from < |t|
    ensures Strtok(t, from, SP).tok.None? ==> ScanTokens(t, from, SP) == Scan(0, Strtok(t, from, SP).next)
    ensures Strtok(t, from, SP).tok.Some? ==>
      && Strtok(t, from, SP).next < |t|
      && ScanTokens(t, from, SP) ==
        Scan(ScanTokens(t, Strtok(t, from, SP).next, SP).count + 1, ScanTokens(t, Strtok(t, from, SP).next, SP).end)
  {
  }

  /** The C string at `p` once the first strtok(p, " ") has terminated its token: the token
      together with any spaces before it. The resolver compares the names with this string
      on every iteration, whichever token the loop is at. */
  function Header(t: seq<char>, p: nat): (h: seq<char>)
    requires Terminated(t) && p < |t| && Strtok(t, p, SP).tok.Some?
    ensures NoNul(h) && p + |h| == Strtok(t, p, SP).tok.value.end
  {
    var e := Strtok(t, p, SP).tok.value.end;
    assert forall k :: p <= k < e ==> t[k] != NUL;
    t[p .. e]
  }

  /** The offsets after the inner loop over `count` tokens: every entry in `[lo, hi]` whose
      name equals `h` was assigned each index in turn and holds the last one. */
  function Resolve(names: seq<seq<char>>, offs: seq<int>, lo: nat, hi: nat, h: seq<char>,
                   count: nat): (r: seq<int>)
    requires |names| == |offs| == L_PROP_COUNT
    ensures |r| == L_PROP_COUNT
  {
    seq(L_PROP_COUNT, i requires 0 <= i < L_PROP_COUNT => Resolved(names, offs, lo, hi, h, count, i))
  }

  /** Entry `i` of Resolve. */
  function Resolved(names: seq<seq<char>>, offs: seq<int>, lo: nat, hi: nat, h: seq<char>,
                    count: nat, i: nat): int
    requires |names| == |offs| == L_PROP_COUNT && i < L_PROP_COUNT
  {
    if lo <= i <= hi && count > 0 && names[i] == h then count - 1 else offs[i]
  }

  /** A column that agrees with Resolve entry by entry is Resolve; `marks` says which
      entries of the range carry the name `h`. */
  lemma ResolveByEntries(names: seq<seq<char>>, offs: seq<int>, lo: nat, hi: nat,
                         h: seq<char>, marks: seq<bool>, count: nat, a: seq<int>)
    requires |names| == |offs| == |a| == |marks| == L_PROP_COUNT
    requires forall i :: 0 <= i < L_PROP_COUNT ==> (marks[i] <==> lo <= i <= hi && names[i] == h)
    requires forall i :: 0 <= i < L_PROP_COUNT ==>
      a[i] == if count > 0 && marks[i] then count - 1 else offs[i]
    ensures a == Resolve(names, offs, lo, hi, h, count)
  {
  }

  /** What the token loop of a header branch finds, whatever the offsets: the C string the
      names are compared with, the number of tokens, and where strtok's saved position rests
      once it returns a null pointer. */
  datatype Columns = Columns(header: seq<char>, count: nat, end: nat)

  /** The token loop of a header branch: tokenize the rest of the buffer from `p` on spaces. */
  function ScanColumns(t: seq<char>, p: nat): (c: Columns)
    requires Terminated(t) && p < |t|
    ensures p <= c.end < |t| && t[c.end] == NUL && c.count <= c.end - p
  {
    var sc := ScanTokens(t, p, SP);
    Columns(if Strtok(t, p, SP).tok.Some? then Header(t, p) else [], sc.count, sc.end)
  }

  /** The offsets a header branch over `[lo, hi]` leaves, for the columns it found. */
  function Apply(names: seq<seq<char>>, offs: seq<int>, lo: nat, hi: nat, c: Columns): (r: seq<int>)
    requires |names| == |offs| == L_PROP_COUNT
    ensures |r| == L_PROP_COUNT
  {
    Resolve(names, offs, lo, hi, c.header, c.count)
  }

  /** What the body of the line loop does with one line, whatever the offsets: nothing, or
      the TCP or the IP branch on the columns after the header. */
  datatype LineKind = Other(next: nat) | TcpLine(tcp: Columns) | IpLine(ip: Columns)

  /** The two header tests, short-circuited as written, on the line strtok(…, "\n")
      returned from `from`. The columns start one past the header's terminator
      (`p += sizeof(header)`). */
  function Classify(t: seq<char>, from: nat, parsedTcp: bool, parsedIp: bool): (k: LineKind)
    requires Padded(t) && from < |t| && Strtok(t, from, NL).tok.Some?
    ensures k.Other? ==> k.next == Strtok(t, from, NL).next
    ensures k.TcpLine? ==>
      !parsedTcp && Strtok(t, from, NL).next <= k.tcp.end < |t| && t[k.tcp.end] == NUL && k.tcp.count < |t|
    ensures k.IpLine? ==>
      !parsedIp && Strtok(t, from, NL).next <= k.ip.end < |t| && t[k.ip.end] == NUL && k.ip.count < |t|
  {
    var st := Strtok(t, from, NL);
    var line := TokText(t, st.tok.value);
    assert NoNul(line);
    if !parsedTcp && StrNCmp(line, TCP_HEADER, |TCP_HEADER| + 1) == 0 then
      StrNCmpBeyondLength(line, TCP_HEADER, |TCP_HEADER| + 1);
      TcpLine(ScanColumns(t, st.tok.value.start + |TCP_HEADER| + 1))
    else if !parsedIp && StrNCmp(line, IP_HEADER, |IP_HEADER| + 1) == 0 then
      StrNCmpBeyondLength(line, IP_HEADER, |IP_HEADER| + 1);
      IpLine(ScanColumns(t, st.tok.value.start + |IP_HEADER| + 1))
    else
      Other(st.next)
  }

  /** The state the line loop carries from one line to the next: strtok's saved position,
      parsedTcp, parsedIp and the offset column. parsedUdp is never set, so the early exit it
      guards plays no part. */
  datatype LineState = LineState(save: nat, parsedTcp: bool, parsedIp: bool, offsets: seq<int>)

  /** The body of the line loop for the line strtok(…, "\n") returned from `from`. */
  function LineBody(names: seq<seq<char>>, t: seq<char>, from: nat, parsedTcp: bool, parsedIp: bool, offs: seq<int>)
    : (r: LineState)
    requires Padded(t) && from < |t| && |names| == |offs| == L_PROP_COUNT
    requires Strtok(t, from, NL).tok.Some?
    ensures Strtok(t, from, NL).next <= r.save < |t| && |r.offsets| == L_PROP_COUNT
  {
    match Classify(t, from, parsedTcp, parsedIp)
    case Other(next) => LineState(next, parsedTcp, parsedIp, offs)
    case TcpLine(c) => LineState(c.end, true, parsedIp, Apply(names, offs, L_TCP_FIRST_PROP, L_TCP_LAST_PROP, c))
    case IpLine(c) => LineState(c.end, parsedTcp, true, Apply(names, offs, L_IP_FIRST_PROP, L_IP_LAST_PROP, c))
  }

  /** The line loop from the saved position `from` until strtok returns a null pointer. */
  function Lines(names: seq<seq<char>>, t: seq<char>, from: nat, parsedTcp: bool, parsedIp: bool, offs: seq<int>)
    : (r: seq<int>)
    requires Padded(t) && from < |t| && |names| == |offs| == L_PROP_COUNT
    ensures |r| == L_PROP_COUNT
    decreases |t| - from
  {
    if Strtok(t, from, NL).tok.None? then offs
    else
      var s := LineBody(names, t, from, parsedTcp, parsedIp, offs);
      Lines(names, t, s.save, s.parsedTcp, s.parsedIp, s.offsets)
  }

  /** The offset column after a successful Init that read `data`. */
  function ResolveAll(names: seq<seq<char>>, data: seq<char>, offs: seq<int>): (r: seq<int>)
    requires |names| == |offs| == L_PROP_COUNT
    ensures |r| == L_PROP_COUNT
  {
    Lines(names, NetStatBuffer(data), 0, false, false, offs)
  }

  // ---------------------------------------------------------------------------------------
  // Properties of the scan

  /** sizeof("TcpExt: ") counts the terminator, so the 9-byte strncmp accepts exactly the
      line "TcpExt: " and no longer line; likewise for "IpExt: ". */
  lemma HeaderTestIsEquality(line: seq<char>)
    requires NoNul(line)
    ensures StrNCmp(line, TCP_HEADER, |TCP_HEADER| + 1) == 0 <==> line == TCP_HEADER
    ensures StrNCmp(line, IP_HEADER, |IP_HEADER| + 1) == 0 <==> line == IP_HEADER
  {
  }

  /** The body of the line loop stated on the line itself: the strncmp header tests are
      equality with the headers. */
  lemma LineBodyByLine(names: seq<seq<char>>, t: seq<char>, from: nat, pt: bool, pi: bool, offs: seq<int>)
    requires Padded(t) && from < |t| && |names| == |offs| == L_PROP_COUNT
    requires Strtok(t, from, NL).tok.Some?
    ensures var st := Strtok(t, from, NL);
      var line := TokText(t, st.tok.value);
      var p := st.tok.value.start;
      && (line == TCP_HEADER || line == IP_HEADER ==> p + |line| + 1 < |t|)
      && LineBody(names, t, from, pt, pi, offs) ==
           if !pt && line == TCP_HEADER then
             LineState(ScanColumns(t, p + |TCP_HEADER| + 1).end, true, pi,
                       Apply(names, offs, L_TCP_FIRST_PROP, L_TCP_LAST_PROP, ScanColumns(t, p + |TCP_HEADER| + 1)))
           else if !pi && line == IP_HEADER then
             LineState(ScanColumns(t, p + |IP_HEADER| + 1).end, pt, true,
                       Apply(names, offs, L_IP_FIRST_PROP, L_IP_LAST_PROP, ScanColumns(t, p + |IP_HEADER| + 1)))
           else LineState(st.next, pt, pi, offs)
  {
  }

  /** An entry a branch changes lies in the branch's range, carries the name equal to the C
      string at `p` (the first column together with the spaces before it), and holds the
      index of the last token scanned. */
  lemma ColumnsWrites(names: seq<seq<char>>, t: seq<char>, p: nat, lo: nat, hi: nat, offs: seq<int>, i: nat)
    requires Terminated(t) && p < |t| && |names| == |offs| == L_PROP_COUNT && i < L_PROP_COUNT
    requires Apply(names, offs, lo, hi, ScanColumns(t, p))[i] != offs[i]
    ensures lo <= i <= hi
    ensures Strtok(t, p, SP).tok.Some? && names[i] == Header(t, p)
    ensures Apply(names, offs, lo, hi, ScanColumns(t, p))[i] == ScanTokens(t, p, SP).count - 1
    ensures 0 <= Apply(names, offs, lo, hi, ScanColumns(t, p))[i] < |t| - p
  {
  }

  /** A branch changes only entries of its range, each to an index below the token count. */
  lemma ApplyRange(names: seq<seq<char>>, offs: seq<int>, lo: nat, hi: nat, c: Columns)
    requires |names| == |offs| == L_PROP_COUNT
    ensures var r := Apply(names, offs, lo, hi, c);
      forall i :: 0 <= i < L_PROP_COUNT && r[i] != offs[i] ==> lo <= i <= hi && 0 <= r[i] < c.count
  {
  }

  /** One line either leaves the whole state as it was but for the saved position, or runs
      one header branch: it sets that branch's flag, changes only entries of that branch's
      range, to token indices, and leaves the saved position on a NUL. */
  lemma LineBodyEffect(names: seq<seq<char>>, t: seq<char>, from: nat, pt: bool, pi: bool, offs: seq<int>)
    requires Padded(t) && from < |t| && |names| == |offs| == L_PROP_COUNT
    requires Strtok(t, from, NL).tok.Some?
    ensures var r := LineBody(names, t, from, pt, pi, offs);
      || (r == LineState(Strtok(t, from, NL).next, pt, pi, offs))
      || (&& !pt && r.parsedTcp && r.parsedIp == pi && t[r.save] == NUL
          && forall i :: 0 <= i < L_PROP_COUNT && r.offsets[i] != offs[i] ==>
               InTcp(i) && 0 <= r.offsets[i] < |t|)
      || (&& !pi && r.parsedIp && r.parsedTcp == pt && t[r.save] == NUL
          && forall i :: 0 <= i < L_PROP_COUNT && r.offsets[i] != offs[i] ==>
               InIp(i) && 0 <= r.offsets[i] < |t|)
  {
  }

  /** Once strtok's saved position rests on a NUL, the line loop does nothing more. */
  lemma LinesAtNul(names: seq<seq<char>>, t: seq<char>, from: nat, pt: bool, pi: bool, offs: seq<int>)
    requires Padded(t) && from < |t| && |names| == |offs| == L_PROP_COUNT && t[from] == NUL
    ensures Lines(names, t, from, pt, pi, offs) == offs
  {
  }

  /** Entries in neither the TCP nor the IP range are never written; TCP entries only while
      parsedTcp is unset and IP entries only while parsedIp is unset; each value written is
      a token index. */
  lemma {:induction false} LinesFrame(names: seq<seq<char>>, t: seq<char>, from: nat, pt: bool, pi: bool,
                                     offs: seq<int>)
    requires Padded(t) && from < |t| && |names| == |offs| == L_PROP_COUNT
    ensures var r := Lines(names, t, from, pt, pi, offs);
      forall i :: 0 <= i < L_PROP_COUNT && r[i] != offs[i] ==>
        && 0 <= r[i] < |t|
        && (InTcp(i) || InIp(i))
        && (InTcp(i) ==> !pt) && (InIp(i) ==> !pi)
    decreases |t| - from
  {
    if Strtok(t, from, NL).tok.Some? {
      var s := LineBody(names, t, from, pt, pi, offs);
      LineBodyEffect(names, t, from, pt, pi, offs);
      if s.save == Strtok(t, from, NL).next && s.offsets == offs && s.parsedTcp == pt
         && s.parsedIp == pi {
        LinesFrame(names, t, s.save, pt, pi, offs);
      } else {
        LinesAtNul(names, t, s.save, s.parsedTcp, s.parsedIp, s.offsets);
      }
    }
  }

  /** The inner strtok leaves the shared saved position on the buffer's terminator, so the
      line loop ends after the first header branch: at most one of the two ranges changes. */
  lemma {:induction false} LinesOneBranch(names: seq<seq<char>>, t: seq<char>, from: nat, pt: bool, pi: bool,
                                         offs: seq<int>)
    requires Padded(t) && from < |t| && |names| == |offs| == L_PROP_COUNT
    ensures var r := Lines(names, t, from, pt, pi, offs);
      || (forall i :: 0 <= i < L_PROP_COUNT && InTcp(i) ==> r[i] == offs[i])
      || (forall i :: 0 <= i < L_PROP_COUNT && InIp(i) ==> r[i] == offs[i])
    decreases |t| - from
  {
    if Strtok(t, from, NL).tok.Some? {
      var s := LineBody(names, t, from, pt, pi, offs);
      LineBodyEffect(names, t, from, pt, pi, offs);
      if s.save == Strtok(t, from, NL).next && s.offsets == offs && s.parsedTcp == pt
         && s.parsedIp == pi {
        LinesOneBranch(names, t, s.save, pt, pi, offs);
      } else {
        LinesAtNul(names, t, s.save, s.parsedTcp, s.parsedIp, s.offsets);
      }
    }
  }

  /** UDP offsets stay as they were, whatever the text: after the first Init, all -1. */
  lemma UdpNeverResolved(names: seq<seq<char>>, data: seq<char>, offs: seq<int>)
    requires |names| == |offs| == L_PROP_COUNT
    ensures forall i :: 0 <= i < L_PROP_COUNT && InUdp(i) ==> ResolveAll(names, data, offs)[i] == offs[i]
  {
    LinesFrame(names, NetStatBuffer(data), 0, false, false, offs);
  }

  /** A branch run again from the offsets it produced produces them again. */
  lemma ApplyTwice(names: seq<seq<char>>, offs: seq<int>, lo: nat, hi: nat, c: Columns)
    requires |names| == |offs| == L_PROP_COUNT
    ensures Apply(names, Apply(names, offs, lo, hi, c), lo, hi, c) == Apply(names, offs, lo, hi, c)
  {
  }

  /** The offsets a line's branch writes do not depend on the offsets it starts from. */
  lemma LineBodyIdempotent(names: seq<seq<char>>, t: seq<char>, from: nat, pt: bool, pi: bool, offs: seq<int>)
    requires Padded(t) && from < |t| && |names| == |offs| == L_PROP_COUNT
    requires Strtok(t, from, NL).tok.Some?
    ensures var r := LineBody(names, t, from, pt, pi, offs);
      var r2 := LineBody(names, t, from, pt, pi, r.offsets);
      r2 == r
  {
  }

  /** Resolving is idempotent: the control flow of the scan does not depend on the offsets,
      and each branch assigns values that do not depend on them either, so a second Init
      over the same text leaves the table as the first one did. */
  lemma {:induction false} LinesIdempotent(names: seq<seq<char>>, t: seq<char>, from: nat, pt: bool, pi: bool,
                                          offs: seq<int>)
    requires Padded(t) && from < |t| && |names| == |offs| == L_PROP_COUNT
    ensures Lines(names, t, from, pt, pi, Lines(names, t, from, pt, pi, offs)) == Lines(names, t, from, pt, pi, offs)
    decreases |t| - from
  {
    if Strtok(t, from, NL).tok.Some? {
      var s := LineBody(names, t, from, pt, pi, offs);
      LineBodyEffect(names, t, from, pt, pi, offs);
      LineBodyIdempotent(names, t, from, pt, pi, offs);
      if s.save == Strtok(t, from, NL).next && s.offsets == offs && s.parsedTcp == pt
         && s.parsedIp == pi {
        LinesIdempotent(names, t, s.save, pt, pi, offs);
      } else {
        LinesAtNul(names, t, s.save, s.parsedTcp, s.parsedIp, s.offsets);
        var u := Lines(names, t, from, pt, pi, offs);
        assert u == s.offsets;
        var s2 := LineBody(names, t, from, pt, pi, u);
        assert s2 == s;
      }
    }
  }

  lemma ResolveAllIdempotent(names: seq<seq<char>>, data: seq<char>, offs: seq<int>)
    requires |names| == |offs| == L_PROP_COUNT
    ensures ResolveAll(names, data, ResolveAll(names, data, offs)) == ResolveAll(names, data, offs)
  {
    LinesIdempotent(names, NetStatBuffer(data), 0, false, false, offs);
  }

  // ---------------------------------------------------------------------------------------
  // The table and its accessors

  /** linuxNetStats, held column by column (a name column that never changes and an offset
      column Init writes), and netStatFd. */
  class NetStatTable {
    var netStatFd: int
    const names: seq<seq<char>>
    const offsets: array<int>

    ghost predicate Valid()
      reads this
    {
      && |names| == L_PROP_COUNT && offsets.Length == L_PROP_COUNT
      && forall i :: 0 <= i < L_PROP_COUNT ==> NoNul(names[i])
    }

    /** The static initial state: no descriptor, the twelve names, every offset -1. */
    constructor ()
      ensures Valid() && fresh(offsets)
      ensures netStatFd == -1 && names == NAMES && offsets[..] == INITIAL_OFFSETS
    {
      NamesAreCStrings();
      netStatFd := -1;
      names := NAMES;
      offsets := new int[L_PROP_COUNT](_ => -1);
    }

    /** devIocStatsInitIPStat. `openFd` is what open() returned, `statOk` whether stat()
        succeeded, `stSize` the size it reported, `readOk` whether read() succeeded and
        `data` the bytes it read (at most bufSize - 1 of them). */
    method Init(openFd: int, statOk: bool, stSize: nat, readOk: bool, data: seq<char>)
      returns (rc: int)
      requires Valid() && |data| <= stSize + 512 - 1
      modifies this, offsets
      ensures Valid()
      ensures rc == (if openFd < 0 || !statOk || !readOk then -1 else 0)
      ensures netStatFd == (if openFd >= 0 && statOk && !readOk then -1 else openFd)
      ensures rc != 0 ==> offsets[..] == old(offsets[..])
      ensures rc == 0 ==> offsets[..] == ResolveAll(names, data, old(offsets[..]))
    {
      netStatFd := openFd;
      if netStatFd < 0 {
        return -1;
      }
      if !statOk {
        return -1;
      }
      if !readOk {
        netStatFd := -1;
        return -1;
      }
      var buf := new char[|data| + 2](k requires 0 <= k < |data| + 2 =>
        if k < |data| then data[k] else NUL);
      assert buf[..] == NetStatBuffer(data);
      ghost var t := buf[..];
      ghost var offs0 := offsets[..];
      var tk := new Tokenizer(buf);
      var parsedTcp, parsedIp, parsedUdp := false, false, false;
      ghost var from := 0;
      var p := tk.Restart(0, NL);
      while p.Some?
        invariant tk.Valid() && tk.buf == buf && tk.text == t && Padded(t)
        invariant netStatFd == openFd
        invariant from < |t| && tk.save == Strtok(t, from, NL).next
        invariant p == Start(Strtok(t, from, NL))
        invariant Strtok(t, from, NL).tok.Some? ==>
          CStr(buf[..], p.value) == TokText(t, Strtok(t, from, NL).tok.value)
        invariant Lines(names, t, from, parsedTcp, parsedIp, offsets[..]) == Lines(names, t, 0, false, false, offs0)
        invariant !parsedUdp
        decreases |t| - from
      {
        parsedTcp, parsedIp := ProcessLine(tk, from, p.value, parsedTcp, parsedIp);
        if parsedIp && parsedTcp && parsedUdp {
          break;
        }
        from := tk.save;
        p := tk.Next(NL);
      }
      return 0;
    }

    /** The body of Init's line loop for the line at `pos`, the token strtok returned when
        resuming at `from`. */
    method ProcessLine(tk: Tokenizer, ghost from: nat, pos: nat, pt: bool, pi: bool)
      returns (parsedTcp: bool, parsedIp: bool)
      requires Valid() && tk.Valid() && Padded(tk.text) && from < |tk.text|
      requires Strtok(tk.text, from, NL).tok.Some? && tk.save == Strtok(tk.text, from, NL).next
      requires pos == Strtok(tk.text, from, NL).tok.value.start
      requires CStr(tk.buf[..], pos) == TokText(tk.text, Strtok(tk.text, from, NL).tok.value)
      modifies offsets, tk, tk.buf
      ensures tk.Valid()
      ensures LineBody(names, tk.text, from, pt, pi, old(offsets[..]))
        == LineState(tk.save, parsedTcp, parsedIp, offsets[..])
    {
      ghost var t := tk.text;
      ghost var line := TokText(t, Strtok(t, from, NL).tok.value);
      assert NoNul(line);
      LineBodyByLine(names, t, from, pt, pi, offsets[..]);
      parsedTcp, parsedIp := HeaderBranches(tk, pos, pt, pi, line);
    }

    /** The two header tests on the line `line` at `pos`, short-circuited as written, and the
        branch of the first that passes. */
    method HeaderBranches(tk: Tokenizer, pos: nat, pt: bool, pi: bool, ghost line: seq<char>)
      returns (parsedTcp: bool, parsedIp: bool)
      requires Valid() && tk.Valid() && NoNul(line)
      requires pos < tk.buf.Length && CStr(tk.buf[..], pos) == line
      requires tk.save <= pos + |line| + 1 < |tk.text|
      modifies offsets, tk, tk.buf
      ensures tk.Valid()
      ensures if !pt && line == TCP_HEADER then
          && tk.save == ScanColumns(tk.text, pos + |TCP_HEADER| + 1).end
          && parsedTcp && parsedIp == pi
          && offsets[..] == Apply(names, old(offsets[..]), L_TCP_FIRST_PROP, L_TCP_LAST_PROP,
                                  ScanColumns(tk.text, pos + |TCP_HEADER| + 1))
        else if !pi && line == IP_HEADER then
          && tk.save == ScanColumns(tk.text, pos + |IP_HEADER| + 1).end
          && parsedTcp == pt && parsedIp
          && offsets[..] == Apply(names, old(offsets[..]), L_IP_FIRST_PROP, L_IP_LAST_PROP,
                                  ScanColumns(tk.text, pos + |IP_HEADER| + 1))
        else
          tk.save == old(tk.save) && parsedTcp == pt && parsedIp == pi && offsets[..] == old(offsets[..])
    {
      parsedTcp, parsedIp := pt, pi;
      var tcpMatch := HeaderMatches(tk, pos, parsedTcp, TCP_HEADER, line);
      if tcpMatch {
        ResolveColumns(tk, pos + |TCP_HEADER| + 1, L_TCP_FIRST_PROP, L_TCP_LAST_PROP);
        parsedTcp := true;
        return;
      }
      var ipMatch := HeaderMatches(tk, pos, parsedIp, IP_HEADER, line);
      if ipMatch {
        ResolveColumns(tk, pos + |IP_HEADER| + 1, L_IP_FIRST_PROP, L_IP_LAST_PROP);
        parsedIp := true;
      }
    }

    /** `!parsed && !strncmp(p, header, sizeof(header))` on the line `line` at `pos`: the
        strncmp, which also compares the header's terminator, passes only when the line is
        the header itself. */
    method HeaderMatches(tk: Tokenizer, pos: nat, parsed: bool, header: seq<char>,
                         ghost line: seq<char>) returns (matched: bool)
      requires tk.Valid() && NoNul(header) && NoNul(line)
      requires pos < tk.buf.Length && CStr(tk.buf[..], pos) == line
      ensures matched <==> !parsed && line == header
    {
      if parsed {
        return false;
      }
      var c := StrNCmpAt(tk.buf, pos, header, |header| + 1);
      StrNCmpBeyondLength(line, header, |header| + 1);
      matched := c == 0;
    }

    /** One header branch of Init: `for (s = strtok(p, " "); s; ++index, s = strtok(NULL, " "))`
        with, for each token, the names in `[lo, hi]` compared against the C string at `p`.
        The tokenizer is Init's own: strtok has one saved position. */
    method ResolveColumns(tk: Tokenizer, p: nat, lo: nat, hi: nat)
      requires Valid() && tk.Valid()
      requires tk.save <= p < tk.buf.Length && lo <= hi < L_PROP_COUNT
      modifies offsets, tk, tk.buf
      ensures tk.Valid() && tk.save == ScanColumns(tk.text, p).end
      ensures offsets[..] == Apply(names, old(offsets[..]), lo, hi, ScanColumns(tk.text, p))
    {
      ghost var t := tk.text;
      ghost var offs0 := offsets[..];
      ghost var first := Strtok(t, p, SP);
      ghost var h := if first.tok.Some? then Header(t, p) else [];
      var s := tk.Restart(p, SP);
      if first.tok.Some? {
        CStrIs(tk.buf[..], p, h);
      }
      ghost var marks := seq(L_PROP_COUNT, j requires 0 <= j < L_PROP_COUNT => lo <= j <= hi && names[j] == h);
      var count := TokenLoop(tk, p, lo, hi, h, marks, s, p);
      ResolveByEntries(names, offs0, lo, hi, h, marks, count, offsets[..]);
    }

    /** The token loop of a header branch, entered with the first strtok call, the one that
        resumed at `at0`, already made and its result `s0` in hand. It returns the number of
        tokens. */
    method TokenLoop(tk: Tokenizer, p: nat, lo: nat, hi: nat, ghost h: seq<char>,
                     ghost marks: seq<bool>, s0: Option<nat>, ghost at0: nat) returns (index: nat)
      requires Valid() && tk.Valid() && lo <= hi < L_PROP_COUNT
      requires |marks| == L_PROP_COUNT
      requires forall j :: 0 <= j < L_PROP_COUNT ==> (marks[j] <==> lo <= j <= hi && names[j] == h)
      requires at0 < |tk.text| && s0 == Start(Strtok(tk.text, at0, SP))
      requires tk.save == Strtok(tk.text, at0, SP).next
      requires s0.Some? ==> p < tk.buf.Length && CStr(tk.buf[..], p) == h && p + |h| <= tk.save
      modifies offsets, tk, tk.buf
      ensures tk.Valid()
      ensures index == ScanTokens(tk.text, at0, SP).count
      ensures tk.save == ScanTokens(tk.text, at0, SP).end
      ensures forall j :: 0 <= j < L_PROP_COUNT ==>
        offsets[j] == if index > 0 && marks[j] then index - 1 else old(offsets[j])
    {
      ghost var t := tk.text;
      ghost var offs0 := offsets[..];
      index := 0;
      var s := s0;
      ghost var at: nat := at0;
      while s.Some?
        invariant tk.Valid() && tk.text == t
        invariant at < |t| && s == Start(Strtok(t, at, SP)) && tk.save == Strtok(t, at, SP).next
        invariant s.Some? ==> p < tk.buf.Length && CStr(tk.buf[..], p) == h && p + |h| <= tk.save
        invariant ScanTokens(t, at0, SP).count == index + ScanTokens(t, at, SP).count
        invariant ScanTokens(t, at0, SP).end == ScanTokens(t, at, SP).end
        invariant forall j :: 0 <= j < L_PROP_COUNT ==>
          offsets[j] == if index > 0 && marks[j] then index - 1 else offs0[j]
        decreases |t| - tk.save, if s.Some? then 1 else 0
      {
        ScanTokensStep(t, at);
        at := tk.save;
        s := Tally(tk, p, lo, hi, h, marks, index);
        index := index + 1;
      }
    }

    /** One pass of the token loop of a header branch: the name loop at token `index`, then
        `strtok(NULL, " ")`. */
    method Tally(tk: Tokenizer, p: nat, lo: nat, hi: nat, ghost h: seq<char>,
                 ghost marks: seq<bool>, index: nat)
      returns (s: Option<nat>)
      requires Valid() && tk.Valid() && lo <= hi < L_PROP_COUNT
      requires |marks| == L_PROP_COUNT
      requires forall j :: 0 <= j < L_PROP_COUNT ==> (marks[j] <==> lo <= j <= hi && names[j] == h)
      requires p < tk.buf.Length && CStr(tk.buf[..], p) == h && p + |h| <= tk.save
      modifies offsets, tk, tk.buf
      ensures tk.Valid() && CStr(tk.buf[..], p) == h && p + |h| <= tk.save
      ensures tk.save == Strtok(tk.text, old(tk.save), SP).next
      ensures s == Start(Strtok(tk.text, old(tk.save), SP))
      ensures forall j :: 0 <= j < L_PROP_COUNT ==>
        offsets[j] == if marks[j] then index else old(offsets[j])
    {
      AssignMatching(tk.buf, p, lo, hi, h, index);
      StrtokKeepsCStr(tk.text, tk.buf[..], tk.save, SP, p);
      s := tk.Next(SP);
    }

    /** `for (i = lo; i <= hi; ++i) if (!strcmp(linuxNetStats[i].name, p)) offset = index;` */
    method AssignMatching(buf: array<char>, p: nat, lo: nat, hi: nat, ghost h: seq<char>,
                          index: nat)
      requires Valid() && Terminated(buf[..]) && p < buf.Length && CStr(buf[..], p) == h
      requires lo <= hi < L_PROP_COUNT
      modifies offsets
      ensures forall j :: 0 <= j < L_PROP_COUNT ==>
        offsets[j] == if lo <= j <= hi && names[j] == h then index else old(offsets[j])
    {
      ghost var before := offsets[..];
      ghost var named := seq(L_PROP_COUNT, j requires 0 <= j < L_PROP_COUNT => names[j] == h);
      for i := lo to hi + 1
        invariant forall j :: 0 <= j < L_PROP_COUNT ==>
          offsets[j] == if lo <= j < i && named[j] then index else before[j]
      {
        var c := StrCmpAt(names[i], buf, p);
        assert named[i] <==> c == 0;
        if c == 0 {
          offsets[i] := index;
        }
      }
    }

    /** devIocStatsGetIPStat: a stub. It returns 0 and leaves the record as it was, whatever
        the state of the descriptor. */
    method Get(ipStat: IpStatInfo) returns (rc: int, r: IpStatInfo)
      ensures rc == 0 && r == ipStat
    {
      if netStatFd < 0 {
        return 0, ipStat;
      }
      return 0, ipStat;
    }
  }
}
