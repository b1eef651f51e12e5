/** devIocStats/os/Linux/osdNFSErrors.c: the Linux NFS statistics engine. Init reads the
    NFS server list (/proc/net/nfsfs/servers) into a fixed table of eight servers and the
    mount table (/proc/mounts) into the same table's mount points; Get reads the RPC
    counters (/proc/net/rpc/nfs) and copies them into every slot of the caller's
    nfsStatInfo. The first half of the module is the meaning of each reader on the text it
    reads; the second half is the engine's static state and its operations, proved to
    compute it. */
module LinuxNFS {
  import opened CString
  import opened CLib
  import opened IocStatsTypes

  /** The sizes of nfsServers[].hostname and nfsServers[].mountpoint. */
  const HOSTNAME_MAX: nat := 255
  const MOUNTPOINT_MAX: nat := 255
  /** sizeof(line) in the server reader and sizeof(buf) in Get. */
  const LINE_SIZE: nat := 512

  /** 2^64: the width of `unsigned long` on the 64-bit Linux targets. */
  const ULONG_MOD: nat := 0x1_0000_0000_0000_0000

  /** An `int` converted to `unsigned long` (section 6.3.1.3 of ISO/IEC 9899:2011). */
  function ULong(x: int): (r: nat)
    ensures r < ULONG_MOD && (0 <= x < ULONG_MOD ==> r == x)
  {
    x % ULONG_MOD
  }

  /** What a file-system step of a reader saw: whether stat() succeeded, what open()
      returned, whether read() succeeded, and the bytes it read. */
  datatype ProcFile = ProcFile(statOk: bool, fd: int, readOk: bool, data: seq<char>)

  /** How a reader ends: it returns `rc`, or a row would be stored at nfsServers[8], past
      the end of the table, which the C language leaves undefined. */
  datatype Outcome = Returned(rc: int) | TableOverrun

  /** The numeric fields of an nfsServers[] entry. */
  datatype Server = Server(ver: int, port: int, use: int)

  // ---------------------------------------------------------------------------------------
  // Column-wise char fields

  /** Slot `i` of a column of `width`-character fields replaced by `v`. */
  function WriteSlot(a: seq<char>, i: nat, width: nat, v: seq<char>): (r: seq<char>)
    requires Column(a, width) && i < MAX_NFS_STATS && |v| == width
    ensures Column(r, width) && Slot(r, i, width) == v
  {
    SlotInside(i, width);
    a[..Offset(i, width)] + v + a[Offset(i, width) + width..]
  }

  /** Writing one slot changes that slot to `v` and no other. */
  lemma SlotOfWrite(a: seq<char>, i: nat, j: nat, width: nat, v: seq<char>)
    requires Column(a, width) && i < MAX_NFS_STATS && j < MAX_NFS_STATS && |v| == width
    ensures Slot(WriteSlot(a, i, width, v), j, width) == if i == j then v else Slot(a, j, width)
  {
    var r := WriteSlot(a, i, width, v);
    SlotInside(i, width);
    SlotInside(j, width);
    var lo, hi := Offset(i, width), Offset(i, width) + width;
    var jlo, jhi := Offset(j, width), Offset(j, width) + width;
    assert r == a[..lo] + v + a[hi..];
    if i < j {
      SlotsApart(i, j, width);
      assert r[jlo..jhi] == a[jlo..jhi];
    } else if j < i {
      SlotsApart(j, i, width);
      assert r[jlo..jhi] == a[jlo..jhi];
    } else {
      assert r[jlo..jhi] == v;
    }
  }

  /** A column stays terminated when a slot is given a value that ends in NUL. */
  lemma WriteSlotTerminated(a: seq<char>, i: nat, width: nat, v: seq<char>)
    requires Column(a, width) && i < MAX_NFS_STATS && |v| == width && Terminated(a) && Terminated(v)
    ensures Terminated(WriteSlot(a, i, width, v))
  {
    var r := WriteSlot(a, i, width, v);
    SlotInside(i, width);
    if Offset(i, width) + width == |a| {
      assert r[|r| - 1] == v[width - 1];
    } else {
      assert r[|r| - 1] == a[|a| - 1];
    }
  }

  // ---------------------------------------------------------------------------------------
  // The words of a strtok chain

  /** The texts of the tokens a chain of at most `n` strtok(…, " ") calls returns when it
      resumes at `from`; the chain yields nothing once a call returns a null pointer. */
  function Words(t: seq<char>, from: nat, n: nat): (ws: seq<seq<char>>)
    requires Terminated(t) && from < |t|
    ensures |ws| <= n
    decreases n
  {
    if n == 0 then []
    else
      var st := Strtok(t, from, SP);
      if st.tok.None? then [] else [TokText(t, st.tok.value)] + Words(t, st.next, n - 1)
  }

  // ---------------------------------------------------------------------------------------
  // The server list

  /** The table the server reader fills: the numeric fields, the hostname column and
      numMounts. */
  datatype Table = Table(servers: seq<Server>, hostname: seq<char>, count: int)

  predicate TableShape(tb: Table)
  {
    && |tb.servers| == MAX_NFS_STATS && Column(tb.hostname, HOSTNAME_MAX)
    && Terminated(tb.hostname) && 0 <= tb.count <= MAX_NFS_STATS
  }

  /** The server list's buffer: the bytes read, then enough NULs for the row copy, which
      reads up to 511 characters past a newline whatever they are. */
  predicate ServersPadded(t: seq<char>)
  {
    |t| >= LINE_SIZE && forall k :: |t| - LINE_SIZE <= k < |t| ==> t[k] == NUL
  }

  function ServersBuffer(data: seq<char>): (t: seq<char>)
    ensures ServersPadded(t) && |t| == |data| + LINE_SIZE && t[..|data|] == data
  {
    data + Nuls(LINE_SIZE)
  }

  /** Where the row copy `for (i = 0; i < sizeof(line)-1 && p[i] != '\n'; ++i)` starting
      at `q` stops when it has reached `i`. */
  function RowEnd(t: seq<char>, q: nat, i: nat): (e: nat)
    requires q <= i <= q + LINE_SIZE - 1 <= |t|
    ensures i <= e <= q + LINE_SIZE - 1
    ensures forall k :: i <= k < e ==> t[k] != '\n'
    ensures e < q + LINE_SIZE - 1 ==> t[e] == '\n'
    decreases q + LINE_SIZE - 1 - i
  {
    if i < q + LINE_SIZE - 1 && t[i] != '\n' then RowEnd(t, q, i + 1) else i
  }

  /** The characters the row copy puts into `line`: at most 511, up to the next newline. */
  function Row(t: seq<char>, q: nat): (row: seq<char>)
    requires q + LINE_SIZE - 1 <= |t|
    ensures |row| < LINE_SIZE
  {
    t[q .. RowEnd(t, q, q)]
  }

  /** `line` once the row is copied and terminated. What lies after the terminator is never
      read; it is NUL here. */
  function LineBuffer(row: seq<char>): (t: seq<char>)
    requires |row| < LINE_SIZE
    ensures |t| == LINE_SIZE && Terminated(t) && t[..|row|] == row
  {
    row + Nuls(LINE_SIZE - |row|)
  }

  /** One row of the server list, given the words strtok finds in it, applied to the table:
      a first word starting with `v` gives `ver = atoi(word + 1)` (the store that would go
      past the table when it is full); then come the name, ignored, the port, the use count
      and the hostname, each stored as soon as it is found. A missing word ends the reader
      with -1 and leaves what was stored; a complete row counts one more server. */
  function RowStep(ws: seq<seq<char>>, tb: Table): (r: (Outcome, Table))
    requires TableShape(tb)
    ensures TableShape(r.1)
  {
    if |ws| == 0 || ws[0] == [] || ws[0][0] != 'v' then (Returned(-1), tb)
    else if tb.count >= MAX_NFS_STATS then (TableOverrun, tb)
    else if |ws| < 5 then (Returned(-1), Partial(ws, tb))
    else
      var host := BoundedCopy(ws[4], HOSTNAME_MAX);
      WriteSlotTerminated(tb.hostname, tb.count, HOSTNAME_MAX, host);
      (Returned(0), Table(Partial(ws, tb).servers, WriteSlot(tb.hostname, tb.count, HOSTNAME_MAX, host), tb.count + 1))
  }

  /** The table once the numeric fields a row's words provide are stored in entry
      `numMounts`. */
  function Partial(ws: seq<seq<char>>, tb: Table): (r: Table)
    requires TableShape(tb) && tb.count < MAX_NFS_STATS && ws != [] && ws[0] != []
    ensures TableShape(r)
  {
    tb.(servers := tb.servers[tb.count := RowServer(ws, tb.servers[tb.count])])
  }

  /** `ver`, then `port` and `use` when the row has their words. */
  function RowServer(ws: seq<seq<char>>, s: Server): (r: Server)
    requires ws != [] && ws[0] != []
    ensures r.ver == Atoi(ws[0][1..])
    ensures r.port == if |ws| >= 3 then Atoi(ws[2]) else s.port
    ensures r.use == if |ws| >= 4 then Atoi(ws[3]) else s.use
  {
    var s0 := s.(ver := Atoi(ws[0][1..]));
    var s1 := if |ws| >= 3 then s0.(port := Atoi(ws[2])) else s0;
    if |ws| >= 4 then s1.(use := Atoi(ws[3])) else s1
  }

  /** One more strtok(NULL, " ") of a chain: no word ends it, a word is the chain's next. */
  lemma WordsNext(t: seq<char>, at: nat, n: nat, pre: seq<seq<char>>)
    requires Terminated(t) && at < |t| && n > 0
    ensures Strtok(t, at, SP).tok.None? ==> pre + Words(t, at, n) == pre
    ensures Strtok(t, at, SP).tok.Some? ==>
      pre + Words(t, at, n)
      == (pre + [TokText(t, Strtok(t, at, SP).tok.value)]) + Words(t, Strtok(t, at, SP).next, n - 1)
  {
  }

  /** One more word of a row changes at most the entry being filled: the port when it is
      the third word, the use count when it is the fourth. */
  lemma PartialNext(ws: seq<seq<char>>, w: seq<char>, tb: Table)
    requires TableShape(tb) && tb.count < MAX_NFS_STATS && ws != [] && ws[0] != []
    ensures (ws + [w])[0] == ws[0]
    ensures var p := Partial(ws, tb); var c := p.servers[tb.count];
      Partial(ws + [w], tb)
      == p.(servers := p.servers[tb.count :=
              if |ws| == 2 then c.(port := Atoi(w)) else if |ws| == 3 then c.(use := Atoi(w)) else c])
  {
  }

  /** Entry `numMounts` of the table replaced by `s`. */
  function SetServer(tb: Table, s: Server): (r: Table)
    requires TableShape(tb) && tb.count < MAX_NFS_STATS
    ensures TableShape(r) && r.hostname == tb.hostname && r.count == tb.count
    ensures r.servers == tb.servers[tb.count := s]
  {
    tb.(servers := tb.servers[tb.count := s])
  }

  /** The hostname word `w` copied into slot `numMounts`, and one more server counted. */
  function HostStored(tb: Table, w: seq<char>): (r: Table)
    requires TableShape(tb) && tb.count < MAX_NFS_STATS
    ensures TableShape(r) && r.servers == tb.servers && r.count == tb.count + 1
    ensures r.hostname == WriteSlot(tb.hostname, tb.count, HOSTNAME_MAX, BoundedCopy(w, HOSTNAME_MAX))
  {
    var host := BoundedCopy(w, HOSTNAME_MAX);
    WriteSlotTerminated(tb.hostname, tb.count, HOSTNAME_MAX, host);
    Table(tb.servers, WriteSlot(tb.hostname, tb.count, HOSTNAME_MAX, host), tb.count + 1)
  }

  /** What HostStored leaves in the hostname column: slot `numMounts` reads as the word cut
      to 254 characters, and every other slot is as it was. */
  lemma HostStoredSlots(tb: Table, w: seq<char>)
    requires TableShape(tb) && tb.count < MAX_NFS_STATS && NoNul(w)
    ensures var r := HostStored(tb, w);
      && CStr(Slot(r.hostname, tb.count, HOSTNAME_MAX), 0)
         == w[..if |w| < HOSTNAME_MAX - 1 then |w| else HOSTNAME_MAX - 1]
      && forall j :: 0 <= j < MAX_NFS_STATS && j != tb.count ==>
           Slot(r.hostname, j, HOSTNAME_MAX) == Slot(tb.hostname, j, HOSTNAME_MAX)
  {
    var r := HostStored(tb, w);
    BoundedCopyTruncates(w, HOSTNAME_MAX);
    forall j | 0 <= j < MAX_NFS_STATS && j != tb.count
      ensures Slot(r.hostname, j, HOSTNAME_MAX) == Slot(tb.hostname, j, HOSTNAME_MAX)
    {
      SlotOfWrite(tb.hostname, tb.count, j, HOSTNAME_MAX, BoundedCopy(w, HOSTNAME_MAX));
    }
  }

  /** The row as the C code walks it, on the line's text `t`: the strtok chain of
      FieldsFrom from strtok(line, " ") on. */
  function RowText(t: seq<char>, tb: Table): (r: (Outcome, Table))
    requires Terminated(t) && TableShape(tb)
    ensures TableShape(r.1)
  {
    FieldsFrom(t, 0, 5, tb)
  }

  /** The last `n` strtok calls of a row, resuming at `at`: the version (n = 5), which must
      start with `v` and whose number is stored as `ver` in entry `numMounts`; the name
      (4), ignored; the port (3) and the use count (2), stored as soon as found; the
      hostname (1), copied, which completes the row. A null pointer ends the reader with
      -1. */
  function FieldsFrom(t: seq<char>, at: nat, n: nat, tb: Table): (r: (Outcome, Table))
    requires Terminated(t) && at < |t| && 1 <= n <= 5 && TableShape(tb)
    requires n < 5 ==> tb.count < MAX_NFS_STATS
    ensures TableShape(r.1)
    decreases n
  {
    var st := Strtok(t, at, SP);
    if st.tok.None? then (Returned(-1), tb)
    else
      var w := TokText(t, st.tok.value);
      if n == 5 then
        if t[st.tok.value.start] != 'v' then (Returned(-1), tb)
        else if tb.count >= MAX_NFS_STATS then (TableOverrun, tb)
        else FieldsFrom(t, st.next, 4, SetServer(tb, tb.servers[tb.count].(ver := Atoi(w[1..]))))
      else if n == 4 then FieldsFrom(t, st.next, 3, tb)
      else if n == 3 then FieldsFrom(t, st.next, 2, SetServer(tb, tb.servers[tb.count].(port := Atoi(w))))
      else if n == 2 then FieldsFrom(t, st.next, 1, SetServer(tb, tb.servers[tb.count].(use := Atoi(w))))
      else (Returned(0), HostStored(tb, w))
  }

  /** The last stage of the walk: the hostname word, or -1 without one. */
  lemma HostField(t: seq<char>, at: nat, tb: Table)
    requires Terminated(t) && at < |t| && TableShape(tb) && tb.count < MAX_NFS_STATS
    ensures Strtok(t, at, SP).tok.None? ==> FieldsFrom(t, at, 1, tb) == (Returned(-1), tb)
    ensures Strtok(t, at, SP).tok.Some? ==>
      FieldsFrom(t, at, 1, tb) == (Returned(0), HostStored(tb, TokText(t, Strtok(t, at, SP).tok.value)))
  {
  }

  /** The word-by-word walk of a row is RowStep on the row's first five words. */
  lemma RowTextIsRowStep(t: seq<char>, tb: Table)
    requires Terminated(t) && TableShape(tb)
    ensures RowText(t, tb) == RowStep(Words(t, 0, 5), tb)
  {
    var st := Strtok(t, 0, SP);
    if st.tok.Some? {
      StrtokSpans(t, 0, SP);
      var w := TokText(t, st.tok.value);
      WordsNext(t, 0, 5, []);
      assert [] + Words(t, 0, 5) == Words(t, 0, 5);
      assert [] + [w] == [w];
      if w[0] == 'v' && tb.count < MAX_NFS_STATS {
        FieldsFromWords(t, st.next, 4, [w], tb);
      }
    }
  }

  /** FieldsFrom after the words `pre` of a row is RowStep on `pre` and the words that
      follow. */
  lemma {:induction false} FieldsFromWords(t: seq<char>, at: nat, n: nat, pre: seq<seq<char>>, tb: Table)
    requires Terminated(t) && at < |t| && 1 <= n <= 4 && |pre| == 5 - n
    requires pre[0] != [] && pre[0][0] == 'v' && TableShape(tb) && tb.count < MAX_NFS_STATS
    ensures FieldsFrom(t, at, n, Partial(pre, tb)) == RowStep(pre + Words(t, at, n), tb)
    decreases n
  {
    var st := Strtok(t, at, SP);
    WordsNext(t, at, n, pre);
    if st.tok.Some? {
      var w := TokText(t, st.tok.value);
      PartialNext(pre, w, tb);
      if n > 1 {
        FieldsFromWords(t, st.next, n - 1, pre + [w], tb);
      } else {
        assert pre + Words(t, at, n) == pre + [w];
        assert (pre + [w])[4] == w;
      }
    }
  }

  /** The rows the loop `while ((p = strpbrk(p, "\n")))` visits from `p`, each as it is
      copied into `line`: one per newline, starting just after it. The loop never writes
      the buffer it scans, so which rows it visits does not depend on what they hold. */
  function RowLines(t: seq<char>, p: nat): (ls: seq<seq<char>>)
    requires ServersPadded(t) && p <= |t| - LINE_SIZE
    ensures forall k :: 0 <= k < |ls| ==> Terminated(ls[k])
    decreases |t| - p, 0
  {
    var n := StrPbrk(t, p, NL);
    if n.None? then [] else LinesFrom(t, n.value + 1)
  }

  /** The rows the loop visits from the row at `q` on. */
  function LinesFrom(t: seq<char>, q: nat): (ls: seq<seq<char>>)
    requires ServersPadded(t) && q <= |t| - LINE_SIZE
    ensures forall k :: 0 <= k < |ls| ==> Terminated(ls[k])
    decreases |t| - q, 1
  {
    [LineBuffer(Row(t, q))] + RowLines(t, q)
  }

  /** The row loop over the rows `ls`: each is parsed in turn, and the loop stops at the
      first that does not end with 0. */
  function ApplyRows(ls: seq<seq<char>>, tb: Table): (r: (Outcome, Table))
    requires (forall k :: 0 <= k < |ls| ==> Terminated(ls[k])) && TableShape(tb)
    ensures TableShape(r.1)
    decreases |ls|, 1
  {
    if ls == [] then (Returned(0), tb) else RowThen(ls, tb)
  }

  /** The first of the rows `ls` parsed, then the others if it ended with 0. */
  function RowThen(ls: seq<seq<char>>, tb: Table): (r: (Outcome, Table))
    requires ls != [] && (forall k :: 0 <= k < |ls| ==> Terminated(ls[k])) && TableShape(tb)
    ensures TableShape(r.1)
    decreases |ls|, 0
  {
    var step := RowText(ls[0], tb);
    if step.0 == Returned(0) then ApplyRows(ls[1..], step.1) else step
  }

  /** The row loop from `p`. */
  function ServerRows(t: seq<char>, p: nat, tb: Table): (r: (Outcome, Table))
    requires ServersPadded(t) && p <= |t| - LINE_SIZE && TableShape(tb)
    ensures TableShape(r.1)
  {
    ApplyRows(RowLines(t, p), tb)
  }

  /** The rows from `p` are those from just after the newline strpbrk finds at `j`. */
  lemma RowsFrom(t: seq<char>, p: nat, j: nat)
    requires ServersPadded(t) && p <= |t| - LINE_SIZE && StrPbrk(t, p, NL) == Some(j)
    ensures j < |t| - LINE_SIZE && RowLines(t, p) == LinesFrom(t, j + 1)
  {
  }

  /** One turn of the loop: the row after the newline strpbrk finds at `j`, then the
      rows from there. */
  lemma NextRow(t: seq<char>, p: nat, j: nat)
    requires ServersPadded(t) && p <= |t| - LINE_SIZE && StrPbrk(t, p, NL) == Some(j)
    ensures j < |t| - LINE_SIZE
    ensures var ls := RowLines(t, p);
      ls != [] && ls[0] == LineBuffer(Row(t, j + 1)) && ls[1..] == RowLines(t, j + 1)
  {
  }

  /** One turn of the loop as its invariant needs it: the row's outcome and table, then
      the rows from the next newline, or that outcome. */
  lemma RowsStep(t: seq<char>, p: nat, j: nat, tb: Table, o: Outcome, tb': Table)
    requires ServersPadded(t) && p <= |t| - LINE_SIZE && StrPbrk(t, p, NL) == Some(j)
    requires TableShape(tb) && j < |t| - LINE_SIZE
    requires (o, tb') == RowText(LineBuffer(Row(t, j + 1)), tb)
    ensures o == Returned(0) ==> ServerRows(t, p, tb) == ServerRows(t, j + 1, tb')
    ensures o != Returned(0) ==> ServerRows(t, p, tb) == (o, tb')
  {
    NextRow(t, p, j);
    var ls := RowLines(t, p);
    assert ApplyRows(ls, tb) == RowThen(ls, tb);
  }

  /** The loop ends once no newline is left. */
  lemma NoMoreRows(t: seq<char>, p: nat)
    requires ServersPadded(t) && p <= |t| - LINE_SIZE && StrPbrk(t, p, NL).None?
    ensures RowLines(t, p) == []
  {
  }

  /** devIocStatsReadNfsServers on the table `tb`: no file or no newline is no servers; a
      failed read is -1; otherwise the rows after the first newline. The first strpbrk
      finds that newline and the loop's own strpbrk finds it again. */
  function ReadServers(f: ProcFile, tb: Table): (r: (Outcome, Table))
    requires TableShape(tb)
    ensures TableShape(r.1)
  {
    if !f.statOk || f.fd < 0 then (Returned(0), tb)
    else if !f.readOk then (Returned(-1), tb)
    else
      var t := ServersBuffer(f.data);
      var n := StrPbrk(t, 0, NL);
      if n.None? then (Returned(0), tb) else ServerRows(t, n.value, tb)
  }

  // ---------------------------------------------------------------------------------------
  // The mount table

  /** The three strtok(NULL, " ") calls of one pass of the mount loop, resuming at `from`:
      the device, ignored; the mount point; and the type. The mount point is kept when
      there is one and the type is missing, "nfs" or "nfs4". `next` is where strtok's
      saved position rests afterwards. */
  datatype MountLine = MountLine(point: Option<seq<char>>, next: nat)

  function MountFields(t: seq<char>, from: nat): (m: MountLine)
    requires Terminated(t) && from < |t|
    ensures from <= m.next < |t|
    ensures m.point.Some? ==> NoNul(m.point.value)
  {
    MountPoint(t, Strtok(t, from, SP).next)
  }

  /** The mount point's strtok, resuming at `at`, and the type's. */
  function MountPoint(t: seq<char>, at: nat): (m: MountLine)
    requires Terminated(t) && at < |t|
    ensures at <= m.next < |t|
    ensures m.point.Some? ==> NoNul(m.point.value)
  {
    var point := Strtok(t, at, SP);
    if point.tok.None? then MountLine(None, point.next)
    else
      StrtokSpans(t, at, SP);
      MountKind(t, point.next, TokText(t, point.tok.value))
  }

  /** The type's strtok, resuming at `at`, for the mount point `p`: a type other than
      "nfs4" and "nfs" drops it. */
  function MountKind(t: seq<char>, at: nat, p: seq<char>): (m: MountLine)
    requires Terminated(t) && at < |t|
    ensures at <= m.next < |t| && (m.point.Some? ==> m.point.value == p)
  {
    var kind := Strtok(t, at, SP);
    if kind.tok.Some? && TokText(t, kind.tok.value) != "nfs4" && TokText(t, kind.tok.value) != "nfs"
    then MountLine(None, kind.next)
    else MountLine(Some(p), kind.next)
  }

  predicate PointsShape(mp: seq<char>)
  {
    Column(mp, MOUNTPOINT_MAX) && Terminated(mp)
  }

  /** The mount loop `for (line = strtok(…, "\n"); line && mnt < MAX_NFS_STATS; line =
      strtok(NULL, "\n"))`, its line strtok resuming at `at`, with `mnt` mount points
      stored so far: the number stored in the end and the mount point column. */
  function MountRows(t: seq<char>, at: nat, mnt: nat, mp: seq<char>): (r: (nat, seq<char>))
    requires Terminated(t) && at < |t| && mnt <= MAX_NFS_STATS && PointsShape(mp)
    ensures mnt <= r.0 <= MAX_NFS_STATS && PointsShape(r.1)
    decreases |t| - at
  {
    var line := Strtok(t, at, NL);
    if line.tok.None? || mnt >= MAX_NFS_STATS then (mnt, mp)
    else
      var m := MountFields(t, line.next);
      if m.point.None? then MountRows(t, m.next, mnt, mp)
      else
        var v := BoundedCopy(m.point.value, MOUNTPOINT_MAX);
        BoundedCopyTruncates(m.point.value, MOUNTPOINT_MAX);
        WriteSlotTerminated(mp, mnt, MOUNTPOINT_MAX, v);
        MountRows(t, m.next, mnt + 1, WriteSlot(mp, mnt, MOUNTPOINT_MAX, v))
  }

  /** One pass of the mount loop, for a line the line strtok found with room in the table. */
  lemma MountRowsStep(t: seq<char>, at: nat, mnt: nat, mp: seq<char>, m: MountLine)
    requires Terminated(t) && at < |t| && mnt < MAX_NFS_STATS && PointsShape(mp)
    requires Strtok(t, at, NL).tok.Some? && m == MountFields(t, Strtok(t, at, NL).next)
    ensures m.point.None? ==> MountRows(t, at, mnt, mp) == MountRows(t, m.next, mnt, mp)
    ensures m.point.Some? ==>
      var v := BoundedCopy(m.point.value, MOUNTPOINT_MAX);
      && Terminated(WriteSlot(mp, mnt, MOUNTPOINT_MAX, v))
      && MountRows(t, at, mnt, mp) == MountRows(t, m.next, mnt + 1, WriteSlot(mp, mnt, MOUNTPOINT_MAX, v))
  {
    if m.point.Some? {
      var v := BoundedCopy(m.point.value, MOUNTPOINT_MAX);
      WriteSlotTerminated(mp, mnt, MOUNTPOINT_MAX, v);
    }
  }

  /** devIocStatsReadNfsMounts on the mount point column `mp`: -1 when stat, open or read
      fails, else 0 and the column the mount loop leaves. */
  function ReadMounts(f: ProcFile, mp: seq<char>): (r: (int, seq<char>))
    requires PointsShape(mp)
    ensures PointsShape(r.1)
  {
    if !f.statOk || f.fd < 0 || !f.readOk then (-1, mp)
    else (0, MountRows(f.data + [NUL], 0, 0, mp).1)
  }

  // ---------------------------------------------------------------------------------------
  // The RPC counters

  /** Get's buffer for the bytes read. */
  function RpcBuffer(data: seq<char>): (t: seq<char>)
    requires |data| < LINE_SIZE
    ensures |t| == LINE_SIZE && Terminated(t)
  {
    data + Nuls(LINE_SIZE - |data|)
  }

  /** What Get's lseek and read of nfsStatFd did: whether each succeeded, and the bytes
      read (at most sizeof(buf) - 1). */
  datatype Poll = Poll(seekOk: bool, readOk: bool, data: seq<char>)

  /** `calls` and `retrans`: 0 unless strtok(…, "\n") finds a second line; then the
      strtok(NULL, " ") chain resumes after that line, skips one word and reads the next
      two with atoi, each left 0 when strtok finds no word. */
  function RpcCounters(t: seq<char>): (r: (int, int))
    requires Terminated(t)
    ensures var second := Strtok(t, Strtok(t, 0, NL).next, NL);
      second.tok.None? ==> r == (0, 0)
    ensures var second := Strtok(t, Strtok(t, 0, NL).next, NL);
      second.tok.Some? ==>
        var n1 := Strtok(t, second.next, SP).next;
        r == (TokValue(t, n1), TokValue(t, Strtok(t, n1, SP).next))
  {
    var first := Strtok(t, 0, NL);
    var second := Strtok(t, first.next, NL);
    if second.tok.None? then (0, 0)
    else
      RpcFieldsByToken(t, second.next);
      RpcFields(Words(t, second.next, 3))
  }

  /** The second and third words of the chain, as numbers, or 0 where there are none. */
  function RpcFields(ws: seq<seq<char>>): (r: (int, int))
    ensures |ws| < 2 ==> r == (0, 0)
    ensures |ws| == 2 ==> r == (Atoi(ws[1]), 0)
    ensures |ws| >= 3 ==> r == (Atoi(ws[1]), Atoi(ws[2]))
  {
    (if |ws| >= 2 then Atoi(ws[1]) else 0, if |ws| >= 3 then Atoi(ws[2]) else 0)
  }

  /** atoi of the word strtok(NULL, " ") returns when it resumes at `at`, or 0 when it
      returns a null pointer. */
  function TokValue(t: seq<char>, at: nat): (r: int)
    requires Terminated(t) && at < |t|
    ensures t[at] == NUL ==> r == 0
  {
    var st := Strtok(t, at, SP);
    if st.tok.Some? then Atoi(TokText(t, st.tok.value)) else 0
  }

  /** The counters of a three-word chain are the values of its second and third strtok
      calls, whether or not the first finds a word. */
  lemma RpcFieldsByToken(t: seq<char>, at: nat)
    requires Terminated(t) && at < |t|
    ensures var n1 := Strtok(t, at, SP).next;
      RpcFields(Words(t, at, 3)) == (TokValue(t, n1), TokValue(t, Strtok(t, n1, SP).next))
  {
  }

  /** A slot of nfsStatInfo.mounts[] after Get: the RPC totals, zero for the fields Linux
      does not supply, and the port as it was. */
  function Polled(c: NfsCounters, calls: int, retrans: int): (r: NfsCounters)
    ensures r == NfsCounters(c.port, 0, 0, 0, ULong(calls), ULong(retrans), 0, 0, 0)
    ensures 0 <= calls < ULONG_MOD ==> r.rpcRequests == calls
    ensures 0 <= retrans < ULONG_MOD ==> r.rpcRetries == retrans
  {
    c.(gid := 0, liveNodes := 0, uid := 0, retryPeriodMS := 0, rpcTimeouts := 0,
       rpcErrors := 0, rpcRequests := ULong(calls), rpcRetries := ULong(retrans))
  }

  /** A column of `width`-character fields once its first `n` slots are given the values
      `vs`, one slot after the other. */
  function Filled(col: seq<char>, vs: seq<seq<char>>, n: nat, width: nat): (r: seq<char>)
    requires n <= |vs| == MAX_NFS_STATS && Column(col, width)
    requires forall i :: 0 <= i < |vs| ==> |vs[i]| == width
    ensures Column(r, width)
  {
    if n == 0 then col else WriteSlot(Filled(col, vs, n - 1, width), n - 1, width, vs[n - 1])
  }

  /** After filling `n` slots, slot `j` holds `vs[j]` when `j < n` and what it held before
      otherwise. */
  lemma {:induction false} FilledSlot(col: seq<char>, vs: seq<seq<char>>, n: nat, width: nat, j: nat)
    requires n <= |vs| == MAX_NFS_STATS && Column(col, width) && j < MAX_NFS_STATS
    requires forall i :: 0 <= i < |vs| ==> |vs[i]| == width
    ensures Slot(Filled(col, vs, n, width), j, width) == if j < n then vs[j] else Slot(col, j, width)
  {
    if n > 0 {
      SlotOfWrite(Filled(col, vs, n - 1, width), n - 1, j, width, vs[n - 1]);
      if j != n - 1 {
        FilledSlot(col, vs, n - 1, width, j);
      }
    }
  }

  /** Slot `i` of the `srcWidth`-character column `src` of nfsServers[], as the idiom of
      CopyField leaves it in a `width`-character field. */
  function Copies(src: seq<char>, srcWidth: nat, width: nat): (vs: seq<seq<char>>)
    requires Terminated(src) && 0 < srcWidth && Column(src, srcWidth) && 0 < width
    ensures |vs| == MAX_NFS_STATS && forall i :: 0 <= i < |vs| ==> |vs[i]| == width
  {
    seq(MAX_NFS_STATS, i requires 0 <= i < MAX_NFS_STATS =>
      SlotInside(i, srcWidth);
      BoundedCopy(CStr(src, Offset(i, srcWidth)), width))
  }

  /** A `width`-character column of nfsStatInfo.mounts[] once the first `n` slots are
      filled from the `srcWidth`-character column `src` of nfsServers[]. */
  function Resolved(col: seq<char>, src: seq<char>, n: nat, width: nat, srcWidth: nat): (r: seq<char>)
    requires n <= MAX_NFS_STATS && Column(col, width) && 0 < width
    requires Terminated(src) && 0 < srcWidth && Column(src, srcWidth)
    ensures Column(r, width)
  {
    Filled(col, Copies(src, srcWidth, width), n, width)
  }

  /** The slots of Resolved: the first `n` are the bounded copies of the source slots, the
      others are as they were. */
  lemma ResolvedSlot(col: seq<char>, src: seq<char>, n: nat, width: nat, srcWidth: nat, j: nat)
    requires n <= MAX_NFS_STATS && Column(col, width) && 0 < width
    requires Terminated(src) && 0 < srcWidth && Column(src, srcWidth) && j < MAX_NFS_STATS
    ensures Offset(j, srcWidth) < |src|
    ensures Slot(Resolved(col, src, n, width, srcWidth), j, width)
      == if j < n then BoundedCopy(CStr(src, Offset(j, srcWidth)), width) else Slot(col, j, width)
  {
    SlotInside(j, srcWidth);
    FilledSlot(col, Copies(src, srcWidth, width), n, width, j);
  }

  /** One more slot filled from nfsServers[]. */
  lemma ResolvedNext(col: seq<char>, src: seq<char>, n: nat, width: nat, srcWidth: nat)
    requires n < MAX_NFS_STATS && Column(col, width) && 0 < width
    requires Terminated(src) && 0 < srcWidth && Column(src, srcWidth)
    ensures Offset(n, srcWidth) < |src|
    ensures Resolved(col, src, n + 1, width, srcWidth)
      == WriteSlot(Resolved(col, src, n, width, srcWidth), n, width, BoundedCopy(CStr(src, Offset(n, srcWidth)), width))
  {
    SlotInside(n, srcWidth);
  }

  /** The idiom `strncpy(field, src, n); field[width-1] = 0;` on slot `i` of a column of
      `width`-character fields, with `n` either `width` or `width - 1`. */
  method CopyField(dst: array<char>, i: nat, width: nat, n: nat, src: array<char>, s: nat)
    requires dst != src && Column(dst[..], width) && i < MAX_NFS_STATS
    requires 0 < width && width - 1 <= n <= width
    requires Terminated(src[..]) && s < src.Length
    modifies dst
    ensures dst[..] == WriteSlot(old(dst[..]), i, width, BoundedCopy(CStr(src[..], s), width))
  {
    ghost var a := dst[..];
    ghost var str := CStr(src[..], s);
    SlotInside(i, width);
    OffsetIsProduct(i, width);
    StrNCpyAt(dst, i * width, src, s, n);
    dst[i * width + width - 1] := NUL;
    assert dst[..] == WriteSlot(a, i, width, BoundedCopy(str, width));
  }

  // ---------------------------------------------------------------------------------------
  // The engine

  /** The file's static state: nfsStatFd, numMounts and nfsServers[], the latter held
      column by column (server `i`'s hostname is `Slot(hostname[..], i, HOSTNAME_MAX)`). */
  class NfsEngine {
    var nfsStatFd: int
    var numMounts: int
    const servers: array<Server>
    const hostname: array<char>
    const mountpoint: array<char>

    ghost predicate Valid()
      reads this, hostname, mountpoint
    {
      && ServersValid() && mountpoint != hostname
      && mountpoint.Length == MAX_NFS_STATS * MOUNTPOINT_MAX && Terminated(mountpoint[..])
    }

    /** The server table's part of Valid. */
    ghost predicate ServersValid()
      reads this, hostname
    {
      && servers.Length == MAX_NFS_STATS
      && hostname.Length == MAX_NFS_STATS * HOSTNAME_MAX && Terminated(hostname[..])
      && 0 <= numMounts <= MAX_NFS_STATS
    }

    /** The state the server reader works on. */
    ghost function Servers(): (tb: Table)
      reads this, servers, hostname
      requires ServersValid()
      ensures TableShape(tb)
    {
      Table(servers[..], hostname[..], numMounts)
    }

    /** Static initialisation: no descriptor, no servers, every field zero. */
    constructor ()
      ensures Valid() && fresh(servers) && fresh(hostname) && fresh(mountpoint)
      ensures nfsStatFd == -1 && numMounts == 0
      ensures servers[..] == seq(MAX_NFS_STATS, _ => Server(0, 0, 0))
      ensures hostname[..] == Nuls(MAX_NFS_STATS * HOSTNAME_MAX)
      ensures mountpoint[..] == Nuls(MAX_NFS_STATS * MOUNTPOINT_MAX)
    {
      nfsStatFd := -1;
      numMounts := 0;
      servers := new Server[MAX_NFS_STATS](_ => Server(0, 0, 0));
      hostname := new char[MAX_NFS_STATS * HOSTNAME_MAX](_ => NUL);
      mountpoint := new char[MAX_NFS_STATS * MOUNTPOINT_MAX](_ => NUL);
    }

    /** devIocStatsInitNFSStat. `rpc` is the RPC counter file (only its stat and open
        matter), `list` the server list and `mounts` the mount table. */
    method Init(rpc: ProcFile, list: ProcFile, mounts: ProcFile) returns (r: Outcome)
      requires Valid()
      modifies this, servers, hostname, mountpoint
      ensures Valid()
      ensures !rpc.statOk ==>
        r == Returned(0) && nfsStatFd == old(nfsStatFd) && Servers() == old(Servers())
        && mountpoint[..] == old(mountpoint[..])
      ensures rpc.statOk ==> nfsStatFd == rpc.fd
      ensures rpc.statOk && rpc.fd < 0 ==>
        r == Returned(-1) && Servers() == old(Servers()) && mountpoint[..] == old(mountpoint[..])
      ensures rpc.statOk && rpc.fd >= 0 ==>
        var list' := ReadServers(list, old(Servers()));
        var mounts' := ReadMounts(mounts, old(mountpoint[..]));
        && Servers() == list'.1
        && (list'.0.Returned? && list'.0.rc >= 0 ==>
              r == Returned(if mounts'.0 < 0 then -1 else 0) && mountpoint[..] == mounts'.1)
        && (list'.0.Returned? && list'.0.rc < 0 ==>
              r == Returned(-1) && mountpoint[..] == old(mountpoint[..]))
        && (list'.0 == TableOverrun ==> r == TableOverrun && mountpoint[..] == old(mountpoint[..]))
    {
      if !rpc.statOk {
        return Returned(0);
      }
      nfsStatFd := rpc.fd;
      if nfsStatFd < 0 {
        return Returned(-1);
      }
      var o := ReadNfsServers(list);
      if o == TableOverrun {
        return TableOverrun;
      }
      if o.rc < 0 {
        return Returned(-1);
      }
      var rc := ReadNfsMounts(mounts);
      if rc < 0 {
        return Returned(-1);
      }
      return Returned(0);
    }

    /** devIocStatsReadNfsServers. */
    method ReadNfsServers(f: ProcFile) returns (o: Outcome)
      requires Valid()
      modifies this, servers, hostname
      ensures Valid() && nfsStatFd == old(nfsStatFd)
      ensures (o, Servers()) == ReadServers(f, old(Servers()))
    {
      if !f.statOk {
        return Returned(0);
      }
      if f.fd < 0 {
        return Returned(0);
      }
      if !f.readOk {
        return Returned(-1);
      }
      var buf := new char[|f.data| + LINE_SIZE](k requires 0 <= k < |f.data| + LINE_SIZE =>
        if k < |f.data| then f.data[k] else NUL);
      assert buf[..] == ServersBuffer(f.data);
      var p := StrPbrkAt(buf, 0, NL);
      if p.None? {
        return Returned(0);
      }
      o := ServerLoop(buf, p.value);
    }

    /** `while ((p = strpbrk(p, "\n")))`: one row per newline. */
    method ServerLoop(buf: array<char>, p0: nat) returns (o: Outcome)
      requires Valid() && ServersPadded(buf[..]) && p0 <= buf.Length - LINE_SIZE
      requires buf != hostname
      modifies this, servers, hostname
      ensures Valid() && nfsStatFd == old(nfsStatFd)
      ensures (o, Servers()) == ServerRows(buf[..], p0, old(Servers()))
    {
      ghost var t := buf[..];
      ghost var goal := ServerRows(t, p0, old(Servers()));
      var p := p0;
      var n := StrPbrkAt(buf, p, NL);
      while n.Some?
        invariant Valid() && nfsStatFd == old(nfsStatFd) && buf[..] == t
        invariant p <= buf.Length - LINE_SIZE && n == StrPbrk(t, p, NL)
        invariant ServerRows(t, p, Servers()) == goal
        decreases buf.Length - p
      {
        o := RowTurn(buf, p, n.value);
        p := n.value + 1;
        if o != Returned(0) {
          return;
        }
        n := StrPbrkAt(buf, p, NL);
      }
      NoMoreRows(t, p);
      return Returned(0);
    }

    /** The body of the row loop: the row after the newline at `j` copied into `line`,
        then parsed; the loop goes on from there if the row ended with 0. */
    method RowTurn(buf: array<char>, p: nat, j: nat) returns (o: Outcome)
      requires Valid() && buf != hostname && ServersPadded(buf[..]) && p <= buf.Length - LINE_SIZE
      requires StrPbrk(buf[..], p, NL) == Some(j)
      modifies this, servers, hostname
      ensures Valid() && nfsStatFd == old(nfsStatFd) && j < buf.Length - LINE_SIZE
      ensures o == Returned(0) ==> ServerRows(buf[..], p, old(Servers())) == ServerRows(buf[..], j + 1, Servers())
      ensures o != Returned(0) ==> ServerRows(buf[..], p, old(Servers())) == (o, Servers())
    {
      ghost var t, tb := buf[..], Servers();
      assert t[j] in NL;
      var line := CopyRow(buf, j + 1);
      ghost var row := line[..];
      o := ServerRow(line);
      assert (o, Servers()) == RowText(row, tb) && buf[..] == t;
      RowsStep(t, p, j, tb, o, Servers());
    }

    /** One row: strtok(line, " ") and the stores into nfsServers[numMounts]. */
    method ServerRow(line: array<char>) returns (o: Outcome)
      requires Valid() && Terminated(line[..]) && line != hostname && line != mountpoint
      modifies this, servers, hostname, line
      ensures Valid() && nfsStatFd == old(nfsStatFd)
      ensures (o, Servers()) == RowText(old(line[..]), old(Servers()))
    {
      var tk := new Tokenizer(line);
      var v := tk.Restart(0, SP);
      if v.None? {
        return Returned(-1);
      }
      o := ServerVersion(tk, v.value);
    }

    /** `if (val && *val == 'v') nfsServers[numMounts].ver = atoi(val+1); else goto error;`
        for the first word of the row, at `pos`. */
    method ServerVersion(tk: Tokenizer, pos: nat) returns (o: Outcome)
      requires Valid() && tk.Valid() && tk.buf != hostname && tk.buf != mountpoint
      requires Strtok(tk.text, 0, SP).tok.Some? && tk.save == Strtok(tk.text, 0, SP).next
      requires pos == Strtok(tk.text, 0, SP).tok.value.start
      requires CStr(tk.buf[..], pos) == TokText(tk.text, Strtok(tk.text, 0, SP).tok.value)
      modifies this, servers, hostname, tk, tk.buf
      ensures Valid() && nfsStatFd == old(nfsStatFd)
      ensures (o, Servers()) == RowText(tk.text, old(Servers()))
    {
      if tk.buf[pos] != 'v' {
        return Returned(-1);
      }
      if numMounts >= MAX_NFS_STATS {
        return TableOverrun;
      }
      CStrNext(tk.buf[..], pos);
      var ver := AtoiAt(tk.buf, pos + 1);
      Store(servers[numMounts].(ver := ver));
      o := ServerName(tk);
    }

    /** `strtok(NULL, " ");` past the name. */
    method ServerName(tk: Tokenizer) returns (o: Outcome)
      requires Valid() && tk.Valid() && tk.buf != hostname && tk.buf != mountpoint
      requires numMounts < MAX_NFS_STATS
      modifies this, servers, hostname, tk, tk.buf
      ensures Valid() && nfsStatFd == old(nfsStatFd)
      ensures (o, Servers()) == FieldsFrom(tk.text, old(tk.save), 4, old(Servers()))
    {
      var name := tk.Next(SP);
      if name.None? {
        StrtokAtNul(tk.text, tk.save, SP);
      }
      o := ServerPort(tk);
    }

    /** The port. */
    method ServerPort(tk: Tokenizer) returns (o: Outcome)
      requires Valid() && tk.Valid() && tk.buf != hostname && tk.buf != mountpoint
      requires numMounts < MAX_NFS_STATS
      modifies this, servers, hostname, tk, tk.buf
      ensures Valid() && nfsStatFd == old(nfsStatFd)
      ensures (o, Servers()) == FieldsFrom(tk.text, old(tk.save), 3, old(Servers()))
    {
      var port := tk.Next(SP);
      if port.None? {
        return Returned(-1);
      }
      var v := AtoiAt(tk.buf, port.value);
      Store(servers[numMounts].(port := v));
      o := ServerUse(tk);
    }

    /** The use count. */
    method ServerUse(tk: Tokenizer) returns (o: Outcome)
      requires Valid() && tk.Valid() && tk.buf != hostname && tk.buf != mountpoint
      requires numMounts < MAX_NFS_STATS
      modifies this, servers, hostname, tk, tk.buf
      ensures Valid() && nfsStatFd == old(nfsStatFd)
      ensures (o, Servers()) == FieldsFrom(tk.text, old(tk.save), 2, old(Servers()))
    {
      var use := tk.Next(SP);
      if use.None? {
        return Returned(-1);
      }
      var v := AtoiAt(tk.buf, use.value);
      Store(servers[numMounts].(use := v));
      o := ServerHost(tk);
    }

    /** The hostname: copied with strncpy and cut to HOSTNAME_MAX - 1 characters; the row
        then counts. */
    method ServerHost(tk: Tokenizer) returns (o: Outcome)
      requires Valid() && tk.Valid() && tk.buf != hostname && tk.buf != mountpoint
      requires numMounts < MAX_NFS_STATS
      modifies this, servers, hostname, tk, tk.buf
      ensures Valid() && nfsStatFd == old(nfsStatFd)
      ensures (o, Servers()) == FieldsFrom(tk.text, old(tk.save), 1, old(Servers()))
    {
      HostField(tk.text, tk.save, Servers());
      var host := tk.Next(SP);
      if host.None? {
        return Returned(-1);
      }
      StoreHost(tk.buf, host.value);
      return Returned(0);
    }

    /** `strncpy(nfsServers[numMounts].hostname, host, HOSTNAME_MAX)`, the terminator and
        `numMounts++`: the table with the hostname at `s` of `src` stored. */
    method StoreHost(src: array<char>, s: nat)
      requires ServersValid() && numMounts < MAX_NFS_STATS && src != hostname
      requires Terminated(src[..]) && s < src.Length
      modifies this, hostname
      ensures ServersValid() && nfsStatFd == old(nfsStatFd)
      ensures Servers() == HostStored(old(Servers()), CStr(src[..], s))
    {
      ghost var col := hostname[..];
      CopyField(hostname, numMounts, HOSTNAME_MAX, HOSTNAME_MAX, src, s);
      WriteSlotTerminated(col, numMounts, HOSTNAME_MAX, BoundedCopy(CStr(src[..], s), HOSTNAME_MAX));
      numMounts := numMounts + 1;
    }

    /** nfsServers[numMounts] := s, for the numeric fields. */
    method Store(s: Server)
      requires ServersValid() && numMounts < MAX_NFS_STATS
      modifies servers
      ensures servers[..] == old(servers[..])[numMounts := s]
    {
      servers[numMounts] := s;
    }

    /** The row copy into a fresh `line`. */
    method CopyRow(buf: array<char>, p: nat) returns (line: array<char>)
      requires p + LINE_SIZE - 1 <= buf.Length
      ensures fresh(line) && line[..] == LineBuffer(Row(buf[..], p))
    {
      line := new char[LINE_SIZE](_ => NUL);
      var i := 0;
      while i < LINE_SIZE - 1 && buf[p + i] != '\n'
        invariant 0 <= i <= LINE_SIZE - 1
        invariant RowEnd(buf[..], p, p) == RowEnd(buf[..], p, p + i)
        invariant forall k :: 0 <= k < LINE_SIZE ==> line[k] == if k < i then buf[p + k] else NUL
        decreases LINE_SIZE - i
      {
        line[i] := buf[p + i];
        i := i + 1;
      }
      line[i] := NUL;
      assert line[..] == LineBuffer(Row(buf[..], p));
    }

    /** `strcmp(type, "nfs4") == 0 || strcmp(type, "nfs") == 0` for the type at `i`. */
    static method IsNfsType(buf: array<char>, i: nat) returns (nfs: bool)
      requires Terminated(buf[..]) && i < buf.Length
      ensures nfs <==> CStr(buf[..], i) == "nfs4" || CStr(buf[..], i) == "nfs"
    {
      var c4 := StrCmpAt("nfs4", buf, i);
      if c4 == 0 {
        return true;
      }
      var c := StrCmpAt("nfs", buf, i);
      nfs := c == 0;
    }

    /** devIocStatsReadNfsMounts. */
    method ReadNfsMounts(f: ProcFile) returns (rc: int)
      requires Valid()
      modifies mountpoint
      ensures Valid()
      ensures (rc, mountpoint[..]) == ReadMounts(f, old(mountpoint[..]))
    {
      if !f.statOk {
        return -1;
      }
      if f.fd < 0 {
        return -1;
      }
      if !f.readOk {
        return -1;
      }
      var buf := new char[|f.data| + 1](k requires 0 <= k < |f.data| + 1 =>
        if k < |f.data| then f.data[k] else NUL);
      assert buf[..] == f.data + [NUL];
      MountLoop(buf);
      return 0;
    }

    /** `for (line = strtok(buf, "\n"); line && mnt < MAX_NFS_STATS; line = strtok(NULL,
        "\n"))`. */
    method MountLoop(buf: array<char>)
      requires Terminated(buf[..]) && buf != mountpoint
      requires mountpoint.Length == MAX_NFS_STATS * MOUNTPOINT_MAX && Terminated(mountpoint[..])
      modifies buf, mountpoint
      ensures mountpoint[..] == MountRows(old(buf[..]), 0, 0, old(mountpoint[..])).1
    {
      var tk := new Tokenizer(buf);
      ghost var t := tk.text;
      ghost var at := 0;
      var mnt := 0;
      var line := tk.Restart(0, NL);
      while line.Some? && mnt < MAX_NFS_STATS
        invariant tk.Valid() && tk.buf == buf && tk.text == t && Terminated(mountpoint[..])
        invariant at < |t| && line == Start(Strtok(t, at, NL)) && tk.save == Strtok(t, at, NL).next
        invariant 0 <= mnt <= MAX_NFS_STATS
        invariant MountRows(t, at, mnt, mountpoint[..]) == MountRows(t, 0, 0, old(mountpoint[..]))
        decreases |t| - at
      {
        mnt, line, at := MountPass(tk, mnt, at);
      }
    }

    /** The body of the mount loop and its `line = strtok(NULL, "\n")`, after the line
        strtok resuming at `at`. */
    method MountPass(tk: Tokenizer, mnt: nat, ghost at: nat) returns (mnt': nat, line: Option<nat>, ghost at': nat)
      requires tk.Valid() && tk.buf != mountpoint && mnt < MAX_NFS_STATS
      requires mountpoint.Length == MAX_NFS_STATS * MOUNTPOINT_MAX && Terminated(mountpoint[..])
      requires at < |tk.text| && Strtok(tk.text, at, NL).tok.Some? && tk.save == Strtok(tk.text, at, NL).next
      modifies tk, tk.buf, mountpoint
      ensures tk.Valid() && Terminated(mountpoint[..]) && mnt' <= MAX_NFS_STATS
      ensures at < at' < |tk.text| && line == Start(Strtok(tk.text, at', NL))
      ensures tk.save == Strtok(tk.text, at', NL).next
      ensures MountRows(tk.text, at', mnt', mountpoint[..]) == MountRows(tk.text, at, mnt, old(mountpoint[..]))
    {
      ghost var m := MountFields(tk.text, tk.save);
      MountRowsStep(tk.text, at, mnt, mountpoint[..], m);
      var stored := MountRow(tk, mnt);
      mnt' := if stored then mnt + 1 else mnt;
      at' := tk.save;
      line := tk.Next(NL);
    }

    /** One pass of the mount loop for entry `mnt`: the device, ignored, then the rest. */
    method MountRow(tk: Tokenizer, mnt: nat) returns (stored: bool)
      requires tk.Valid() && tk.buf != mountpoint && mnt < MAX_NFS_STATS
      requires mountpoint.Length == MAX_NFS_STATS * MOUNTPOINT_MAX && Terminated(mountpoint[..])
      modifies tk, tk.buf, mountpoint
      ensures tk.Valid()
      ensures var m := MountFields(tk.text, old(tk.save));
        && tk.save == m.next && stored == m.point.Some?
        && mountpoint[..] == if m.point.Some?
           then WriteSlot(old(mountpoint[..]), mnt, MOUNTPOINT_MAX, BoundedCopy(m.point.value, MOUNTPOINT_MAX))
           else old(mountpoint[..])
    {
      var dev := tk.Next(SP);
      stored := MountPointField(tk, mnt);
    }

    /** `if ((val = strtok(NULL, " "))) … else continue;` */
    method MountPointField(tk: Tokenizer, mnt: nat) returns (stored: bool)
      requires tk.Valid() && tk.buf != mountpoint && mnt < MAX_NFS_STATS
      requires mountpoint.Length == MAX_NFS_STATS * MOUNTPOINT_MAX && Terminated(mountpoint[..])
      modifies tk, tk.buf, mountpoint
      ensures tk.Valid()
      ensures var m := MountPoint(tk.text, old(tk.save));
        && tk.save == m.next && stored == m.point.Some?
        && mountpoint[..] == if m.point.Some?
           then WriteSlot(old(mountpoint[..]), mnt, MOUNTPOINT_MAX, BoundedCopy(m.point.value, MOUNTPOINT_MAX))
           else old(mountpoint[..])
    {
      ghost var t := tk.text;
      ghost var at := tk.save;
      var val := tk.Next(SP);
      if val.None? {
        return false;
      }
      StrtokSpans(t, at, SP);
      stored := MountKindField(tk, mnt, val.value, TokText(t, Strtok(t, at, SP).tok.value));
    }

    /** `if ((type = strtok(NULL, " ")) && strcmp(type, "nfs4") && strcmp(type, "nfs"))
        continue;` and the strncpy of the mount point `p`, at `pos`, into entry `mnt`. */
    method MountKindField(tk: Tokenizer, mnt: nat, pos: nat, ghost p: seq<char>) returns (stored: bool)
      requires tk.Valid() && tk.buf != mountpoint && mnt < MAX_NFS_STATS
      requires mountpoint.Length == MAX_NFS_STATS * MOUNTPOINT_MAX && Terminated(mountpoint[..])
      requires pos < tk.buf.Length && CStr(tk.buf[..], pos) == p && pos + |p| <= tk.save
      modifies tk, tk.buf, mountpoint
      ensures tk.Valid()
      ensures var m := MountKind(tk.text, old(tk.save), p);
        && tk.save == m.next && stored == m.point.Some?
        && mountpoint[..] == if m.point.Some?
           then WriteSlot(old(mountpoint[..]), mnt, MOUNTPOINT_MAX, BoundedCopy(p, MOUNTPOINT_MAX))
           else old(mountpoint[..])
    {
      ghost var before := tk.buf[..];
      ghost var from := tk.save;
      var kind := tk.Next(SP);
      if kind.Some? {
        var nfs := IsNfsType(tk.buf, kind.value);
        if !nfs {
          return false;
        }
      }
      StrtokKeepsCStr(tk.text, before, from, SP, pos);
      CopyField(mountpoint, mnt, MOUNTPOINT_MAX, MOUNTPOINT_MAX, tk.buf, pos);
      BoundedCopyTruncates(p, MOUNTPOINT_MAX);
      WriteSlotTerminated(old(mountpoint[..]), mnt, MOUNTPOINT_MAX, BoundedCopy(p, MOUNTPOINT_MAX));
      return true;
    }

    /** devIocStatsGetNFSStat(p, resolveMounts). `poll` is what lseek and read of
        nfsStatFd did. */
    method Get(p: NfsStatInfo, poll: Poll, resolveMounts: int) returns (rc: int)
      requires Valid() && p.Valid() && |poll.data| < LINE_SIZE
      requires p.ip != hostname && p.ip != mountpoint && p.mount != hostname && p.mount != mountpoint
      modifies p, p.counters, p.mount, p.ip
      ensures nfsStatFd < 0 || !poll.seekOk || !poll.readOk ==>
        && rc == (if nfsStatFd < 0 then 0 else -1) && p.numMounts == old(p.numMounts)
        && p.counters[..] == old(p.counters[..]) && p.ip[..] == old(p.ip[..])
        && p.mount[..] == old(p.mount[..])
      ensures nfsStatFd >= 0 && poll.seekOk && poll.readOk ==>
        var (calls, retrans) := RpcCounters(RpcBuffer(poll.data));
        && rc == 0 && p.numMounts == numMounts
        && (forall j :: 0 <= j < MAX_NFS_STATS ==>
              p.counters[j] == if j < numMounts then Polled(old(p.counters[j]), calls, retrans) else old(p.counters[j]))
        && (p.ip[..] == if resolveMounts != 0
              then Resolved(old(p.ip[..]), hostname[..], numMounts, IP_LEN, HOSTNAME_MAX)
              else old(p.ip[..]))
        && (p.mount[..] == if resolveMounts != 0
              then Resolved(old(p.mount[..]), mountpoint[..], numMounts, MOUNT_LEN, MOUNTPOINT_MAX)
              else old(p.mount[..]))
    {
      if nfsStatFd < 0 {
        return 0;
      }
      if !poll.seekOk {
        return -1;
      }
      if !poll.readOk {
        return -1;
      }
      var buf := new char[LINE_SIZE](k requires 0 <= k < LINE_SIZE =>
        if k < |poll.data| then poll.data[k] else NUL);
      assert buf[..] == RpcBuffer(poll.data);
      var calls, retrans := ParseRpc(buf);
      FillMounts(p, calls, retrans, resolveMounts);
      p.numMounts := numMounts;
      return 0;
    }

    /** The two strtok(…, "\n") calls and, after a second line, the three strtok(NULL,
        " ") calls with their atoi. */
    static method ParseRpc(buf: array<char>) returns (calls: int, retrans: int)
      requires Terminated(buf[..])
      modifies buf
      ensures (calls, retrans) == RpcCounters(old(buf[..]))
    {
      var tk := new Tokenizer(buf);
      var first := tk.Restart(0, NL);
      var second := tk.Next(NL);
      if second.None? {
        return 0, 0;
      }
      calls, retrans := RpcWords(tk);
    }

    /** `strtok(NULL, " ");` past the first word of the line, then the two counters. */
    static method RpcWords(tk: Tokenizer) returns (calls: int, retrans: int)
      requires tk.Valid()
      modifies tk, tk.buf
      ensures (calls, retrans) == RpcFields(Words(tk.text, old(tk.save), 3))
    {
      RpcFieldsByToken(tk.text, tk.save);
      var skip := tk.Next(SP);
      if skip.None? {
        StrtokAtNul(tk.text, tk.save, SP);
      }
      calls, retrans := RpcCalls(tk);
    }

    /** `if ((ptr = strtok(NULL, " "))) calls = atoi(ptr);` and the same for retrans. */
    static method RpcCalls(tk: Tokenizer) returns (calls: int, retrans: int)
      requires tk.Valid()
      modifies tk, tk.buf
      ensures calls == TokValue(tk.text, old(tk.save))
      ensures retrans == TokValue(tk.text, Strtok(tk.text, old(tk.save), SP).next)
    {
      calls := 0;
      var c := tk.Next(SP);
      if c.Some? {
        calls := AtoiAt(tk.buf, c.value);
      }
      retrans := 0;
      var r := tk.Next(SP);
      if r.Some? {
        retrans := AtoiAt(tk.buf, r.value);
      }
    }

    /** `for (int i = 0; i < numMounts; ++i)`: the RPC totals into every entry below
        numMounts, and with resolveMounts the hostname and mount point copies. */
    method FillMounts(p: NfsStatInfo, calls: int, retrans: int, resolveMounts: int)
      requires Valid() && p.Valid()
      requires p.ip != hostname && p.ip != mountpoint && p.mount != hostname && p.mount != mountpoint
      modifies p.counters, p.mount, p.ip
      ensures forall j :: 0 <= j < MAX_NFS_STATS ==>
        p.counters[j] == if j < numMounts then Polled(old(p.counters[j]), calls, retrans) else old(p.counters[j])
      ensures p.ip[..] == if resolveMounts != 0
        then Resolved(old(p.ip[..]), hostname[..], numMounts, IP_LEN, HOSTNAME_MAX)
        else old(p.ip[..])
      ensures p.mount[..] == if resolveMounts != 0
        then Resolved(old(p.mount[..]), mountpoint[..], numMounts, MOUNT_LEN, MOUNTPOINT_MAX)
        else old(p.mount[..])
    {
      ghost var cs, ip, mnt := p.counters[..], p.ip[..], p.mount[..];
      ghost var hn, mp := hostname[..], mountpoint[..];
      for i := 0 to numMounts
        invariant forall j :: 0 <= j < MAX_NFS_STATS ==>
          p.counters[j] == if j < i then Polled(cs[j], calls, retrans) else cs[j]
        invariant p.ip[..] == if resolveMounts != 0 then Resolved(ip, hn, i, IP_LEN, HOSTNAME_MAX) else ip
        invariant p.mount[..] == if resolveMounts != 0 then Resolved(mnt, mp, i, MOUNT_LEN, MOUNTPOINT_MAX) else mnt
      {
        if resolveMounts != 0 {
          ResolvedNext(ip, hn, i, IP_LEN, HOSTNAME_MAX);
          ResolvedNext(mnt, mp, i, MOUNT_LEN, MOUNTPOINT_MAX);
        }
        FillEntry(p, i, calls, retrans, resolveMounts);
      }
    }

    /** One pass of the loop, for entry `i`. */
    method FillEntry(p: NfsStatInfo, i: nat, calls: int, retrans: int, resolveMounts: int)
      requires Valid() && p.Valid() && i < MAX_NFS_STATS
      requires p.ip != hostname && p.ip != mountpoint && p.mount != hostname && p.mount != mountpoint
      modifies p.counters, p.mount, p.ip
      ensures Offset(i, HOSTNAME_MAX) < hostname.Length && Offset(i, MOUNTPOINT_MAX) < mountpoint.Length
      ensures p.counters[..] == old(p.counters[..])[i := Polled(old(p.counters[i]), calls, retrans)]
      ensures p.ip[..] == if resolveMounts != 0
        then WriteSlot(old(p.ip[..]), i, IP_LEN, BoundedCopy(CStr(hostname[..], Offset(i, HOSTNAME_MAX)), IP_LEN))
        else old(p.ip[..])
      ensures p.mount[..] == if resolveMounts != 0
        then WriteSlot(old(p.mount[..]), i, MOUNT_LEN, BoundedCopy(CStr(mountpoint[..], Offset(i, MOUNTPOINT_MAX)), MOUNT_LEN))
        else old(p.mount[..])
    {
      SlotInside(i, HOSTNAME_MAX);
      SlotInside(i, MOUNTPOINT_MAX);
      p.counters[i] := Polled(p.counters[i], calls, retrans);
      if resolveMounts != 0 {
        OffsetIsProduct(i, HOSTNAME_MAX);
        CopyField(p.ip, i, IP_LEN, IP_LEN - 1, hostname, i * HOSTNAME_MAX);
        OffsetIsProduct(i, MOUNTPOINT_MAX);
        CopyField(p.mount, i, MOUNT_LEN, MOUNT_LEN - 1, mountpoint, i * MOUNTPOINT_MAX);
      }
    }
  }
}
