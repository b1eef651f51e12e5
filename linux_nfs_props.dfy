/** What the Linux NFS readers of devIocStats/os/Linux/osdNFSErrors.c do, stated on their
    meaning in module LinuxNFS: which server rows are accepted and what they store, what a
    run of rows leaves alone, which parts of each file are never looked at, and the values
    the RPC parse extracts. */
module LinuxNFSProps {
  import opened CString
  import opened IocStatsTypes
  import opened LinuxNFS

  // ---------------------------------------------------------------------------------------
  // One server row

  /** A row is accepted exactly when it has five words, the first starting with `v`, and
      the table is not full; a row that starts with `v` when it is full is the store past
      the end of nfsServers[]. A rejected row counts nothing and writes no hostname. */
  lemma RowStepAccepts(ws: seq<seq<char>>, tb: Table)
    requires TableShape(tb)
    ensures RowStep(ws, tb).0 == Returned(0) <==>
      |ws| >= 5 && ws[0] != [] && ws[0][0] == 'v' && tb.count < MAX_NFS_STATS
    ensures RowStep(ws, tb).0 == TableOverrun <==>
      |ws| > 0 && ws[0] != [] && ws[0][0] == 'v' && tb.count >= MAX_NFS_STATS
    ensures RowStep(ws, tb).0 != Returned(0) ==>
      RowStep(ws, tb).1.count == tb.count && RowStep(ws, tb).1.hostname == tb.hostname
    ensures RowStep(ws, tb).0 in {Returned(0), Returned(-1), TableOverrun}
  {
  }

  /** A complete row fills entry `numMounts`: `ver` is the number after the `v`, `port` and
      `use` the numbers of the third and fourth words, the hostname the fifth word cut to
      254 characters; no other entry and no other hostname changes. */
  lemma RowStepComplete(ws: seq<seq<char>>, tb: Table)
    requires TableShape(tb) && |ws| >= 5 && ws[0] != [] && ws[0][0] == 'v'
    requires tb.count < MAX_NFS_STATS && NoNul(ws[4])
    ensures var r := RowStep(ws, tb);
      && r.0 == Returned(0) && r.1.count == tb.count + 1
      && r.1.servers == tb.servers[tb.count := Server(Atoi(ws[0][1..]), Atoi(ws[2]), Atoi(ws[3]))]
      && CStr(Slot(r.1.hostname, tb.count, HOSTNAME_MAX), 0)
         == ws[4][..if |ws[4]| < HOSTNAME_MAX - 1 then |ws[4]| else HOSTNAME_MAX - 1]
      && forall k :: 0 <= k < MAX_NFS_STATS && k != tb.count ==>
           Slot(r.1.hostname, k, HOSTNAME_MAX) == Slot(tb.hostname, k, HOSTNAME_MAX)
  {
    var host := BoundedCopy(ws[4], HOSTNAME_MAX);
    var r := RowStep(ws, tb);
    assert r.1.hostname == WriteSlot(tb.hostname, tb.count, HOSTNAME_MAX, host);
    SlotOfWrite(tb.hostname, tb.count, tb.count, HOSTNAME_MAX, host);
    BoundedCopyTruncates(ws[4], HOSTNAME_MAX);
    forall k | 0 <= k < MAX_NFS_STATS && k != tb.count
      ensures Slot(r.1.hostname, k, HOSTNAME_MAX) == Slot(tb.hostname, k, HOSTNAME_MAX)
    {
      SlotOfWrite(tb.hostname, tb.count, k, HOSTNAME_MAX, host);
    }
  }

  /** `b` agrees with `a` on the entries and hostnames below `n`. */
  predicate SameBelow(a: Table, b: Table, n: nat)
    requires TableShape(a) && TableShape(b) && n <= MAX_NFS_STATS
  {
    forall k :: 0 <= k < n ==>
      b.servers[k] == a.servers[k] && Slot(b.hostname, k, HOSTNAME_MAX) == Slot(a.hostname, k, HOSTNAME_MAX)
  }

  /** `b` agrees with `a` on the entries above `n` and the hostnames from `n` on. */
  predicate SameAbove(a: Table, b: Table, n: nat)
    requires TableShape(a) && TableShape(b) && n <= MAX_NFS_STATS
  {
    && (forall k :: n < k < MAX_NFS_STATS ==> b.servers[k] == a.servers[k])
    && (forall k :: n <= k < MAX_NFS_STATS ==>
          Slot(b.hostname, k, HOSTNAME_MAX) == Slot(a.hostname, k, HOSTNAME_MAX))
  }

  /** A row touches entry `numMounts` only, and its hostname only when it is accepted. */
  lemma RowStepFrame(ws: seq<seq<char>>, tb: Table)
    requires TableShape(tb)
    ensures var r := RowStep(ws, tb);
      && r.1.count == (if r.0 == Returned(0) then tb.count + 1 else tb.count)
      && SameBelow(tb, r.1, tb.count)
      && SameAbove(tb, r.1, r.1.count)
  {
    var r := RowStep(ws, tb);
    if r.0 == Returned(0) {
      var host := BoundedCopy(ws[4], HOSTNAME_MAX);
      forall k | 0 <= k < MAX_NFS_STATS && k != tb.count
        ensures Slot(r.1.hostname, k, HOSTNAME_MAX) == Slot(tb.hostname, k, HOSTNAME_MAX)
      {
        SlotOfWrite(tb.hostname, tb.count, k, HOSTNAME_MAX, host);
      }
    }
  }

  // ---------------------------------------------------------------------------------------
  // The row loop

  /** Whatever the rows, the loop only adds servers: entries and hostnames of the servers
      already counted stay, entries past the final count and hostnames from it on are
      untouched, the count never passes MAX_NFS_STATS, and the reader ends with 0, with -1,
      or at the store past the end of a full table. */
  lemma {:induction false} ApplyRowsKeeps(ls: seq<seq<char>>, tb: Table)
    requires (forall k :: 0 <= k < |ls| ==> Terminated(ls[k])) && TableShape(tb)
    ensures var r := ApplyRows(ls, tb);
      && tb.count <= r.1.count
      && r.0 in {Returned(0), Returned(-1), TableOverrun}
      && (r.0 == TableOverrun ==> r.1.count == MAX_NFS_STATS)
      && SameBelow(tb, r.1, tb.count)
      && SameAbove(tb, r.1, r.1.count)
    decreases |ls|
  {
    if ls != [] {
      var step := RowText(ls[0], tb);
      RowTextFrame(ls[0], tb);
      if step.0 == Returned(0) {
        ApplyRowsKeeps(ls[1..], step.1);
      }
    }
  }

  /** RowText keeps the frame of RowStep. */
  lemma RowTextFrame(line: seq<char>, tb: Table)
    requires Terminated(line) && TableShape(tb)
    ensures var r := RowText(line, tb);
      && r.1.count == (if r.0 == Returned(0) then tb.count + 1 else tb.count)
      && r.0 in {Returned(0), Returned(-1), TableOverrun}
      && (r.0 == TableOverrun ==> tb.count >= MAX_NFS_STATS)
      && SameBelow(tb, r.1, tb.count)
      && SameAbove(tb, r.1, r.1.count)
  {
    RowTextIsRowStep(line, tb);
    RowStepFrame(Words(line, 0, 5), tb);
    RowStepAccepts(Words(line, 0, 5), tb);
  }

  /** The row copy reads the same characters wherever the row sits. */
  lemma {:induction false} RowEndShift(t: seq<char>, u: seq<char>, q: nat, q': nat, i: nat)
    requires q + LINE_SIZE - 1 <= |t| && q' + LINE_SIZE - 1 <= |u| && q <= i <= q + LINE_SIZE - 1
    requires t[q .. q + LINE_SIZE - 1] == u[q' .. q' + LINE_SIZE - 1]
    ensures RowEnd(u, q', i - q + q') == RowEnd(t, q, i) - q + q'
    decreases q + LINE_SIZE - 1 - i
  {
    if i < q + LINE_SIZE - 1 {
      assert t[i] == t[q .. q + LINE_SIZE - 1][i - q] == u[i - q + q'];
      if t[i] != '\n' {
        RowEndShift(t, u, q, q', i + 1);
      }
    }
  }

  /** `t` from `p` on and `u` from `p'` on hold the same characters, stated one position at
      a time so that a proof unfolds it only as far as it needs. */
  predicate Agree(t: seq<char>, u: seq<char>, p: nat, p': nat)
    decreases |t| - p
  {
    && p <= |t| && p' <= |u| && |t| - p == |u| - p'
    && (p < |t| ==> t[p] == u[p'] && Agree(t, u, p + 1, p' + 1))
  }

  /** Agree is equality of the two suffixes. */
  lemma {:induction false} AgreeIsSuffix(t: seq<char>, u: seq<char>, p: nat, p': nat)
    ensures Agree(t, u, p, p') <==> p <= |t| && p' <= |u| && t[p..] == u[p'..]
    decreases |t| - p
  {
    if p < |t| && p' < |u| && |t| - p == |u| - p' {
      AgreeIsSuffix(t, u, p + 1, p' + 1);
      assert t[p..] == [t[p]] + t[p + 1..];
      assert u[p'..] == [u[p']] + u[p' + 1..];
    }
  }

  /** strpbrk for a newline finds it as far on in `u` as in `t`, and what follows agrees. */
  lemma PbrkAgree(t: seq<char>, u: seq<char>, p: nat, p': nat)
    requires ServersPadded(t) && p <= |t| - LINE_SIZE && ServersPadded(u) && p' <= |u| - LINE_SIZE
    requires Agree(t, u, p, p')
    ensures StrPbrk(u, p', NL).None? <==> StrPbrk(t, p, NL).None?
    ensures StrPbrk(t, p, NL).Some? ==>
      Agree(t, u, StrPbrk(t, p, NL).value + 1, StrPbrk(u, p', NL).value + 1)
  {
    AgreeIsSuffix(t, u, p, p');
    StrPbrkShift(t, u, p, p', NL);
    var n := StrPbrk(t, p, NL);
    if n.Some? {
      var q := n.value + 1;
      SuffixShift(t, u, p, p', q - p);
      AgreeIsSuffix(t, u, q, q - p + p');
    }
  }

  /** The rows the loop visits depend only on the text from where it starts. */
  lemma {:induction false} RowLinesShift(t: seq<char>, u: seq<char>, p: nat, p': nat)
    requires ServersPadded(t) && p <= |t| - LINE_SIZE && ServersPadded(u) && p' <= |u| - LINE_SIZE
    requires Agree(t, u, p, p')
    ensures RowLines(t, p) == RowLines(u, p')
    decreases |t| - p, 0
  {
    PbrkAgree(t, u, p, p');
    var n := StrPbrk(t, p, NL);
    if n.None? {
      NoMoreRows(t, p);
      NoMoreRows(u, p');
    } else {
      var q, q' := n.value + 1, StrPbrk(u, p', NL).value + 1;
      RowsFrom(t, p, q - 1);
      RowsFrom(u, p', q' - 1);
      LinesFromShift(t, u, q, q');
    }
  }

  /** The same for the rows from the start of a row on. */
  lemma {:induction false} LinesFromShift(t: seq<char>, u: seq<char>, q: nat, q': nat)
    requires ServersPadded(t) && q <= |t| - LINE_SIZE && ServersPadded(u) && q' <= |u| - LINE_SIZE
    requires Agree(t, u, q, q')
    ensures LinesFrom(t, q) == LinesFrom(u, q')
    decreases |t| - q, 1
  {
    RowShift(t, u, q, q');
    RowLinesShift(t, u, q, q');
  }

  /** The row at `q` in `t` is the one at `q'` in `u` when the two agree from there on. */
  lemma RowShift(t: seq<char>, u: seq<char>, q: nat, q': nat)
    requires ServersPadded(t) && ServersPadded(u) && q <= |t| - LINE_SIZE && q' <= |u| - LINE_SIZE
    requires Agree(t, u, q, q')
    ensures Row(t, q) == Row(u, q')
  {
    AgreeIsSuffix(t, u, q, q');
    assert t[q .. q + LINE_SIZE - 1] == t[q..][..LINE_SIZE - 1] == u[q'..][..LINE_SIZE - 1]
      == u[q' .. q' + LINE_SIZE - 1];
    RowEndShift(t, u, q, q', q);
    var e := RowEnd(t, q, q);
    assert Row(t, q) == t[q..][..e - q];
    assert Row(u, q') == u[q'..][..e - q];
  }

  /** The first line of the server list only describes the columns: whatever it holds, as
      long as it has no newline and no NUL, the reader does the same. */
  lemma ServerHeaderIgnored(h: seq<char>, h': seq<char>, rest: seq<char>, fd: int, tb: Table)
    requires NoNul(h) && '\n' !in h && NoNul(h') && '\n' !in h' && TableShape(tb)
    ensures ReadServers(ProcFile(true, fd, true, h + "\n" + rest), tb)
         == ReadServers(ProcFile(true, fd, true, h' + "\n" + rest), tb)
  {
    if fd >= 0 {
      var t, u := ServersBuffer(h + "\n" + rest), ServersBuffer(h' + "\n" + rest);
      HeaderEnd(h, rest);
      HeaderEnd(h', rest);
      AgreeIsSuffix(t, u, |h|, |h'|);
      RowLinesShift(t, u, |h|, |h'|);
    }
  }

  /** strpbrk(buf, "\n") on a server list finds the newline that ends the header `h`; the
      buffer from there on does not depend on `h`. */
  lemma HeaderEnd(h: seq<char>, rest: seq<char>)
    requires NoNul(h) && '\n' !in h
    ensures var t := ServersBuffer(h + "\n" + rest);
      && StrPbrk(t, 0, NL) == Some(|h|) && |h| <= |t| - LINE_SIZE
      && t[|h|..] == "\n" + rest + Nuls(LINE_SIZE)
  {
    var t := ServersBuffer(h + "\n" + rest);
    assert t == h + ("\n" + rest + Nuls(LINE_SIZE));
    assert t[|h|] == '\n';
    SpanEndIs(t, 0, |h|, NL);
  }

  /** A server list that ends with a newline, as the kernel writes it, is never read
      successfully: after the last newline the row copy finds only NULs, so the last row
      has no `v` word and the reader returns -1, or stops at the store past a full table. */
  lemma NewlineEndedListFails(data: seq<char>, fd: int, tb: Table)
    requires NoNul(data) && |data| > 0 && data[|data| - 1] == '\n' && fd >= 0 && TableShape(tb)
    ensures ReadServers(ProcFile(true, fd, true, data), tb).0 != Returned(0)
  {
    var t := ServersBuffer(data);
    var m := |data| - 1;
    assert t[m] == '\n';
    assert t[0..m] == data[..m];
    var j := NextNewline(t, 0, m);
    assert t[j .. |t| - LINE_SIZE] == data[j..];
    LastRowFails(t, j, tb);
  }

  /** The row loop from `p`, when the only NUL-free stretch of `t` reaches the newline just
      before the padding, ends with something other than 0. */
  lemma LastRowFails(t: seq<char>, p: nat, tb: Table)
    requires ServersPadded(t) && 0 < |t| - LINE_SIZE && p < |t| - LINE_SIZE && TableShape(tb)
    requires t[|t| - LINE_SIZE - 1] == '\n' && NUL !in t[p .. |t| - LINE_SIZE]
    ensures ServerRows(t, p, tb).0 != Returned(0)
  {
    LastRowEmpty(t, p);
    ApplyRowsLastFails(RowLines(t, p), tb);
  }

  /** The last row the loop visits then starts with the terminator: the row copy after the
      last newline finds only NULs. */
  lemma {:induction false} LastRowEmpty(t: seq<char>, p: nat)
    requires ServersPadded(t) && 0 < |t| - LINE_SIZE && p < |t| - LINE_SIZE
    requires t[|t| - LINE_SIZE - 1] == '\n' && NUL !in t[p .. |t| - LINE_SIZE]
    ensures var ls := RowLines(t, p); ls != [] && ls[|ls| - 1][0] == NUL
    decreases |t| - p
  {
    var m := |t| - LINE_SIZE - 1;
    assert t[p..m] == t[p .. |t| - LINE_SIZE][..m - p];
    var j := NextNewline(t, p, m);
    NextRow(t, p, j);
    if j == m {
      var q := |t| - LINE_SIZE;
      assert RowEnd(t, q, q) != q by {
        assert t[q] == NUL;
      }
      var row := Row(t, q);
      assert LineBuffer(row)[0] == row[0] == t[q] == NUL;
      NoMoreRows(t, q);
    } else {
      assert t[j + 1 .. |t| - LINE_SIZE] == t[p .. |t| - LINE_SIZE][j + 1 - p..];
      LastRowEmpty(t, j + 1);
      var ls := RowLines(t, p);
      assert ls[1..][|ls| - 2] == ls[|ls| - 1];
    }
  }

  /** Rows ending with one that starts with the terminator never all end with 0: that row
      has no first word. */
  lemma {:induction false} ApplyRowsLastFails(ls: seq<seq<char>>, tb: Table)
    requires (forall k :: 0 <= k < |ls| ==> Terminated(ls[k])) && TableShape(tb)
    requires ls != [] && |ls[|ls| - 1]| > 0 && ls[|ls| - 1][0] == NUL
    ensures ApplyRows(ls, tb).0 != Returned(0)
    decreases |ls|
  {
    if |ls| == 1 {
      RowAtNulFails(ls[0], tb);
    } else {
      var rest := ls[1..];
      assert rest[|rest| - 1] == ls[|ls| - 1];
      var step := RowText(ls[0], tb);
      if step.0 == Returned(0) {
        ApplyRowsLastFails(rest, step.1);
      }
    }
  }

  /** A row that starts with the terminator has no first word: -1, the table unchanged. */
  lemma RowAtNulFails(l: seq<char>, tb: Table)
    requires Terminated(l) && l[0] == NUL && TableShape(tb)
    ensures RowText(l, tb) == (Returned(-1), tb)
  {
  }

  /** strpbrk(p, "\n") finds a newline at or before `m` when there is one at `m` and no NUL
      before it. */
  lemma NextNewline(t: seq<char>, p: nat, m: nat) returns (j: nat)
    requires Terminated(t) && p <= m < |t| && t[m] == '\n' && NUL !in t[p..m]
    ensures StrPbrk(t, p, NL) == Some(j) && j <= m
  {
    j := SpanEnd(t, p, NL);
    if j < m {
      assert t[j] == t[p..m][j - p];
    }
  }


  // ---------------------------------------------------------------------------------------
  // The mount table

  /** The type's strtok depends only on the text from where it resumes. */
  lemma MountKindShift(t: seq<char>, u: seq<char>, i: nat, j: nat, p: seq<char>)
    requires Terminated(t) && Terminated(u) && i < |t| && j < |u| && t[i..] == u[j..]
    ensures var a, b := MountKind(t, i, p), MountKind(u, j, p);
      a.point == b.point && b.next - j == a.next - i && t[a.next..] == u[b.next..]
  {
    StrtokShift(t, u, i, j, SP);
  }

  /** So does the mount point's. */
  lemma MountPointShift(t: seq<char>, u: seq<char>, i: nat, j: nat)
    requires Terminated(t) && Terminated(u) && i < |t| && j < |u| && t[i..] == u[j..]
    ensures var a, b := MountPoint(t, i), MountPoint(u, j);
      a.point == b.point && b.next - j == a.next - i && t[a.next..] == u[b.next..]
  {
    StrtokShift(t, u, i, j, SP);
    var a, b := Strtok(t, i, SP), Strtok(u, j, SP);
    if a.tok.Some? {
      MountKindShift(t, u, a.next, b.next, TokText(t, a.tok.value));
    }
  }

  /** And so do the three strtok calls of a pass. */
  lemma MountFieldsShift(t: seq<char>, u: seq<char>, i: nat, j: nat)
    requires Terminated(t) && Terminated(u) && i < |t| && j < |u| && t[i..] == u[j..]
    ensures var a, b := MountFields(t, i), MountFields(u, j);
      a.point == b.point && b.next - j == a.next - i && t[a.next..] == u[b.next..]
  {
    StrtokShift(t, u, i, j, SP);
    MountPointShift(t, u, Strtok(t, i, SP).next, Strtok(u, j, SP).next);
  }

  /** The mount loop depends only on the text from where its line strtok resumes. */
  lemma {:induction false} MountRowsShift(t: seq<char>, u: seq<char>, at: nat, at': nat, mnt: nat, mp: seq<char>)
    requires Terminated(t) && Terminated(u) && at < |t| && at' < |u| && t[at..] == u[at'..]
    requires mnt <= MAX_NFS_STATS && PointsShape(mp)
    ensures MountRows(t, at, mnt, mp) == MountRows(u, at', mnt, mp)
    decreases |t| - at, 1
  {
    StrtokShift(t, u, at, at', NL);
    if Strtok(t, at, NL).tok.Some? && mnt < MAX_NFS_STATS {
      MountRowsRest(t, u, at, at', mnt, mp);
    }
  }

  /** The mount loop after a line strtok that found a line in both texts, the texts agreeing
      from where the line strtok left off. */
  lemma {:induction false} MountRowsRest(t: seq<char>, u: seq<char>, at: nat, at': nat, mnt: nat, mp: seq<char>)
    requires Terminated(t) && Terminated(u) && at < |t| && at' < |u|
    requires mnt < MAX_NFS_STATS && PointsShape(mp)
    requires Strtok(t, at, NL).tok.Some? && Strtok(u, at', NL).tok.Some?
    requires t[Strtok(t, at, NL).next..] == u[Strtok(u, at', NL).next..]
    ensures MountRows(t, at, mnt, mp) == MountRows(u, at', mnt, mp)
    decreases |t| - at, 0
  {
    var i, j := Strtok(t, at, NL).next, Strtok(u, at', NL).next;
    MountFieldsShift(t, u, i, j);
    var m, m' := MountFields(t, i), MountFields(u, j);
    var mnt', mp' := MountNext(t, at, mnt, mp);
    var mnt'', mp'' := MountNext(u, at', mnt, mp);
    MountRowsShift(t, u, m.next, m'.next, mnt', mp');
  }

  /** One pass of the mount loop after a line strtok that found a line: the loop goes on
      from where the pass left strtok, with a mount point more when the pass kept one. */
  lemma MountNext(t: seq<char>, at: nat, mnt: nat, mp: seq<char>) returns (mnt': nat, mp': seq<char>)
    requires Terminated(t) && at < |t| && mnt < MAX_NFS_STATS && PointsShape(mp)
    requires Strtok(t, at, NL).tok.Some?
    ensures var m := MountFields(t, Strtok(t, at, NL).next);
      && mnt' == (if m.point.None? then mnt else mnt + 1) && mnt' <= MAX_NFS_STATS && PointsShape(mp')
      && mp' == (if m.point.None? then mp
                 else WriteSlot(mp, mnt, MOUNTPOINT_MAX, BoundedCopy(m.point.value, MOUNTPOINT_MAX)))
      && MountRows(t, at, mnt, mp) == MountRows(t, m.next, mnt', mp')
  {
    var m := MountFields(t, Strtok(t, at, NL).next);
    if m.point.None? {
      mnt', mp' := mnt, mp;
    } else {
      var v := BoundedCopy(m.point.value, MOUNTPOINT_MAX);
      BoundedCopyTruncates(m.point.value, MOUNTPOINT_MAX);
      WriteSlotTerminated(mp, mnt, MOUNTPOINT_MAX, v);
      mnt', mp' := mnt + 1, WriteSlot(mp, mnt, MOUNTPOINT_MAX, v);
    }
  }

  /** strtok(buf, "\n") consumes the first row of the mount table, and the device strtok
      that follows resumes after it: whatever the first row holds, as long as it is not
      empty and has no newline and no NUL, the mount reader does the same. */
  lemma FirstMountRowIgnored(l: seq<char>, l': seq<char>, rest: seq<char>, fd: int, mp: seq<char>)
    requires l != [] && NoNul(l) && '\n' !in l && l' != [] && NoNul(l') && '\n' !in l'
    requires PointsShape(mp)
    ensures ReadMounts(ProcFile(true, fd, true, l + "\n" + rest), mp)
         == ReadMounts(ProcFile(true, fd, true, l' + "\n" + rest), mp)
  {
    if fd >= 0 {
      var t, u := l + "\n" + rest + [NUL], l' + "\n" + rest + [NUL];
      FirstRowToken(l, rest);
      FirstRowToken(l', rest);
      MountRowsRest(t, u, 0, 0, 0, mp);
    }
  }

  /** strtok(buf, "\n") on a mount table whose first row `l` is not empty and has no
      newline and no NUL returns that row and resumes after its newline. */
  lemma FirstRowToken(l: seq<char>, rest: seq<char>)
    requires l != [] && NoNul(l) && '\n' !in l
    ensures var t := l + "\n" + rest + [NUL];
      && Terminated(t) && Strtok(t, 0, NL).tok.Some? && Strtok(t, 0, NL).next == |l| + 1
      && t[|l| + 1..] == rest + [NUL]
  {
    var t := l + "\n" + rest + [NUL];
    assert t == l + ("\n" + rest + [NUL]);
    assert t[0] == l[0] && t[|l|] == '\n';
    SpanEndIs(t, 0, |l|, NL);
  }

  // ---------------------------------------------------------------------------------------
  // The RPC counters

  /** A decimal numeral is a word: no NUL and no space in it. */
  lemma DecimalIsWord(n: nat)
    ensures NoNul(Decimal(n)) && forall k :: 0 <= k < |Decimal(n)| ==> Decimal(n)[k] !in SP
  {
  }

  /** strtok(NULL, " ") at a numeral that ends at a space or at the terminator gives its
      value to atoi. */
  lemma NumberAt(t: seq<char>, i: nat, n: nat)
    requires Terminated(t) && i + |Decimal(n)| < |t| && t[i .. i + |Decimal(n)|] == Decimal(n)
    requires t[i + |Decimal(n)|] == NUL || t[i + |Decimal(n)|] == ' '
    ensures TokValue(t, i) == n
    ensures Strtok(t, i, SP).next == if t[i + |Decimal(n)|] == NUL then i + |Decimal(n)| else i + |Decimal(n)| + 1
  {
    DecimalIsWord(n);
    StrtokWord(t, i, Decimal(n), SP);
    AtoiOfDecimal(n, []);
    assert Decimal(n) + [] == Decimal(n);
  }

  /** Get's counters come from the line after the second: strtok(…, "\n") returns the first
      two lines, and the strtok(NULL, " ") chain resumes after the second, so for a text whose
      third line is a word and two numerals, `calls` and `retrans` are those numerals. */
  lemma RpcReadsThirdLine(l1: seq<char>, l2: seq<char>, w: seq<char>, c: nat, r: nat, rest: seq<char>)
    requires l1 != [] && NoNul(l1) && '\n' !in l1 && l2 != [] && NoNul(l2) && '\n' !in l2
    requires w != [] && NoNul(w) && ' ' !in w && (rest == [] || rest[0] == ' ')
    requires |l1 + "\n" + l2 + "\n" + w + " " + Decimal(c) + " " + Decimal(r) + rest| < LINE_SIZE
    ensures RpcCounters(RpcBuffer(l1 + "\n" + l2 + "\n" + w + " " + Decimal(c) + " " + Decimal(r) + rest))
         == (c, r)
  {
    var t := RpcBuffer(l1 + "\n" + l2 + "\n" + w + " " + Decimal(c) + " " + Decimal(r) + rest);
    RpcLayout(l1, l2, w, Decimal(c), Decimal(r), rest);
    ThirdLine(t, l1, l2, w, c, r);
  }

  /** The counters of a buffer laid out as two lines and a third of a word and two
      numerals. */
  lemma ThirdLine(t: seq<char>, l1: seq<char>, l2: seq<char>, w: seq<char>, c: nat, r: nat)
    requires l1 != [] && NoNul(l1) && '\n' !in l1 && l2 != [] && NoNul(l2) && '\n' !in l2
    requires w != [] && NoNul(w) && ' ' !in w && Terminated(t)
    requires LinesAt(t, l1, l2) && WordsAt(t, |l1| + |l2| + 2, w, Decimal(c), Decimal(r))
    ensures RpcCounters(t) == (c, r)
  {
    WordsAfter(t, |l1| + |l2| + 2, w, c, r);
    TwoLines(t, l1, l2);
  }

  /** `t` starts with the lines `l1` and `l2`, each ended by a newline. */
  predicate LinesAt(t: seq<char>, l1: seq<char>, l2: seq<char>)
  {
    && |l1| + |l2| + 2 < |t|
    && t[0 .. |l1|] == l1 && t[|l1|] == '\n'
    && t[|l1| + 1 .. |l1| + 1 + |l2|] == l2 && t[|l1| + 1 + |l2|] == '\n'
  }

  /** From `b` on, `t` holds the word `w`, a space, the numeral `d1`, a space and the
      numeral `d2`, followed by a space or the terminator. */
  predicate WordsAt(t: seq<char>, b: nat, w: seq<char>, d1: seq<char>, d2: seq<char>)
  {
    var n1 := b + |w| + 1;
    var n2 := n1 + |d1| + 1;
    && n2 + |d2| < |t|
    && t[b .. b + |w|] == w && t[b + |w|] == ' '
    && t[n1 .. n1 + |d1|] == d1 && t[n1 + |d1|] == ' '
    && t[n2 .. n2 + |d2|] == d2
    && (t[n2 + |d2|] == ' ' || t[n2 + |d2|] == NUL)
  }

  /** Where the pieces of the third-line layout lie in Get's buffer. */
  lemma RpcLayout(l1: seq<char>, l2: seq<char>, w: seq<char>, d1: seq<char>, d2: seq<char>,
                  rest: seq<char>)
    requires (rest == [] || rest[0] == ' ')
    requires |l1 + "\n" + l2 + "\n" + w + " " + d1 + " " + d2 + rest| < LINE_SIZE
    ensures var t := RpcBuffer(l1 + "\n" + l2 + "\n" + w + " " + d1 + " " + d2 + rest);
      LinesAt(t, l1, l2) && WordsAt(t, |l1| + |l2| + 2, w, d1, d2)
  {
  }

  /** strtok(buf, "\n") and strtok(NULL, "\n") on two non-empty lines return them; the
      second resumes after the second newline. */
  lemma TwoLines(t: seq<char>, l1: seq<char>, l2: seq<char>)
    requires Terminated(t) && LinesAt(t, l1, l2)
    requires l1 != [] && NoNul(l1) && '\n' !in l1 && l2 != [] && NoNul(l2) && '\n' !in l2
    ensures RpcCounters(t) == RpcFields(Words(t, |l1| + |l2| + 2, 3))
  {
    StrtokWord(t, 0, l1, NL);
    StrtokWord(t, |l1| + 1, l2, NL);
  }

  /** The strtok(NULL, " ") chain of Get on a word and two numerals: their values. */
  lemma WordsAfter(t: seq<char>, b: nat, w: seq<char>, c: nat, r: nat)
    requires Terminated(t) && w != [] && NoNul(w) && ' ' !in w
    requires WordsAt(t, b, w, Decimal(c), Decimal(r))
    ensures RpcFields(Words(t, b, 3)) == (c, r)
  {
    var n1 := b + |w| + 1;
    var n2 := n1 + |Decimal(c)| + 1;
    forall k | 0 <= k < |w|
      ensures w[k] !in SP
    {
      assert w[k] in w;
    }
    StrtokWord(t, b, w, SP);
    assert Strtok(t, b, SP).next == n1;
    NumberAt(t, n1, c);
    assert Strtok(t, n1, SP).next == n2;
    NumberAt(t, n2, r);
    RpcFieldsByToken(t, b);
  }

  /** With no newline before its last character the text has fewer than two lines, and
      `calls` and `retrans` stay 0. */
  lemma RpcNeedsTwoLines(data: seq<char>)
    requires |data| < LINE_SIZE && forall k :: 0 <= k < |data| - 1 ==> data[k] != '\n'
    ensures RpcCounters(RpcBuffer(data)) == (0, 0)
  {
  }
}
