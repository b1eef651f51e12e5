# devIocStats operating-system statistics, modelled in Dafny

This project models three operating-system back ends of the devIocStats module of
iocAdmin:

- **The Linux NFS statistics engine** (`devIocStats/os/Linux/osdNFSErrors.c`).
  - `devIocStatsInitNFSStat` opens the RPC counter file.
  - It then reads the NFS server list into the static table `nfsServers[8]` and counts
    the servers in `numMounts`.
  - It then reads the mount table into the same table's mount points.
  - `devIocStatsGetNFSStat` reads the RPC counters on every poll. It copies the same
    call and retransmit totals into every used slot of the caller's `nfsStatInfo`.
- **The Linux netstat schema resolver** (`devIocStats/os/Linux/osdIPStat.c`).
  - `devIocStatsInitIPStat` scans `/proc/net/netstat` for the `TcpExt: ` and `IpExt: `
    lines.
  - It stores token indices into the `offset` column of the twelve-entry table
    `linuxNetStats`.
  - `devIocStatsGetIPStat` is a stub.
- **The RTEMS IP statistics accessor** (`devIocStats/os/RTEMS/osdIPStat.c`). It is a
  fixed mapping from the kernel's `udpstat`, `tcpstat` and `ipstat` counters into an
  `ipStatInfo`. Several of that record's fields are wrapping `unsigned long` sums.

## How it is built

The model follows the C code as written, quirks included.

**C library routines.** The engines call `strtok`, `strpbrk`, `strcmp`, `strncmp`,
`strncpy` and `atoi` (sections 7.24 and 7.22.1.2 of ISO/IEC 9899:2011). Each has two forms:

- a pure definition over the buffer's contents (module `CString`);
- a method over an `array<char>`, proved to compute it (module `CLib`).

`strtok`'s hidden saved pointer is the field `save` of the class `Tokenizer`. Each C
function starts its strtok chain with a non-null first argument, so one `Tokenizer` per
buffer is enough. Two patterns that depend on that shared pointer are modelled exactly:

- in the netstat resolver, the nested `strtok` overwrites the outer loop's position;
- in the mount reader, `strtok(buf, "\n")` is followed by `strtok(NULL, " ")`.

**Linux engines.** Each engine is a class whose fields are the C file's static variables:

- `NfsEngine` holds `nfsStatFd`, `numMounts`, the numeric part of `nfsServers[]`, and the
  `hostname` and `mountpoint` columns;
- `NetStatTable` holds `netStatFd` and `linuxNetStats[].offset`.

Each method is proved equal to a function of the file's text and the old state: `ReadServers`, `ReadMounts`, `RpcCounters` or `ResolveAll`.
The properties are lemmas about those functions.

**Char fields.** A char-array member of a struct array is held as one column of
`8 * size` characters. Entry `i`'s field is `Slot(column, i, size)`.

**Files, kernel counters and the caller.** File-system calls become inputs: `ProcFile`
records whether `stat`, `open` and `read` succeeded and the bytes read, and `Poll` does
the same for Get's `lseek` and `read`. The RTEMS kernel counters are input records.

**The server table's capacity.** The server reader never checks `numMounts` against
`MAX_NFS_STATS`. A ninth well-formed row would store past `nfsServers[7]`. The model stops
at that store and reports the outcome `TableOverrun` instead of writing.

Behaviours of the code as written that the lemmas make explicit:

- The first line of the server list is skipped whatever it holds (`ServerHeaderIgnored`).
- A server list that ends with a newline, as the kernel writes it, is never read
  successfully (`NewlineEndedListFails`). After the last newline the row copy finds an
  empty row, and its missing `v` token makes the reader return -1.
- The first row of the mount table is never examined (`FirstMountRowIgnored`).
  `strtok(buf, "\n")` consumes it, and the following `strtok(NULL, " ")` calls resume
  after it.
- Get's `calls` and `retrans` are the second and third words of the chain that resumes
  after the second line. That is the third line's second and third words
  (`RpcReadsThirdLine`). They are 0 when the text has fewer than two lines
  (`RpcNeedsTwoLines`).
- The netstat header test compares `sizeof("TcpExt: ")` = 9 bytes, terminator included,
  so only a line exactly equal to the header matches (`HeaderTestIsEquality`).
- The resolver compares each name with the C string at `p`, not with the token `s`. That
  string is the first token together with any spaces before it. A matching name therefore
  ends at the last token's index (`ColumnsWrites`).
- The UDP offsets are never resolved (`UdpNeverResolved`).
- `parsedUdp` is never set, so the early `break` never fires (invariant `!parsedUdp` of
  `Init`).

## Model

| member | source | states |
|---|---|---|
| IocStatsTypes.NfsStatInfo.constructor | devIocStats/devIocStats.h:92-111 | an `nfsStatInfo` whose every entry holds the given counters and characters, with `mounts[]` held as a counter array plus the `mount[128]` and `ip[32]` columns |
| IocStatsTypes.OffsetIsProduct | devIocStats/os/Linux/osdNFSErrors.c:18-24 | the start of slot `i` of a column of `width`-character fields is `i * width` |
| IocStatsTypes.SlotsApart | devIocStats/os/Linux/osdNFSErrors.c:18-24 | slot `i` ends at or before slot `j` starts whenever `i < j`, so entries of a struct array never overlap |
| IocStatsTypes.SlotInside | devIocStats/os/Linux/osdNFSErrors.c:18-24 | each of the MAX_NFS_STATS slots lies inside its column |
| IocStatsTypes.Slot | devIocStats/os/Linux/osdNFSErrors.c:18-24 | an entry's char field is exactly `width` characters |
| CString.Nuls | devIocStats/os/Linux/osdNFSErrors.c:149 | `n` characters, all NUL |
| CString.FirstNul | devIocStats/os/Linux/osdNFSErrors.c:94 | the first NUL at or after `i`: a NUL, and no NUL before it |
| CString.CStr | devIocStats/os/Linux/osdNFSErrors.c:94 | the C string at `i` is the NUL-free run of the buffer from `i` up to its terminator |
| CString.CStrFrame | devIocStats/os/Linux/osdNFSErrors.c:100-115 | a C string depends only on the buffer from its start to its terminator |
| CString.FirstNulIs | devIocStats/os/Linux/osdNFSErrors.c:94 | a NUL with no NUL before it is the first NUL |
| CString.CStrIs | devIocStats/os/Linux/osdNFSErrors.c:94 | a NUL-free run followed by a NUL is the C string there |
| CString.CStrNext | devIocStats/os/Linux/osdNFSErrors.c:95 | `val + 1` is the C string at `val` without its first character when that is not NUL |
| CString.SkipDelims | devIocStats/os/Linux/osdNFSErrors.c:94 | strtok's first step stops at the first non-delimiter, passing only delimiters |
| CString.SpanEnd | devIocStats/os/Linux/osdNFSErrors.c:73 | the first NUL or delimiter at or after `i`, with every character before it neither |
| CString.Strtok | devIocStats/os/Linux/osdNFSErrors.c:94-120 | strtok (section 7.24.5.8 of ISO/IEC 9899:2011): either there is no token and the saved pointer rests on a NUL, or the token is a non-empty delimiter-free run that ends at a delimiter or NUL, with the saved pointer just past it |
| CString.StrtokSpans | devIocStats/os/Linux/osdNFSErrors.c:94-120 | without a token, strtok passed only delimiters; with one, everything before the token is a delimiter and the token holds no delimiter and no NUL |
| CString.StrtokAtNul | devIocStats/os/Linux/osdNFSErrors.c:100 | strtok resuming at the terminator returns a null pointer and stays there, as every later call does |
| CString.SkipDelimsShift | devIocStats/os/Linux/osdNFSErrors.c:155-163 | where strtok's delimiter skip stops depends only on the text from where it starts |
| CString.SpanEndShift | devIocStats/os/Linux/osdNFSErrors.c:155-163 | where a token ends depends only on the text from where the scan starts |
| CString.SpanEndIs | devIocStats/os/Linux/osdNFSErrors.c:73 | the scan stops at the first NUL or delimiter |
| CString.StrtokShift | devIocStats/os/Linux/osdNFSErrors.c:155-163 | a strtok step on two buffers that agree from where it resumes gives the same token text and moves the same distance |
| CString.TokenShift | devIocStats/os/Linux/osdNFSErrors.c:155-163 | the token strtok finds from a non-delimiter is the same in two buffers that agree from there on |
| CString.StrPbrkShift | devIocStats/os/Linux/osdNFSErrors.c:82 | strpbrk finds a character as far on in two buffers that agree from where it starts, or in neither |
| CString.StrtokWord | devIocStats/os/Linux/osdNFSErrors.c:204-207 | strtok at the start of a word that ends at a delimiter or NUL returns that word and resumes after it |
| CString.StrPbrk | devIocStats/os/Linux/osdNFSErrors.c:73 | strpbrk (section 7.24.5.4 of ISO/IEC 9899:2011): either the first character of the C string in the accept set, or none and no such character |
| CString.StrCmp | devIocStats/os/Linux/osdNFSErrors.c:162 | strcmp (section 7.24.4.2 of ISO/IEC 9899:2011) is 0 exactly when the two strings are equal |
| CString.StrNCmp | devIocStats/os/Linux/osdIPStat.c:107-120 | strncmp (section 7.24.4.4 of ISO/IEC 9899:2011) is 0 exactly when the two strings are equal or their first `n` characters are |
| CString.StrNCmpBeyondLength | devIocStats/os/Linux/osdIPStat.c:107 | strncmp with a count past the literal's length is 0 exactly when the strings are equal |
| CString.StrNCmpWithinLength | devIocStats/os/Linux/osdIPStat.c:107 | strncmp with a count within the literal's length is 0 exactly when the first `n` characters agree |
| CString.StrNCpy | devIocStats/os/Linux/osdNFSErrors.c:116 | strncpy (section 7.24.2.4 of ISO/IEC 9899:2011) writes exactly `n` characters: the string's, then NULs |
| CString.BoundedCopy | devIocStats/os/Linux/osdNFSErrors.c:116-117 | strncpy into an `n`-character field followed by a NUL in its last character gives a terminated field of `n` characters |
| CString.BoundedCopyTruncates | devIocStats/os/Linux/osdNFSErrors.c:116-117 | that field holds the string cut to `n - 1` characters |
| CString.DecimalValueStep | devIocStats/os/Linux/osdNFSErrors.c:104 | one more digit multiplies the value by ten and adds the digit |
| CString.SkipSpaces | devIocStats/os/Linux/osdNFSErrors.c:104 | atoi's leading white space: the first non-space, with only spaces before it |
| CString.DigitRun | devIocStats/os/Linux/osdNFSErrors.c:104 | atoi's digit run: all digits, ending at a non-digit or the end |
| CString.DigitsStart | devIocStats/os/Linux/osdNFSErrors.c:104 | where atoi's digits begin lies inside the string |
| CString.Decimal | devIocStats/os/Linux/osdNFSErrors.c:205 | the decimal numeral of a number is a non-empty digit string |
| CString.DecimalValueOfDecimal | devIocStats/os/Linux/osdNFSErrors.c:205 | the numeral's value is the number |
| CString.AtoiOfDecimal | devIocStats/os/Linux/osdNFSErrors.c:205 | atoi (section 7.22.1.2 of ISO/IEC 9899:2011) of a numeral followed by a non-digit is the number |
| CString.DigitRunIs | devIocStats/os/Linux/osdNFSErrors.c:104 | a digit run that ends at a non-digit is atoi's digit run |
| CString.Atoi | devIocStats/os/Linux/osdNFSErrors.c:95-110 | atoi (section 7.22.1.2 of ISO/IEC 9899:2011): no digits after the white space and sign give 0, and a negative value needs a leading `-` |
| CLib.StrPbrkAt | devIocStats/os/Linux/osdNFSErrors.c:73 | the strpbrk loop computes StrPbrk |
| CLib.StrCmpAt | devIocStats/os/Linux/osdNFSErrors.c:162 | the strcmp loop computes StrCmp |
| CLib.StrNCmpAt | devIocStats/os/Linux/osdIPStat.c:107 | the strncmp loop computes StrNCmp |
| CLib.AtoiAt | devIocStats/os/Linux/osdNFSErrors.c:95 | the atoi loops compute Atoi: white space, sign, digits |
| CLib.SkipSpacesAt | devIocStats/os/Linux/osdNFSErrors.c:95 | the white-space loop stops where SkipSpaces does |
| CLib.DigitsAt | devIocStats/os/Linux/osdNFSErrors.c:95 | the digit loop accumulates the value of the digit run |
| CLib.StrNCpyAt | devIocStats/os/Linux/osdNFSErrors.c:116 | strncpy writes exactly `StrNCpy` into `n` characters of the destination and nothing else |
| CLib.Tokenizer.constructor | devIocStats/os/Linux/osdNFSErrors.c:94 | a tokenizer bound to a terminated buffer, the saved pointer at its start |
| CLib.Tokenizer.Restart | devIocStats/os/Linux/osdNFSErrors.c:94 | strtok with a non-null first argument: the step Strtok gives, the NUL it writes after the token, the new saved pointer, and the token's C string |
| CLib.Tokenizer.Next | devIocStats/os/Linux/osdNFSErrors.c:100 | strtok(NULL, d): the same as Restart, from the saved pointer |
| CLib.Tokenizer.Bounds | devIocStats/os/Linux/osdNFSErrors.c:100 | strtok's two scans stop where SkipDelims and SpanEnd do |
| CLib.StrtokKeepsCStr | devIocStats/os/Linux/osdNFSErrors.c:159-162 | a strtok step leaves alone every C string that ends before where it resumes, so an earlier token stays readable |
| LinuxNFS.ULong | devIocStats/devIocStats.h:100-101 | an `int` stored in an `unsigned long` field is kept when it is in range, and reduced modulo 2^64 otherwise |
| LinuxNFS.WriteSlot | devIocStats/os/Linux/osdNFSErrors.c:116-117 | storing a field of entry `i` leaves a column whose slot `i` holds the stored characters |
| LinuxNFS.SlotOfWrite | devIocStats/os/Linux/osdNFSErrors.c:116-117 | storing slot `i` changes no other slot |
| LinuxNFS.WriteSlotTerminated | devIocStats/os/Linux/osdNFSErrors.c:116-117 | storing a terminated field keeps the column terminated |
| LinuxNFS.Words | devIocStats/os/Linux/osdNFSErrors.c:94-115 | a chain of at most `n` strtok calls yields at most `n` words |
| LinuxNFS.ServersBuffer | devIocStats/os/Linux/osdNFSErrors.c:66-67 | the server reader's buffer begins with the bytes read |
| LinuxNFS.RowEnd | devIocStats/os/Linux/osdNFSErrors.c:89 | the row copy stops at the first newline or after 511 characters |
| LinuxNFS.Row | devIocStats/os/Linux/osdNFSErrors.c:88-91 | the characters the row copy puts into `line` are fewer than 512 |
| LinuxNFS.LineBuffer | devIocStats/os/Linux/osdNFSErrors.c:83-91 | `line` after the copy and its terminator: 512 characters, terminated, with the row at its start |
| LinuxNFS.RowStep | devIocStats/os/Linux/osdNFSErrors.c:93-122 | a row applied to the table keeps the table's shape; its effect is stated by the lemmas of LinuxNFSProps below |
| LinuxNFS.Partial | devIocStats/os/Linux/osdNFSErrors.c:95-110 | the numeric fields a row provides are stored in entry `numMounts` |
| LinuxNFS.RowServer | devIocStats/os/Linux/osdNFSErrors.c:95-110 | entry `numMounts` gets `ver = atoi(word + 1)`, `port` from the third word and `use` from the fourth, each kept when the row has no such word |
| LinuxNFS.WordsNext | devIocStats/os/Linux/osdNFSErrors.c:100-115 | one more strtok(NULL, " ") either ends the chain or adds its word |
| LinuxNFS.PartialNext | devIocStats/os/Linux/osdNFSErrors.c:103-110 | the third word sets `port` and the fourth `use`, in entry `numMounts` only |
| LinuxNFS.SetServer | devIocStats/os/Linux/osdNFSErrors.c:95 | a numeric store changes entry `numMounts` only |
| LinuxNFS.HostStored | devIocStats/os/Linux/osdNFSErrors.c:115-122 | the hostname copy writes slot `numMounts` with the word cut to 254 characters and counts one more server; the entries are unchanged |
| LinuxNFS.HostStoredSlots | devIocStats/os/Linux/osdNFSErrors.c:115-117 | after the hostname copy, slot `numMounts` reads as the word cut to 254 characters and every other slot is as it was |
| LinuxNFS.RowText | devIocStats/os/Linux/osdNFSErrors.c:93-122 | the row walked word by word, from strtok(line, " ") on, keeps the table's shape |
| LinuxNFS.FieldsFrom | devIocStats/os/Linux/osdNFSErrors.c:93-122 | the last `n` strtok calls of a row keep the table's shape |
| LinuxNFS.HostField | devIocStats/os/Linux/osdNFSErrors.c:115-122 | the hostname strtok: no word is -1 with the table unchanged; a word is 0 with the hostname stored |
| LinuxNFS.RowTextIsRowStep | devIocStats/os/Linux/osdNFSErrors.c:93-122 | the C walk of a row is RowStep applied to the row's first five words |
| LinuxNFS.FieldsFromWords | devIocStats/os/Linux/osdNFSErrors.c:99-122 | after a version word, the remaining walk is RowStep on the words strtok goes on to find |
| LinuxNFS.RowLines | devIocStats/os/Linux/osdNFSErrors.c:82-91 | every row the loop copies into `line` is terminated |
| LinuxNFS.LinesFrom | devIocStats/os/Linux/osdNFSErrors.c:82-91 | the same, from the start of a row |
| LinuxNFS.ApplyRows | devIocStats/os/Linux/osdNFSErrors.c:82-123 | the row loop over a list of rows keeps the table's shape |
| LinuxNFS.RowThen | devIocStats/os/Linux/osdNFSErrors.c:82-123 | one row, then the rest if it ended with 0, keeps the table's shape |
| LinuxNFS.ServerRows | devIocStats/os/Linux/osdNFSErrors.c:82-126 | the row loop from `p` keeps the table's shape |
| LinuxNFS.RowsFrom | devIocStats/os/Linux/osdNFSErrors.c:82-85 | the rows from `p` are those from just after the newline strpbrk finds |
| LinuxNFS.NextRow | devIocStats/os/Linux/osdNFSErrors.c:82-91 | one turn of the loop: its first row is the copy of the text after the newline, and the rest are the rows from there |
| LinuxNFS.RowsStep | devIocStats/os/Linux/osdNFSErrors.c:82-123 | after one row the loop goes on from the next row if that row ended with 0, and otherwise ends with the row's outcome |
| LinuxNFS.NoMoreRows | devIocStats/os/Linux/osdNFSErrors.c:82 | without another newline the loop visits no row |
| LinuxNFS.ReadServers | devIocStats/os/Linux/osdNFSErrors.c:55-131 | the server reader keeps the table's shape; its outcomes are stated by NfsEngine.ReadNfsServers and the lemmas below |
| LinuxNFS.MountFields | devIocStats/os/Linux/osdNFSErrors.c:156-163 | one pass of the mount loop moves strtok forward, and a mount point it keeps holds no NUL |
| LinuxNFS.MountPoint | devIocStats/os/Linux/osdNFSErrors.c:159-169 | the same, from the mount point's strtok |
| LinuxNFS.MountKind | devIocStats/os/Linux/osdNFSErrors.c:161-163 | the type check moves strtok forward and, when it keeps a mount point, keeps it unchanged |
| LinuxNFS.MountRows | devIocStats/os/Linux/osdNFSErrors.c:154-172 | the number of mount points stored only grows and never passes MAX_NFS_STATS, and the column stays terminated |
| LinuxNFS.MountRowsStep | devIocStats/os/Linux/osdNFSErrors.c:155-171 | a pass that keeps no mount point leaves `mnt` and the column; one that keeps it stores it, cut to 254 characters, in slot `mnt` and counts it |
| LinuxNFS.ReadMounts | devIocStats/os/Linux/osdNFSErrors.c:134-180 | the mount reader keeps the mount point column's shape |
| LinuxNFS.RpcBuffer | devIocStats/os/Linux/osdNFSErrors.c:192-193 | Get's buffer: 512 characters, terminated |
| LinuxNFS.RpcCounters | devIocStats/os/Linux/osdNFSErrors.c:197-208 | `calls` and `retrans` are 0 when strtok(NULL, "\n") finds no second line; otherwise they are the values of the second and third strtok(NULL, " ") calls after it |
| LinuxNFS.RpcFields | devIocStats/os/Linux/osdNFSErrors.c:202-207 | of the chain's words the first is skipped; the second gives `calls` and the third `retrans`, each 0 when missing |
| LinuxNFS.TokValue | devIocStats/os/Linux/osdNFSErrors.c:204-207 | atoi of the word strtok(NULL, " ") returns, or 0 when it returns a null pointer; at the terminator it is 0 |
| LinuxNFS.RpcFieldsByToken | devIocStats/os/Linux/osdNFSErrors.c:202-207 | `calls` and `retrans` are the values of the second and third strtok calls, or 0 where they return a null pointer, whether or not the first finds a word |
| LinuxNFS.Polled | devIocStats/os/Linux/osdNFSErrors.c:214-223 | a polled entry keeps its `port`, has `gid`, `liveNodes`, `uid`, `retryPeriodMS`, `rpcTimeouts` and `rpcErrors` 0, and `rpcRequests` and `rpcRetries` equal to `calls` and `retrans` converted to `unsigned long` (unchanged when in range) |
| LinuxNFS.Filled | devIocStats/os/Linux/osdNFSErrors.c:210-233 | a column with its first `n` slots replaced keeps its shape |
| LinuxNFS.FilledSlot | devIocStats/os/Linux/osdNFSErrors.c:210-233 | slot `j` of that column is the new value below `n` and the old one from `n` on |
| LinuxNFS.Copies | devIocStats/os/Linux/osdNFSErrors.c:227-231 | the bounded copies of every slot of a source column, each of the destination's width |
| LinuxNFS.Resolved | devIocStats/os/Linux/osdNFSErrors.c:226-232 | the `ip` or `mount` column after the loop keeps its shape |
| LinuxNFS.ResolvedSlot | devIocStats/os/Linux/osdNFSErrors.c:226-232 | slot `j` of that column is the source entry's C string cut to fit when `j < numMounts`, and unchanged otherwise |
| LinuxNFS.ResolvedNext | devIocStats/os/Linux/osdNFSErrors.c:226-232 | one more turn of the loop stores one more slot |
| LinuxNFS.CopyField | devIocStats/os/Linux/osdNFSErrors.c:116-117 | strncpy into a slot and a NUL in its last character store the bounded copy in that slot and change nothing else |
| LinuxNFS.NfsEngine.Servers | devIocStats/os/Linux/osdNFSErrors.c:18-26 | the server reader's state is a table of the right shape |
| LinuxNFS.NfsEngine.constructor | devIocStats/os/Linux/osdNFSErrors.c:16-26 | static initialisation: `nfsStatFd` is -1, `numMounts` 0, and every field zero |
| LinuxNFS.NfsEngine.Init | devIocStats/os/Linux/osdNFSErrors.c:31-52 | no RPC file is 0 and no change; an open failure is -1 with `nfsStatFd` set to it; otherwise the server reader's table, then -1 if it failed, or the mount reader's column and -1 exactly when it failed |
| LinuxNFS.NfsEngine.ReadNfsServers | devIocStats/os/Linux/osdNFSErrors.c:55-131 | computes ReadServers on the file and the old table |
| LinuxNFS.NfsEngine.ServerLoop | devIocStats/os/Linux/osdNFSErrors.c:82-126 | the while loop computes ServerRows |
| LinuxNFS.NfsEngine.RowTurn | devIocStats/os/Linux/osdNFSErrors.c:83-123 | one turn of the loop is one step of ServerRows |
| LinuxNFS.NfsEngine.ServerRow | devIocStats/os/Linux/osdNFSErrors.c:93-122 | one row computes RowText on the copied line |
| LinuxNFS.NfsEngine.ServerVersion | devIocStats/os/Linux/osdNFSErrors.c:94-97 | the version test and store, then the rest of the row, compute RowText |
| LinuxNFS.NfsEngine.ServerName | devIocStats/os/Linux/osdNFSErrors.c:99-100 | the ignored name, then the rest, compute FieldsFrom with four calls left |
| LinuxNFS.NfsEngine.ServerPort | devIocStats/os/Linux/osdNFSErrors.c:102-106 | the port, then the rest, compute FieldsFrom with three calls left |
| LinuxNFS.NfsEngine.ServerUse | devIocStats/os/Linux/osdNFSErrors.c:108-112 | the use count, then the rest, compute FieldsFrom with two calls left |
| LinuxNFS.NfsEngine.ServerHost | devIocStats/os/Linux/osdNFSErrors.c:114-122 | the hostname computes FieldsFrom with one call left |
| LinuxNFS.NfsEngine.StoreHost | devIocStats/os/Linux/osdNFSErrors.c:116-122 | the hostname copy and `numMounts++` give HostStored |
| LinuxNFS.NfsEngine.Store | devIocStats/os/Linux/osdNFSErrors.c:95 | a numeric store writes entry `numMounts` only |
| LinuxNFS.NfsEngine.CopyRow | devIocStats/os/Linux/osdNFSErrors.c:83-91 | the copy loop fills the new `line` with LineBuffer of the row |
| LinuxNFS.NfsEngine.IsNfsType | devIocStats/os/Linux/osdNFSErrors.c:162 | the type test holds exactly when the type is "nfs4" or "nfs" |
| LinuxNFS.NfsEngine.ReadNfsMounts | devIocStats/os/Linux/osdNFSErrors.c:134-180 | computes ReadMounts on the file and the old column; it changes nothing but the mount points, so never `numMounts` |
| LinuxNFS.NfsEngine.MountLoop | devIocStats/os/Linux/osdNFSErrors.c:154-172 | the for loop computes MountRows from the start of the buffer |
| LinuxNFS.NfsEngine.MountPass | devIocStats/os/Linux/osdNFSErrors.c:155-171 | one pass and the next line strtok are one step of MountRows |
| LinuxNFS.NfsEngine.MountRow | devIocStats/os/Linux/osdNFSErrors.c:156-170 | a pass's strtok calls move as MountFields does and store the mount point it keeps in slot `mnt` |
| LinuxNFS.NfsEngine.MountPointField | devIocStats/os/Linux/osdNFSErrors.c:159-169 | the same, from the mount point's strtok |
| LinuxNFS.NfsEngine.MountKindField | devIocStats/os/Linux/osdNFSErrors.c:161-166 | the type check and the copy: the mount point is stored unless the type exists and is neither "nfs4" nor "nfs" |
| LinuxNFS.NfsEngine.Get | devIocStats/os/Linux/osdNFSErrors.c:182-238 | without a descriptor, 0; a failed lseek or read, -1; in both cases nothing of `p` changes, `p->numMounts` included; otherwise 0, every slot below `numMounts` gets the RPC totals and zeros with `port` kept, the `ip` and `mount` columns are resolved only when `resolve_mounts` is nonzero, slots from `numMounts` on are untouched, and `p->numMounts` is `numMounts` |
| LinuxNFS.NfsEngine.ParseRpc | devIocStats/os/Linux/osdNFSErrors.c:197-208 | the strtok and atoi calls compute RpcCounters on the buffer read |
| LinuxNFS.NfsEngine.RpcWords | devIocStats/os/Linux/osdNFSErrors.c:202-207 | the three strtok(NULL, " ") calls compute RpcFields of the chain's words |
| LinuxNFS.NfsEngine.RpcCalls | devIocStats/os/Linux/osdNFSErrors.c:204-207 | `calls` and `retrans` are the atoi of the next two words, or 0 where there are none |
| LinuxNFS.NfsEngine.FillMounts | devIocStats/os/Linux/osdNFSErrors.c:210-233 | the for loop writes Polled into every slot below `numMounts` and no other, and resolves the `ip` and `mount` columns when asked |
| LinuxNFS.NfsEngine.FillEntry | devIocStats/os/Linux/osdNFSErrors.c:211-232 | one slot: its counters become Polled, and, when asked, its `ip` gets the hostname cut to 31 characters and its `mount` gets the mount point cut to 127 |
| LinuxNFSProps.RowStepAccepts | devIocStats/os/Linux/osdNFSErrors.c:93-122 | a row ends with 0 exactly when it has five words, the first starting with `v`, and the table has room; it is the overrun exactly when such a first word meets a full table; the only other outcome is -1, which leaves the count and hostnames |
| LinuxNFSProps.RowStepComplete | devIocStats/os/Linux/osdNFSErrors.c:93-122 | a complete row fills entry `numMounts` with `atoi(word + 1)`, the port and the use count, stores the hostname cut to 254 characters, counts one more server, and changes no other hostname |
| LinuxNFSProps.RowStepFrame | devIocStats/os/Linux/osdNFSErrors.c:93-122 | a row touches entry `numMounts` only, and its hostname only when it is accepted |
| LinuxNFSProps.ApplyRowsKeeps | devIocStats/os/Linux/osdNFSErrors.c:82-130 | the loop only adds servers: it keeps what was stored below the old count and what lies past the new one; a failing row keeps what its earlier rows stored; the outcome is 0, -1 or the overrun of a full table |
| LinuxNFSProps.RowTextFrame | devIocStats/os/Linux/osdNFSErrors.c:93-122 | the C walk of a row keeps RowStep's frame |
| LinuxNFSProps.RowEndShift | devIocStats/os/Linux/osdNFSErrors.c:89 | where the row copy stops depends only on the row's 511 characters |
| LinuxNFSProps.AgreeIsSuffix | devIocStats/os/Linux/osdNFSErrors.c:82 | two buffers agree from two positions on exactly when their suffixes from there are equal |
| LinuxNFSProps.PbrkAgree | devIocStats/os/Linux/osdNFSErrors.c:82 | strpbrk finds the next newline in both agreeing buffers or in neither, and they agree after it |
| LinuxNFSProps.RowLinesShift | devIocStats/os/Linux/osdNFSErrors.c:82-91 | the rows the loop visits depend only on the text from where it starts |
| LinuxNFSProps.LinesFromShift | devIocStats/os/Linux/osdNFSErrors.c:82-91 | the same, from the start of a row |
| LinuxNFSProps.RowShift | devIocStats/os/Linux/osdNFSErrors.c:88-91 | a row's copy depends only on the text from its start |
| LinuxNFSProps.ServerHeaderIgnored | devIocStats/os/Linux/osdNFSErrors.c:72-82 | the first line of the server list, whatever it holds without a newline or NUL, does not change what the reader does |
| LinuxNFSProps.HeaderEnd | devIocStats/os/Linux/osdNFSErrors.c:73 | the first strpbrk finds the newline that ends the header line |
| LinuxNFSProps.NewlineEndedListFails | devIocStats/os/Linux/osdNFSErrors.c:82-97 | a server list whose last character is a newline never ends with 0 |
| LinuxNFSProps.LastRowFails | devIocStats/os/Linux/osdNFSErrors.c:82-97 | the loop over such a text never ends with 0 |
| LinuxNFSProps.LastRowEmpty | devIocStats/os/Linux/osdNFSErrors.c:82-91 | after the last newline the loop still copies a row, and that row is empty |
| LinuxNFSProps.ApplyRowsLastFails | devIocStats/os/Linux/osdNFSErrors.c:82-123 | a list of rows whose last is empty never ends with 0 |
| LinuxNFSProps.RowAtNulFails | devIocStats/os/Linux/osdNFSErrors.c:94-97 | an empty row is -1 with the table unchanged |
| LinuxNFSProps.NextNewline | devIocStats/os/Linux/osdNFSErrors.c:82 | strpbrk finds a newline at or before any newline with no NUL before it |
| LinuxNFSProps.MountKindShift | devIocStats/os/Linux/osdNFSErrors.c:161-163 | the type check depends only on the text from where it resumes |
| LinuxNFSProps.MountPointShift | devIocStats/os/Linux/osdNFSErrors.c:159-163 | so does the mount point's strtok |
| LinuxNFSProps.MountFieldsShift | devIocStats/os/Linux/osdNFSErrors.c:156-163 | so does a whole pass |
| LinuxNFSProps.MountRowsShift | devIocStats/os/Linux/osdNFSErrors.c:154-172 | the mount loop depends only on the text from where its line strtok resumes |
| LinuxNFSProps.MountRowsRest | devIocStats/os/Linux/osdNFSErrors.c:155-156 | two texts whose first line strtok finds a line, and which agree after it, give the same loop |
| LinuxNFSProps.MountNext | devIocStats/os/Linux/osdNFSErrors.c:155-171 | one pass keeps a mount point exactly when MountFields does, stores it cut to 254 characters in slot `mnt`, and the loop goes on from there |
| LinuxNFSProps.FirstMountRowIgnored | devIocStats/os/Linux/osdNFSErrors.c:155-162 | the first row of the mount table, whatever it holds, does not change what the reader does |
| LinuxNFSProps.FirstRowToken | devIocStats/os/Linux/osdNFSErrors.c:155 | strtok(buf, "\n") returns the first row and resumes after its newline |
| LinuxNFSProps.DecimalIsWord | devIocStats/os/Linux/osdNFSErrors.c:204-207 | a numeral holds no NUL and no space |
| LinuxNFSProps.NumberAt | devIocStats/os/Linux/osdNFSErrors.c:204-207 | strtok at a numeral and its atoi give the number and resume after it |
| LinuxNFSProps.RpcReadsThirdLine | devIocStats/os/Linux/osdNFSErrors.c:197-208 | for a text of two lines and a third line `w c r …`, Get's counters are `(c, r)` |
| LinuxNFSProps.ThirdLine | devIocStats/os/Linux/osdNFSErrors.c:200-207 | the same, stated on the buffer's layout |
| LinuxNFSProps.RpcLayout | devIocStats/os/Linux/osdNFSErrors.c:192-193 | Get's buffer for such a text has that layout |
| LinuxNFSProps.TwoLines | devIocStats/os/Linux/osdNFSErrors.c:200-202 | with two lines at the start, the counters are those of the word chain after the second newline |
| LinuxNFSProps.WordsAfter | devIocStats/os/Linux/osdNFSErrors.c:202-207 | that chain skips the first word and reads the next two numbers |
| LinuxNFSProps.RpcNeedsTwoLines | devIocStats/os/Linux/osdNFSErrors.c:197-201 | a text with no newline before its last character leaves `calls` and `retrans` 0 |
| LinuxIPStat.NamesAreCStrings | devIocStats/os/Linux/osdIPStat.c:54-73 | the twelve names are C strings |
| LinuxIPStat.NetStatBuffer | devIocStats/os/Linux/osdIPStat.c:94-102 | Init's buffer begins with the bytes read and ends with two NULs |
| LinuxIPStat.ScanTokens | devIocStats/os/Linux/osdIPStat.c:113 | the token loop ends at the terminator and counts fewer tokens than characters |
| LinuxIPStat.ScanTokensStep | devIocStats/os/Linux/osdIPStat.c:113 | one more strtok(NULL, " ") either ends the loop or counts one more token |
| LinuxIPStat.Header | devIocStats/os/Linux/osdIPStat.c:113-115 | the string the names are compared with is the C string at `p`: the first token together with any spaces before it |
| LinuxIPStat.Resolve | devIocStats/os/Linux/osdIPStat.c:114-117 | the name loop gives a table of twelve offsets |
| LinuxIPStat.ResolveByEntries | devIocStats/os/Linux/osdIPStat.c:114-117 | after the token loop, an entry in the range whose name equals `p` holds the last token index, and every other entry is unchanged |
| LinuxIPStat.ScanColumns | devIocStats/os/Linux/osdIPStat.c:112-118 | the header's token scan ends at the terminator |
| LinuxIPStat.Apply | devIocStats/os/Linux/osdIPStat.c:112-118 | a header line's nested loops give twelve offsets |
| LinuxIPStat.Classify | devIocStats/os/Linux/osdIPStat.c:107-122 | a line is the TCP header only when TCP was not yet parsed, the IP header only when IP was not, and otherwise strtok goes on to the next line |
| LinuxIPStat.LineBody | devIocStats/os/Linux/osdIPStat.c:106-135 | one pass of the line loop moves strtok forward and keeps twelve offsets |
| LinuxIPStat.Lines | devIocStats/os/Linux/osdIPStat.c:105-136 | the line loop keeps twelve offsets |
| LinuxIPStat.ResolveAll | devIocStats/os/Linux/osdIPStat.c:101-136 | the resolver on the text read keeps twelve offsets |
| LinuxIPStat.HeaderTestIsEquality | devIocStats/os/Linux/osdIPStat.c:107-120 | the 9-byte and 8-byte strncmp tests hold exactly when the line equals "TcpExt: " or "IpExt: " |
| LinuxIPStat.LineBodyByLine | devIocStats/os/Linux/osdIPStat.c:106-132 | a pass resolves the TCP range from the text after "TcpExt: " when the line is exactly that and TCP was not parsed, the IP range likewise after "IpExt: " when IP was not parsed, and otherwise changes nothing |
| LinuxIPStat.ColumnsWrites | devIocStats/os/Linux/osdIPStat.c:113-117 | an offset a header line changes is in the branch's range, its entry's name equals the C string at `p` (the first token together with any spaces before it), and it becomes the last token index, which is within the tokens scanned |
| LinuxIPStat.ApplyRange | devIocStats/os/Linux/osdIPStat.c:113-117 | an offset a header line changes is in the branch's range and in `[0, tokens scanned)` |
| LinuxIPStat.LineBodyEffect | devIocStats/os/Linux/osdIPStat.c:106-132 | a pass either changes nothing, or sets `parsedTcp` and changes only TCP offsets, or sets `parsedIp` and changes only IP offsets |
| LinuxIPStat.LinesAtNul | devIocStats/os/Linux/osdIPStat.c:105 | at the terminator the loop changes nothing |
| LinuxIPStat.LinesFrame | devIocStats/os/Linux/osdIPStat.c:105-136 | the loop changes only TCP and IP offsets, each to a token index within the text |
| LinuxIPStat.LinesOneBranch | devIocStats/os/Linux/osdIPStat.c:105-131 | the inner strtok overwrites the line loop's position, so the loop leaves either every TCP offset or every IP offset as it was |
| LinuxIPStat.UdpNeverResolved | devIocStats/os/Linux/osdIPStat.c:113-127 | no UDP offset changes |
| LinuxIPStat.ApplyTwice | devIocStats/os/Linux/osdIPStat.c:112-118 | a header line's loops applied twice give what they give once |
| LinuxIPStat.LineBodyIdempotent | devIocStats/os/Linux/osdIPStat.c:106-132 | so does a pass of the line loop |
| LinuxIPStat.LinesIdempotent | devIocStats/os/Linux/osdIPStat.c:105-136 | so does the whole loop |
| LinuxIPStat.ResolveAllIdempotent | devIocStats/os/Linux/osdIPStat.c:101-136 | resolving the same text again changes nothing |
| LinuxIPStat.NetStatTable.constructor | devIocStats/os/Linux/osdIPStat.c:11-73 | static initialisation: `netStatFd` is -1, the names are fixed and every offset is -1 |
| LinuxIPStat.NetStatTable.Init | devIocStats/os/Linux/osdIPStat.c:75-139 | -1 when open, stat or read fails, with the offsets unchanged; `netStatFd` holds what open returned, set back to -1 when the read fails; otherwise 0 and the offsets ResolveAll gives |
| LinuxIPStat.NetStatTable.ProcessLine | devIocStats/os/Linux/osdIPStat.c:106-135 | one pass computes LineBody |
| LinuxIPStat.NetStatTable.HeaderBranches | devIocStats/os/Linux/osdIPStat.c:107-132 | the two branches: the TCP range resolved after "TcpExt: ", else the IP range after "IpExt: ", else nothing |
| LinuxIPStat.NetStatTable.HeaderMatches | devIocStats/os/Linux/osdIPStat.c:107-120 | a branch is taken exactly when it was not taken before and the line equals its header |
| LinuxIPStat.NetStatTable.ResolveColumns | devIocStats/os/Linux/osdIPStat.c:112-118 | the nested loops compute Apply and leave strtok at the header line's terminator |
| LinuxIPStat.NetStatTable.TokenLoop | devIocStats/os/Linux/osdIPStat.c:113-118 | the token loop counts the tokens ScanTokens counts and leaves the last index in every matching entry |
| LinuxIPStat.NetStatTable.Tally | devIocStats/os/Linux/osdIPStat.c:113-117 | one turn: the name loop, then the next strtok |
| LinuxIPStat.NetStatTable.AssignMatching | devIocStats/os/Linux/osdIPStat.c:114-117 | the name loop sets exactly the entries in the range whose name equals `p` |
| LinuxIPStat.NetStatTable.Get | devIocStats/os/Linux/osdIPStat.c:141-149 | returns 0 and leaves the record unchanged, whatever the descriptor |
| RtemsIPStat.UAdd | devIocStats/os/RTEMS/osdIPStat.c:19-25 | one `unsigned long` addition: below 2^32, and the exact sum when that sum fits |
| RtemsIPStat.UAddWraps | devIocStats/os/RTEMS/osdIPStat.c:19-25 | two counters whose sum reaches 2^32 wrap around exactly once |
| RtemsIPStat.UAddStep | devIocStats/os/RTEMS/osdIPStat.c:19 | a running `unsigned long` sum is the exact sum modulo 2^32 |
| RtemsIPStat.UdpErrors | devIocStats/os/RTEMS/osdIPStat.c:19 | `udpErr`: the four UDP error counters' sum modulo 2^32 |
| RtemsIPStat.TcpErrors | devIocStats/os/RTEMS/osdIPStat.c:22-23 | `tcpErr`: the five TCP error counters' sum modulo 2^32 |
| RtemsIPStat.IpErrors | devIocStats/os/RTEMS/osdIPStat.c:24-25 | `ipErr`: the eleven IP error counters' sum modulo 2^32 |
| RtemsIPStat.InitIPStat | devIocStats/os/RTEMS/osdIPStat.c:13 | Init returns 0 |
| RtemsIPStat.GetIPStat | devIocStats/os/RTEMS/osdIPStat.c:15-28 | returns 0 and assigns all eight fields: `udpRecv`, `udpSend`, `tcpSend`, `tcpRecv` and `ipRecv` copied, and the three error fields the sums modulo 2^32 |
| RtemsIPStat.ErrorsExactWithoutOverflow | devIocStats/os/RTEMS/osdIPStat.c:19-25 | without wrap-around, `udpErr`, `tcpErr` and `ipErr` are the exact sums |

## Left out

- File-system calls (`stat`, `open`, `read`, `lseek`, `close`) are not modelled. Their
  outcomes and the bytes read are inputs (`ProcFile`, `Poll`, and the parameters of
  `NetStatTable.Init`).
- Buffers the C code does not terminate are not modelled byte for byte.
  - The server buffer is the bytes read, then 512 NULs. The row copy does not stop at a
    NUL and may read past the bytes read.
  - The netstat buffer is the bytes read, then two NULs. `p += sizeof(header)` can step
    one past a line's terminator. The terminator written at `bufSize - 1` is not modelled.
  - The mount and RPC buffers are the bytes read, then NULs.
  - What the C program would read from uninitialised memory is not modelled.
- The mount reader's `memset` of all but the last byte is not modelled separately. The
  byte after the data is a NUL in the model.
- NfsEngine.Get requires fewer than 512 bytes read (`|poll.data| < LINE_SIZE`), because
  `read` is asked for at most `sizeof(buf) - 1` bytes.
- Atoi: the value is the mathematical one. An out-of-range result is undefined behaviour
  in C and is not modelled.
- LinuxNFS.RowStep: the store into `nfsServers[8]`, past the table, is not modelled. A
  ninth row that starts with a `v` word stops the reader with `TableOverrun`, and the model
  writes nothing for it.
- Memory and descriptor leaks (`buf` never freed, the descriptor left open when `stat`
  fails in the netstat resolver) are not modelled. They do not affect any result.
- `errlogPrintf` diagnostics are not modelled. They are a logging sink.
- `devIocStats/os/RTEMS/osdNFSErrors.c` is not part of this model. It wraps a library
  that is not shown and uses floating point.
- The RTEMS kernel globals `udpstat`, `tcpstat` and `ipstat` are input records.
- `unsigned long` widths are fixed as follows:
  - 2^32 on RTEMS;
  - 2^64 for the Linux `rpcRequests` and `rpcRetries` stores (`LinuxNFS.ULong`).
- The Linux struct arrays are held column by column. The model does not capture the
  memory layout of `nfsServers[]` or `nfsStatInfo.mounts[]`, only the contents of each
  field.
- `numMounts` is never reset, as in the C code. A second Init adds to the servers already
  counted.
- Concurrency: the code has none.
