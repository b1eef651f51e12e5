/** Pure models of the ISO/IEC 9899:2011 string functions the statistics engines use.
    A C buffer is a `seq<char>`; the C string at position `i` of a buffer is the run of
    characters from `i` up to (not including) the first NUL at or after `i`. */
module CString {

  datatype Option<T> = None | Some(value: T)

  const NUL: char := '\0'
  /** The delimiter strings the engines pass to strtok and strpbrk. */
  const SP: seq<char> := " "
  const NL: seq<char> := "\n"

  /** A buffer whose last character is NUL: every scan that stops at NUL stays inside it. */
  predicate Terminated(t: seq<char>)
  {
    |t| > 0 && t[|t| - 1] == NUL
  }

  /** The contents of a C string: no NUL inside. */
  predicate NoNul(s: seq<char>)
  {
    forall k :: 0 <= k < |s| ==> s[k] != NUL
  }

  /** A sequence of `n` NUL characters. */
  function Nuls(n: nat): (r: seq<char>)
    ensures |r| == n && forall k :: 0 <= k < n ==> r[k] == NUL
  {
    seq(n, _ => NUL)
  }

  /** Index of the first NUL at or after `i`. strlen (section 7.24.6.3 of ISO/IEC 9899:2011)
      of the string at `i` is FirstNul(t, i) - i. */
  function FirstNul(t: seq<char>, i: nat): (n: nat)
    requires Terminated(t) && i < |t|
    ensures i <= n < |t| && t[n] == NUL
    ensures forall k :: i <= k < n ==> t[k] != NUL
    decreases |t| - i
  {
    if t[i] == NUL then i else FirstNul(t, i + 1)
  }

  /** The C string that starts at position `i` of buffer `t`. */
  function CStr(t: seq<char>, i: nat): (s: seq<char>)
    requires Terminated(t) && i < |t|
    ensures NoNul(s) && i + |s| < |t| && t[i + |s|] == NUL
    ensures s == t[i .. i + |s|]
  {
    t[i .. FirstNul(t, i)]
  }

  /** The C string at `i` depends only on the characters up to and including its terminator. */
  lemma CStrFrame(t: seq<char>, u: seq<char>, i: nat)
    requires Terminated(t) && Terminated(u) && i < |t| && i < |u|
    requires i + |CStr(t, i)| < |u|
    requires forall k :: i <= k <= i + |CStr(t, i)| ==> u[k] == t[k]
    ensures CStr(u, i) == CStr(t, i)
  {
  }

  /** FirstNul is determined by the two facts that characterise it. */
  lemma FirstNulIs(t: seq<char>, i: nat, n: nat)
    requires Terminated(t) && i <= n < |t| && t[n] == NUL
    requires forall k :: i <= k < n ==> t[k] != NUL
    ensures FirstNul(t, i) == n
    decreases n - i
  {
  }

  /** A buffer holding the characters of `s` at `i` followed by a NUL has `s` as its C string
      at `i`. */
  lemma CStrIs(t: seq<char>, i: nat, s: seq<char>)
    requires Terminated(t) && NoNul(s) && i + |s| < |t|
    requires t[i .. i + |s|] == s && t[i + |s|] == NUL
    ensures CStr(t, i) == s
  {
  }

  /** The C string one character further on is the same string without its first character. */
  lemma CStrNext(t: seq<char>, i: nat)
    requires Terminated(t) && i < |t| && t[i] != NUL
    ensures i + 1 < |t| && CStr(t, i + 1) == CStr(t, i)[1..]
  {
  }

  // ---------------------------------------------------------------------------------------
  // strtok (section 7.24.5.8 of ISO/IEC 9899:2011)

  /** A token found by strtok: the characters `t[start..end]`. */
  datatype Tok = Tok(start: nat, end: nat)

  /** One strtok call: the token it returns (None for a null pointer) and the saved position
      the next call with a null first argument resumes from. */
  datatype Step = Step(tok: Option<Tok>, next: nat)

  /** First position at or after `i` whose character is not a delimiter (strspn). */
  function SkipDelims(t: seq<char>, i: nat, d: seq<char>): (j: nat)
    requires Terminated(t) && i < |t| && NUL !in d
    ensures i <= j < |t| && t[j] !in d
    ensures forall k :: i <= k < j ==> t[k] in d
    decreases |t| - i
  {
    if t[i] in d then SkipDelims(t, i + 1, d) else i
  }

  /** First position at or after `i` holding a delimiter or NUL (strcspn). */
  function SpanEnd(t: seq<char>, i: nat, d: seq<char>): (j: nat)
    requires Terminated(t) && i < |t|
    ensures i <= j < |t| && (t[j] == NUL || t[j] in d)
    ensures forall k :: i <= k < j ==> t[k] != NUL && t[k] !in d
    decreases |t| - i
  {
    if t[i] == NUL || t[i] in d then i else SpanEnd(t, i + 1, d)
  }

  /** strtok resuming at position `from` of the buffer's original contents `t`: it skips
      leading delimiters; at a NUL there is no token and the saved position stays on that
      NUL; otherwise the token runs to the next delimiter or NUL, a delimiter there is
      overwritten with NUL and the saved position is just past it. */
  function Strtok(t: seq<char>, from: nat, d: seq<char>): (r: Step)
    requires Terminated(t) && from < |t| && NUL !in d
    ensures from <= r.next < |t|
    ensures r.tok.None? ==> t[r.next] == NUL
    ensures r.tok.Some? ==>
      && from <= r.tok.value.start < r.tok.value.end <= r.next
      && (if t[r.tok.value.end] == NUL then r.next == r.tok.value.end
          else t[r.tok.value.end] in d && r.next == r.tok.value.end + 1)
  {
    var s := SkipDelims(t, from, d);
    if t[s] == NUL then Step(None, s)
    else
      var e := SpanEnd(t, s, d);
      Step(Some(Tok(s, e)), if t[e] == NUL then e else e + 1)
  }

  /** What strtok skips is delimiters, and a token holds neither delimiters nor NULs. */
  lemma StrtokSpans(t: seq<char>, from: nat, d: seq<char>)
    requires Terminated(t) && from < |t| && NUL !in d
    ensures var r := Strtok(t, from, d);
      && (r.tok.None? ==> forall k :: from <= k < r.next ==> t[k] in d)
      && (r.tok.Some? ==>
          && (forall k :: from <= k < r.tok.value.start ==> t[k] in d)
          && (forall k :: r.tok.value.start <= k < r.tok.value.end ==> t[k] != NUL && t[k] !in d))
  {
  }

  /** Once the saved position is on a NUL, every further strtok returns a null pointer and
      leaves the saved position where it is. */
  lemma StrtokAtNul(t: seq<char>, from: nat, d: seq<char>)
    requires Terminated(t) && from < |t| && NUL !in d && t[from] == NUL
    ensures Strtok(t, from, d) == Step(None, from)
  {
  }

  /** Equal suffixes stay equal when both are shortened by the same amount. */
  lemma SuffixShift(t: seq<char>, u: seq<char>, i: nat, j: nat, k: nat)
    requires i <= |t| && j <= |u| && t[i..] == u[j..] && i + k <= |t|
    ensures j + k <= |u| && t[i + k..] == u[j + k..]
  {
  }

  /** SkipDelims only looks at the characters from where it starts. */
  lemma SkipDelimsShift(t: seq<char>, u: seq<char>, i: nat, j: nat, d: seq<char>)
    requires Terminated(t) && Terminated(u) && i < |t| && j < |u| && t[i..] == u[j..] && NUL !in d
    ensures SkipDelims(u, j, d) == SkipDelims(t, i, d) - i + j
    decreases |t| - i
  {
  }

  /** SpanEnd only looks at the characters from where it starts. */
  lemma SpanEndShift(t: seq<char>, u: seq<char>, i: nat, j: nat, d: seq<char>)
    requires Terminated(t) && Terminated(u) && i < |t| && j < |u| && t[i..] == u[j..]
    ensures SpanEnd(u, j, d) == SpanEnd(t, i, d) - i + j
    decreases |t| - i
  {
  }

  /** SpanEnd is the first position holding a delimiter or NUL. */
  lemma SpanEndIs(t: seq<char>, i: nat, e: nat, d: seq<char>)
    requires Terminated(t) && i <= e < |t| && (t[e] == NUL || t[e] in d)
    requires forall k :: i <= k < e ==> t[k] != NUL && t[k] !in d
    ensures SpanEnd(t, i, d) == e
    decreases e - i
  {
  }

  /** strtok resuming at `i` of `t` and at `j` of `u` behaves alike when the two buffers
      agree from there on: the same token text, at positions shifted by `j - i`. */
  lemma StrtokShift(t: seq<char>, u: seq<char>, i: nat, j: nat, d: seq<char>)
    requires Terminated(t) && Terminated(u) && i < |t| && j < |u| && t[i..] == u[j..] && NUL !in d
    ensures var a, b := Strtok(t, i, d), Strtok(u, j, d);
      && b.next == a.next - i + j && a.next < |t| && t[a.next..] == u[b.next..]
      && (a.tok.None? <==> b.tok.None?)
      && (a.tok.Some? ==> b.tok.value.start == a.tok.value.start - i + j
                          && TokText(u, b.tok.value) == TokText(t, a.tok.value))
  {
    SkipDelimsShift(t, u, i, j, d);
    var s, s' := SkipDelims(t, i, d), SkipDelims(u, j, d);
    SuffixShift(t, u, i, j, s - i);
    assert t[s] == t[s..][0] == u[s'..][0] == u[s'];
    if t[s] == NUL {
      assert Strtok(t, i, d) == Step(None, s) && Strtok(u, j, d) == Step(None, s');
    } else {
      var n, n' := TokenShift(t, u, s, s', d);
      assert Strtok(t, i, d) == Step(Some(Tok(s, SpanEnd(t, s, d))), n);
      assert Strtok(u, j, d) == Step(Some(Tok(s', SpanEnd(u, s', d))), n');
    }
  }

  /** The token scan of strtok from its first character `s` of `t` and `s'` of `u`, when the
      buffers agree from there on: `n` and `n'` are where strtok resumes. */
  lemma TokenShift(t: seq<char>, u: seq<char>, s: nat, s': nat, d: seq<char>) returns (n: nat, n': nat)
    requires Terminated(t) && Terminated(u) && s < |t| && s' < |u| && t[s..] == u[s'..]
    requires t[s] != NUL && t[s] !in d
    ensures var e, e' := SpanEnd(t, s, d), SpanEnd(u, s', d);
      && e' == e - s + s' && u[e'] == t[e] && t[s..e] == u[s'..e']
      && n == (if t[e] == NUL then e else e + 1) && n' == n - s + s'
      && n < |t| && t[n..] == u[n'..]
  {
    SpanEndShift(t, u, s, s', d);
    var e, e' := SpanEnd(t, s, d), SpanEnd(u, s', d);
    SuffixShift(t, u, s, s', e - s);
    assert t[e] == t[e..][0] == u[e'..][0] == u[e'];
    assert t[s..e] == t[s..][..e - s] == u[s'..][..e - s] == u[s'..e'];
    n := if t[e] == NUL then e else e + 1;
    n' := n - s + s';
    SuffixShift(t, u, s, s', n - s);
  }

  /** strpbrk likewise. */
  lemma StrPbrkShift(t: seq<char>, u: seq<char>, i: nat, j: nat, a: seq<char>)
    requires Terminated(t) && Terminated(u) && i < |t| && j < |u| && t[i..] == u[j..] && NUL !in a
    ensures StrPbrk(u, j, a).None? <==> StrPbrk(t, i, a).None?
    ensures StrPbrk(t, i, a).Some? ==> StrPbrk(u, j, a).value == StrPbrk(t, i, a).value - i + j
  {
  }

  /** The characters of a token. */
  function TokText(t: seq<char>, k: Tok): seq<char>
    requires k.start <= k.end <= |t|
  {
    t[k.start .. k.end]
  }

  /** strtok resuming at the first character of a word `w`, with no delimiter and no NUL
      in it, that ends at a delimiter or at the terminator, returns that word and resumes
      after the delimiter, or at the terminator. */
  lemma StrtokWord(t: seq<char>, i: nat, w: seq<char>, d: seq<char>)
    requires Terminated(t) && NUL !in d && w != [] && i + |w| < |t| && t[i .. i + |w|] == w
    requires NoNul(w) && forall k :: 0 <= k < |w| ==> w[k] !in d
    requires t[i + |w|] == NUL || t[i + |w|] in d
    ensures Strtok(t, i, d).tok == Some(Tok(i, i + |w|)) && TokText(t, Tok(i, i + |w|)) == w
    ensures Strtok(t, i, d).next == if t[i + |w|] == NUL then i + |w| else i + |w| + 1
  {
    assert t[i] == w[0];
    forall k | i <= k < i + |w|
      ensures t[k] != NUL && t[k] !in d
    {
      assert t[k] == w[k - i];
    }
    SpanEndIs(t, i, i + |w|, d);
  }

  // ---------------------------------------------------------------------------------------
  // strpbrk (section 7.24.5.4 of ISO/IEC 9899:2011)

  /** strpbrk: position of the first character of the C string at `i` that occurs in `accept`. */
  function StrPbrk(t: seq<char>, i: nat, accept: seq<char>): (r: Option<nat>)
    requires Terminated(t) && i < |t| && NUL !in accept
    ensures r.Some? ==>
      i <= r.value < |t| && t[r.value] in accept
      && forall k :: i <= k < r.value ==> t[k] != NUL && t[k] !in accept
    ensures r.None? ==>
      forall k :: 0 <= k < |CStr(t, i)| ==> CStr(t, i)[k] !in accept
  {
    var j := SpanEnd(t, i, accept);
    if t[j] == NUL then
      FirstNulIs(t, i, j);
      None
    else Some(j)
  }

  // ---------------------------------------------------------------------------------------
  // strcmp and strncmp (sections 7.24.4.2 and 7.24.4.4 of ISO/IEC 9899:2011)

  /** The first character of a C string, as an unsigned value; the terminator counts as 0. */
  function Code(s: seq<char>): int
  {
    if s == [] then 0 else s[0] as int
  }

  /** strcmp on the contents of two C strings: zero, or the difference of the first pair of
      characters that differ. */
  function StrCmp(x: seq<char>, y: seq<char>): (r: int)
    requires NoNul(x) && NoNul(y)
    ensures r == 0 <==> x == y
  {
    if x == [] || y == [] || x[0] != y[0] then Code(x) - Code(y)
    else
      assert x == [x[0]] + x[1..] && y == [y[0]] + y[1..];
      StrCmp(x[1..], y[1..])
  }

  /** strncmp: compares at most `n` characters and nothing after a terminator. It reports
      equality exactly when the strings are equal or their first `n` characters are. */
  function StrNCmp(x: seq<char>, y: seq<char>, n: nat): (r: int)
    requires NoNul(x) && NoNul(y)
    ensures r == 0 <==> x == y || (|x| >= n && |y| >= n && x[..n] == y[..n])
    decreases n
  {
    if n == 0 then 0
    else if x == [] || y == [] || x[0] != y[0] then
      assert x != [] ==> x[0] != NUL;
      assert y != [] ==> y[0] != NUL;
      Code(x) - Code(y)
    else
      assert x == [x[0]] + x[1..] && y == [y[0]] + y[1..];
      assert |x| >= n && |y| >= n ==> (x[..n] == y[..n] <==> x[1..][..n - 1] == y[1..][..n - 1]);
      StrNCmp(x[1..], y[1..], n - 1)
  }

  /** When `n` exceeds the length of `y`, the terminator of `y` is among the characters
      compared, so strncmp reports equality only for a string equal to `y`. */
  lemma StrNCmpBeyondLength(x: seq<char>, y: seq<char>, n: nat)
    requires NoNul(x) && NoNul(y) && n > |y|
    ensures StrNCmp(x, y, n) == 0 <==> x == y
    decreases n
  {
  }

  /** When `n` is at most the length of `y`, strncmp is a prefix test. */
  lemma StrNCmpWithinLength(x: seq<char>, y: seq<char>, n: nat)
    requires NoNul(x) && NoNul(y) && n <= |y|
    ensures StrNCmp(x, y, n) == 0 <==> n <= |x| && x[..n] == y[..n]
    decreases n
  {
  }

  // ---------------------------------------------------------------------------------------
  // strncpy (section 7.24.2.4 of ISO/IEC 9899:2011)

  /** The `n` characters strncpy writes when copying the C string `s`: the first `n`
      characters of `s`, padded with NULs when `s` is shorter. */
  function StrNCpy(s: seq<char>, n: nat): (r: seq<char>)
    ensures |r| == n
    ensures forall k :: 0 <= k < n ==> r[k] == if k < |s| then s[k] else NUL
  {
    if |s| >= n then s[..n] else s + Nuls(n - |s|)
  }

  /** The idiom `strncpy(dst, s, n); dst[n-1] = 0;`: the destination then holds `s` cut to
      at most `n - 1` characters, NUL-terminated. */
  function BoundedCopy(s: seq<char>, n: nat): (r: seq<char>)
    requires n > 0
    ensures |r| == n && Terminated(r)
  {
    StrNCpy(s, n)[n - 1 := NUL]
  }

  lemma BoundedCopyTruncates(s: seq<char>, n: nat)
    requires NoNul(s) && n > 0
    ensures |BoundedCopy(s, n)| == n && Terminated(BoundedCopy(s, n))
    ensures CStr(BoundedCopy(s, n), 0) == s[..if |s| < n - 1 then |s| else n - 1]
  {
    var r := BoundedCopy(s, n);
    var m := if |s| < n - 1 then |s| else n - 1;
    assert r[m] == NUL;
    FirstNulIs(r, 0, m);
    assert r[..m] == s[..m];
  }

  // ---------------------------------------------------------------------------------------
  // atoi (section 7.22.1.2 of ISO/IEC 9899:2011)

  /** isspace in the "C" locale: space, \t, \n, \v, \f, \r. */
  predicate IsSpace(c: char)
  {
    c == ' ' || c == '\t' || c == '\n' || c == '\r' || c as int == 11 || c as int == 12
  }

  predicate IsDigit(c: char)
  {
    '0' <= c <= '9'
  }

  function DigitValue(c: char): nat
    requires IsDigit(c)
  {
    c as int - '0' as int
  }

  predicate AllDigits(s: seq<char>)
  {
    forall k :: 0 <= k < |s| ==> IsDigit(s[k])
  }

  /** The value of a string of decimal digits, most significant first. */
  function DecimalValue(s: seq<char>): nat
    requires AllDigits(s)
  {
    if s == [] then 0 else DecimalValue(s[..|s| - 1]) * 10 + DigitValue(s[|s| - 1])
  }

  /** Appending a digit to a run of digits: the value grows by one decimal place. */
  lemma DecimalValueStep(s: seq<char>, a: nat, b: nat)
    requires a <= b < |s| && AllDigits(s[a..b]) && IsDigit(s[b])
    ensures AllDigits(s[a..b + 1])
    ensures DecimalValue(s[a..b + 1]) == DecimalValue(s[a..b]) * 10 + DigitValue(s[b])
  {
    assert s[a..b + 1][..b - a] == s[a..b];
  }

  /** First position at or after `j` whose character is not white space. */
  function SkipSpaces(s: seq<char>, j: nat): (k: nat)
    requires j <= |s|
    ensures j <= k <= |s| && (k < |s| ==> !IsSpace(s[k]))
    ensures forall i :: j <= i < k ==> IsSpace(s[i])
    decreases |s| - j
  {
    if j < |s| && IsSpace(s[j]) then SkipSpaces(s, j + 1) else j
  }

  /** First position at or after `j` whose character is not a digit. */
  function DigitRun(s: seq<char>, j: nat): (k: nat)
    requires j <= |s|
    ensures j <= k <= |s| && (k < |s| ==> !IsDigit(s[k]))
    ensures AllDigits(s[j..k])
    decreases |s| - j
  {
    if j < |s| && IsDigit(s[j]) then DigitRun(s, j + 1) else j
  }

  /** Where the digits of atoi's subject sequence start: after white space and one sign. */
  function DigitsStart(s: seq<char>): (j: nat)
    ensures j <= |s|
  {
    var i := SkipSpaces(s, 0);
    if i < |s| && (s[i] == '-' || s[i] == '+') then i + 1 else i
  }

  /** atoi on the contents of a C string: optional white space, an optional sign, then the
      longest run of decimal digits; no digits gives 0. */
  function Atoi(s: seq<char>): (r: int)
    ensures DigitRun(s, DigitsStart(s)) == DigitsStart(s) ==> r == 0
    ensures r < 0 ==> SkipSpaces(s, 0) < |s| && s[SkipSpaces(s, 0)] == '-'
  {
    var i := SkipSpaces(s, 0);
    var j := DigitsStart(s);
    var v: int := DecimalValue(s[j .. DigitRun(s, j)]);
    if i < |s| && s[i] == '-' then -v else v
  }

  /** The decimal numeral of `n`, without leading zeros ("0" for zero). */
  function Decimal(n: nat): (s: seq<char>)
    ensures AllDigits(s) && |s| > 0
  {
    if n < 10 then ['0' + n as char] else Decimal(n / 10) + ['0' + (n % 10) as char]
  }

  lemma {:induction false} DecimalValueOfDecimal(n: nat)
    ensures DecimalValue(Decimal(n)) == n
  {
    var s := Decimal(n);
    if n >= 10 {
      DecimalValueOfDecimal(n / 10);
      assert s[..|s| - 1] == Decimal(n / 10);
    }
  }

  /** atoi reads back the numeral of any natural number, whatever non-digit text follows. */
  lemma AtoiOfDecimal(n: nat, rest: seq<char>)
    requires rest != [] ==> !IsDigit(rest[0])
    ensures Atoi(Decimal(n) + rest) == n
  {
    var d := Decimal(n);
    var s := d + rest;
    assert !IsSpace(s[0]) && s[0] != '-' && s[0] != '+';
    assert SkipSpaces(s, 0) == 0;
    DigitRunIs(s, 0, |d|);
    assert s[0 .. |d|] == d;
    DecimalValueOfDecimal(n);
  }

  lemma DigitRunIs(s: seq<char>, j: nat, k: nat)
    requires j <= k <= |s| && AllDigits(s[j..k]) && (k < |s| ==> !IsDigit(s[k]))
    ensures DigitRun(s, j) == k
    decreases k - j
  {
  }
}
