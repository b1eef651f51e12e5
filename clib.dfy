/** The C library string routines as methods over `array<char>` buffers, each proved to
    compute the pure model in module CString, and strtok as a class holding the saved
    pointer. A "pointer" into a buffer is a position of the array. */
module CLib {
  import opened CString

  /** strpbrk(buf + i, accept) (section 7.24.5.4 of ISO/IEC 9899:2011): reads the buffer,
      changes nothing. */
  method StrPbrkAt(buf: array<char>, i: nat, accept: seq<char>) returns (r: Option<nat>)
    requires Terminated(buf[..]) && i < buf.Length && NUL !in accept
    ensures r == StrPbrk(buf[..], i, accept)
  {
    var j := i;
    while buf[j] != NUL && buf[j] !in accept
      invariant i <= j < buf.Length
      invariant SpanEnd(buf[..], i, accept) == SpanEnd(buf[..], j, accept)
      decreases buf.Length - j
    {
      j := j + 1;
    }
    if buf[j] == NUL {
      r := None;
    } else {
      r := Some(j);
    }
  }

  /** strcmp(lit, buf + i) (section 7.24.4.2 of ISO/IEC 9899:2011) for a string literal `lit`. */
  method StrCmpAt(lit: seq<char>, buf: array<char>, i: nat) returns (r: int)
    requires NoNul(lit) && Terminated(buf[..]) && i < buf.Length
    ensures r == StrCmp(lit, CStr(buf[..], i))
  {
    ghost var s := CStr(buf[..], i);
    var k := 0;
    while k < |lit| && buf[i + k] != NUL && lit[k] == buf[i + k]
      invariant 0 <= k <= |lit| && k <= |s|
      invariant lit[..k] == s[..k]
      invariant StrCmp(lit, s) == StrCmp(lit[k..], s[k..])
      decreases |lit| - k
    {
      assert buf[i + k] == s[k];
      assert lit[k..][1..] == lit[k + 1..] && s[k..][1..] == s[k + 1..];
      k := k + 1;
    }
    var a := if k < |lit| then lit[k] as int else 0;
    r := a - buf[i + k] as int;
    assert k < |s| ==> buf[i + k] == s[k];
  }

  /** strncmp(buf + i, lit, n) (section 7.24.4.4 of ISO/IEC 9899:2011) for a string literal `lit`. */
  method StrNCmpAt(buf: array<char>, i: nat, lit: seq<char>, n: nat) returns (r: int)
    requires NoNul(lit) && Terminated(buf[..]) && i < buf.Length
    ensures r == StrNCmp(CStr(buf[..], i), lit, n)
  {
    ghost var s := CStr(buf[..], i);
    var k := 0;
    while k < n && buf[i + k] != NUL && k < |lit| && buf[i + k] == lit[k]
      invariant 0 <= k <= n && k <= |lit| && k <= |s|
      invariant StrNCmp(s, lit, n) == StrNCmp(s[k..], lit[k..], n - k)
      decreases n - k
    {
      assert buf[i + k] == s[k];
      assert lit[k..][1..] == lit[k + 1..] && s[k..][1..] == s[k + 1..];
      k := k + 1;
    }
    if k == n {
      r := 0;
    } else {
      var b := if k < |lit| then lit[k] as int else 0;
      r := buf[i + k] as int - b;
      assert k < |s| ==> buf[i + k] == s[k];
    }
  }

  /** atoi(buf + i) (section 7.22.1.2 of ISO/IEC 9899:2011). */
  method AtoiAt(buf: array<char>, i: nat) returns (v: int)
    requires Terminated(buf[..]) && i < buf.Length
    ensures v == Atoi(CStr(buf[..], i))
  {
    ghost var s := CStr(buf[..], i);
    ghost var sp := SkipSpaces(s, 0);
    ghost var j := DigitsStart(s);
    var k := SkipSpacesAt(buf, i);
    assert sp < |s| ==> buf[k] == s[sp];
    var neg := false;
    if buf[k] == '-' {
      neg := true;
      k := k + 1;
    } else if buf[k] == '+' {
      k := k + 1;
    }
    assert k == i + j;
    assert neg <==> sp < |s| && s[sp] == '-';
    var val := DigitsAt(buf, i, k, s, j);
    v := if neg then -(val as int) else val as int;
  }

  /** The white-space loop of atoi: the position of the first non-space character. */
  method SkipSpacesAt(buf: array<char>, i: nat) returns (k: nat)
    requires Terminated(buf[..]) && i < buf.Length
    ensures k == i + SkipSpaces(CStr(buf[..], i), 0)
  {
    ghost var s := CStr(buf[..], i);
    k := i;
    while IsSpace(buf[k])
      invariant i <= k <= i + |s|
      invariant SkipSpaces(s, 0) == SkipSpaces(s, k - i)
      decreases i + |s| - k
    {
      assert buf[k] == s[k - i];
      k := k + 1;
    }
    assert k < i + |s| ==> buf[k] == s[k - i];
  }

  /** The digit loop of atoi: the value of the digits of the C string `s` at `i` from its
      `j`-th character on. */
  method DigitsAt(buf: array<char>, i: nat, k0: nat, ghost s: seq<char>, ghost j: nat)
    returns (val: nat)
    requires Terminated(buf[..]) && i < buf.Length && s == CStr(buf[..], i)
    requires j <= |s| && k0 == i + j
    ensures val == DecimalValue(s[j .. DigitRun(s, j)])
  {
    var k := k0;
    ghost var m := j;
    val := 0;
    while IsDigit(buf[k])
      invariant j <= m <= |s| && k == i + m
      invariant DigitRun(s, j) == DigitRun(s, m)
      invariant AllDigits(s[j .. m]) && val == DecimalValue(s[j .. m])
      decreases |s| - m
    {
      assert m < |s| && buf[k] == s[m];
      DecimalValueStep(s, j, m);
      val := val * 10 + DigitValue(buf[k]);
      k := k + 1;
      m := m + 1;
    }
    assert m < |s| ==> buf[k] == s[m];
  }

  /** strncpy(dst + d, src + s, n) (section 7.24.2.4 of ISO/IEC 9899:2011): writes exactly
      `n` characters of `dst`, the first `n` of the C string at `src + s` padded with NULs. */
  method StrNCpyAt(dst: array<char>, d: nat, src: array<char>, s: nat, n: nat)
    requires dst != src && d + n <= dst.Length
    requires Terminated(src[..]) && s < src.Length
    modifies dst
    ensures dst[..] == old(dst[..])[..d] + StrNCpy(CStr(src[..], s), n) + old(dst[..])[d + n..]
  {
    ghost var str := CStr(src[..], s);
    ghost var cp := StrNCpy(str, n);
    var k := 0;
    while k < n && src[s + k] != NUL
      invariant 0 <= k <= n && k <= |str|
      invariant forall j :: 0 <= j < dst.Length ==>
        dst[j] == if d <= j < d + k then cp[j - d] else old(dst[j])
      decreases n - k
    {
      assert src[s + k] == str[k];
      dst[d + k] := src[s + k];
      k := k + 1;
    }
    assert k < n ==> k == |str|;
    while k < n
      invariant k <= n && (k < n ==> |str| <= k)
      invariant forall j :: 0 <= j < dst.Length ==>
        dst[j] == if d <= j < d + k then cp[j - d] else old(dst[j])
      decreases n - k
    {
      dst[d + k] := NUL;
      k := k + 1;
    }
    assert dst[..] == old(dst[..])[..d] + cp + old(dst[..])[d + n..];
  }

  /** strtok (section 7.24.5.8 of ISO/IEC 9899:2011) on one buffer. `save` is strtok's
      saved pointer; `text` is the buffer's contents when tokenizing began. strtok writes a NUL only over the
      delimiter that ends a token, which lies before the new saved position, so from the
      saved position on the buffer still holds `text` and every call is the pure Strtok
      on `text`. */
  class Tokenizer {
    const buf: array<char>
    var save: nat
    ghost const text: seq<char>

    ghost predicate Valid()
      reads this, buf
    {
      && |text| == buf.Length && Terminated(text) && save < |text|
      && (forall k :: save <= k < |text| ==> buf[k] == text[k])
      && Terminated(buf[..])
    }

    /** Binds the tokenizer to a buffer; the saved pointer is at its start. */
    constructor (b: array<char>)
      requires Terminated(b[..])
      ensures Valid() && buf == b && text == b[..] && save == 0
    {
      buf := b;
      text := b[..];
      save := 0;
    }

    /** strtok(buf + p, d): a call with a non-null first argument at or after the saved
        pointer. */
    method Restart(p: nat, d: seq<char>) returns (tok: Option<nat>)
      requires Valid() && save <= p < buf.Length && NUL !in d
      modifies this, buf
      ensures Valid() && buf[..] == StrtokWrite(text, old(buf[..]), Strtok(text, p, d))
      ensures save == Strtok(text, p, d).next && tok == Start(Strtok(text, p, d))
      ensures Strtok(text, p, d).tok.Some? ==>
        CStr(buf[..], tok.value) == TokText(text, Strtok(text, p, d).tok.value)
    {
      save := p;
      tok := Next(d);
    }

    /** strtok(NULL, d). */
    method Next(d: seq<char>) returns (tok: Option<nat>)
      requires Valid() && NUL !in d
      modifies this, buf
      ensures Valid() && buf[..] == StrtokWrite(text, old(buf[..]), Strtok(text, old(save), d))
      ensures save == Strtok(text, old(save), d).next && tok == Start(Strtok(text, old(save), d))
      ensures Strtok(text, old(save), d).tok.Some? ==>
        CStr(buf[..], tok.value) == TokText(text, Strtok(text, old(save), d).tok.value)
    {
      var s, e := Bounds(d);
      if buf[s] == NUL {
        save := s;
        tok := None;
        return;
      }
      if buf[e] == NUL {
        save := e;
      } else {
        buf[e] := NUL;
        save := e + 1;
      }
      tok := Some(s);
      assert buf[s .. e] == text[s .. e];
      FirstNulIs(buf[..], s, e);
    }

    /** The two scans of strtok from the saved position: past the delimiters (strspn), then,
        unless that reached the terminator, to the end of the token (strcspn). */
    method Bounds(d: seq<char>) returns (s: nat, e: nat)
      requires Valid() && NUL !in d
      ensures s == SkipDelims(text, save, d)
      ensures text[s] == NUL ==> e == s
      ensures text[s] != NUL ==> e == SpanEnd(text, s, d)
    {
      s := save;
      while buf[s] in d
        invariant save <= s < buf.Length
        invariant SkipDelims(text, save, d) == SkipDelims(text, s, d)
        decreases buf.Length - s
      {
        s := s + 1;
      }
      e := s;
      if buf[s] == NUL {
        return;
      }
      while buf[e] != NUL && buf[e] !in d
        invariant s <= e < buf.Length
        invariant SpanEnd(text, s, d) == SpanEnd(text, e, d)
        decreases buf.Length - e
      {
        e := e + 1;
      }
    }
  }

  /** A strtok step resuming at `from` leaves alone every C string of the buffer that ends
      (at its terminator) at or before `from`: the NUL it may write lies after the token,
      which starts at or after `from`, and when the terminator is at `from` itself there is
      no token to end. */
  lemma StrtokKeepsCStr(text: seq<char>, b: seq<char>, from: nat, d: seq<char>, p: nat)
    requires Terminated(text) && |b| == |text| && from < |text| && NUL !in d
    requires forall k :: from <= k < |text| ==> b[k] == text[k]
    requires Terminated(b) && p < |b| && p + |CStr(b, p)| <= from
    ensures Terminated(StrtokWrite(text, b, Strtok(text, from, d)))
    ensures CStr(StrtokWrite(text, b, Strtok(text, from, d)), p) == CStr(b, p)
  {
    var u := StrtokWrite(text, b, Strtok(text, from, d));
    assert u[|u| - 1] == NUL;
    CStrFrame(b, u, p);
  }

  /** The pointer strtok returns for a step. */
  function Start(r: Step): Option<nat>
  {
    if r.tok.Some? then Some(r.tok.value.start) else None
  }

  /** The buffer after a strtok step: a NUL over the delimiter that ended the token. */
  function StrtokWrite(text: seq<char>, b: seq<char>, r: Step): seq<char>
    requires |b| == |text|
  {
    if r.tok.Some? && r.tok.value.end < |text| && text[r.tok.value.end] != NUL
    then b[r.tok.value.end := NUL]
    else b
  }
}
