/** C strings held in heap buffers.

    A buffer is a `seq<char>` whose last cell is the terminator. The string that
    `strcmp`, `printf("%s")` or `strtok` sees from position `p` is everything
    up to the first terminator at or after `p`, so a terminator written into the
    middle of a buffer cuts the string short there.
 */
module CString {

  const NUL: char := '\0'

  /** A buffer that holds at least one C string: non-empty, terminator last. */
  predicate Terminated(buf: seq<char>) {
    |buf| > 0 && buf[|buf| - 1] == NUL
  }

  /** A `char *` into a buffer: either NULL or an offset from the buffer's start. */
  datatype Ptr = Null | Ptr(offset: nat)

  /** `strlen(buf + p)`: the distance from `p` to the first terminator. */
  function StrLen(buf: seq<char>, p: nat): (n: nat)
    requires Terminated(buf) && p < |buf|
    ensures p + n < |buf| && buf[p + n] == NUL
    ensures NUL !in buf[p..p + n]
    decreases |buf| - p
  {
    if buf[p] == NUL then 0
    else
      var n := 1 + StrLen(buf, p + 1);
      assert buf[p..p + n] == [buf[p]] + buf[p + 1..p + n];
      n
  }

  /** The C string starting at `p`: its characters, without the terminator. */
  function CStr(buf: seq<char>, p: nat): (s: seq<char>)
    requires Terminated(buf) && p < |buf|
    ensures p + |s| < |buf| && buf[p + |s|] == NUL
    ensures s == buf[p..p + |s|]
    ensures NUL !in s
  {
    buf[p..p + StrLen(buf, p)]
  }

  /** The C string from `p` ends at the first terminator, wherever that is found. */
  lemma CStrEndsAt(buf: seq<char>, p: nat, k: nat)
    requires Terminated(buf) && p <= k < |buf|
    requires buf[k] == NUL
    requires NUL !in buf[p..k]
    ensures CStr(buf, p) == buf[p..k]
  {
    var n := StrLen(buf, p);
    assert forall j :: p <= j < k ==> buf[j] == buf[p..k][j - p];
    assert forall j :: p <= j < p + n ==> buf[j] == buf[p..p + n][j - p];
  }

  /** Reading the line back from a freshly terminated buffer gives the line. */
  lemma CStrOfLine(line: seq<char>)
    requires NUL !in line
    ensures Terminated(line + [NUL])
    ensures CStr(line + [NUL], 0) == line
  {
    var buf := line + [NUL];
    assert buf[0..|line|] == line;
    CStrEndsAt(buf, 0, |line|);
  }

  /** Two buffers that agree from `p` up to a terminator hold the same string at `p`. */
  lemma CStrAgree(a: seq<char>, b: seq<char>, p: nat, k: nat)
    requires Terminated(a) && Terminated(b) && p <= k < |a| && k < |b|
    requires a[k] == NUL
    requires forall i :: p <= i <= k ==> a[i] == b[i]
    ensures CStr(a, p) == CStr(b, p)
  {
    var s := CStr(a, p);
    assert forall j :: p <= j < p + |s| ==> a[j] == s[j - p];
    assert b[p..p + |s|] == a[p..p + |s|];
    CStrEndsAt(b, p, p + |s|);
  }

  /** `strncmp(a, b, n) == 0` on two C strings, compared character by character:
      stop after `n` characters, or when both strings end together. */
  function StrNCmpZero(a: seq<char>, b: seq<char>, n: nat): (same: bool)
    // Equal strings agree on every position both have among the first `n`,
    ensures same ==> forall k :: 0 <= k < n && k < |a| && k < |b| ==> a[k] == b[k]
    // and when one of them ends within the first `n`, the other ends there too.
    ensures same && (|a| < n || |b| < n) ==> |a| == |b|
    decreases n
  {
    if n == 0 then true
    else if |a| == 0 || |b| == 0 then |a| == |b|
    else
      a[0] == b[0] && StrNCmpZero(a[1..], b[1..], n - 1)
  }

  function Min(x: nat, y: nat): nat {
    if x <= y then x else y
  }

  /** `strncmp` reports equality exactly when the first `n` characters agree,
      a string shorter than `n` counting as its whole self. */
  lemma {:induction false} StrNCmpZeroPrefixes(a: seq<char>, b: seq<char>, n: nat)
    ensures StrNCmpZero(a, b, n) <==> a[..Min(n, |a|)] == b[..Min(n, |b|)]
    decreases n
  {
    if n == 0 || |a| == 0 || |b| == 0 {
    } else {
      StrNCmpZeroPrefixes(a[1..], b[1..], n - 1);
      assert a[..Min(n, |a|)] == [a[0]] + a[1..][..Min(n - 1, |a| - 1)];
      assert b[..Min(n, |b|)] == [b[0]] + b[1..][..Min(n - 1, |b| - 1)];
    }
  }

  /** A run of cells that holds no terminator splits off the front of a C string. */
  lemma CStrAfterRun(buf: seq<char>, p: nat, k: nat)
    requires Terminated(buf) && p <= k < |buf|
    requires NUL !in buf[p..k]
    ensures CStr(buf, p) == buf[p..k] + CStr(buf, k)
  {
    var rest := CStr(buf, k);
    var m := k + |rest|;
    assert buf[p..m] == buf[p..k] + rest;
    assert NUL !in buf[p..m] by {
      assert forall x :: x in buf[p..m] ==> x in buf[p..k] || x in rest;
    }
    CStrEndsAt(buf, p, m);
  }

  /** A terminated buffer is its contents followed by the terminator. */
  lemma TerminatedSplit(buf: seq<char>)
    requires Terminated(buf)
    ensures buf == buf[..|buf| - 1] + [NUL]
  {
  }

  /** Writing a terminator over a terminator changes nothing. */
  lemma RewriteNul(buf: seq<char>, e: nat)
    requires e < |buf| && buf[e] == NUL
    ensures buf[e := NUL] == buf
  {
  }
}
