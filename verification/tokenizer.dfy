/** `my_strtok` / `strtok`: one tokenizing step over a terminated buffer.

    The C function keeps its position in a static pointer; here the position is
    an explicit `Cursor` value that each step takes and returns. `NoString`
    stands for "continuing (str == NULL) with no string in progress". A step
    may write one terminator into the buffer, so it returns the new buffer too.
 */
module Tokenizer {
  import opened CString
  import opened Delimited

  datatype Cursor = NoString | From(pos: nat)

  /** What one call returns: the buffer after it, the saved position, the token. */
  datatype Step = Step(buf: seq<char>, next: Cursor, token: Ptr)

  /** `delim` comes from a C string, so it never contains the terminator. */
  predicate DelimSet(delim: set<char>) {
    NUL !in delim
  }

  predicate Valid(buf: seq<char>, c: Cursor, delim: set<char>) {
    Terminated(buf) && DelimSet(delim) && (c.From? ==> c.pos < |buf|)
  }

  /** `strspn`: the first position at or after `p` that is not a delimiter. */
  function SkipDelims(buf: seq<char>, p: nat, delim: set<char>): (q: nat)
    requires Terminated(buf) && p < |buf| && DelimSet(delim)
    ensures p <= q < |buf| && buf[q] !in delim
    ensures AllDelims(buf[p..q], delim)
    decreases |buf| - p
  {
    if buf[p] in delim then
      var q := SkipDelims(buf, p + 1, delim);
      assert buf[p..q] == [buf[p]] + buf[p + 1..q];
      q
    else p
  }

  /** The first position at or after `p` holding a delimiter or the terminator. */
  function TokenEnd(buf: seq<char>, p: nat, delim: set<char>): (e: nat)
    requires Terminated(buf) && p < |buf|
    ensures p <= e < |buf| && (buf[e] == NUL || buf[e] in delim)
    ensures NUL !in buf[p..e] && Solid(buf[p..e], delim)
    decreases |buf| - p
  {
    if buf[p] == NUL || buf[p] in delim then p
    else
      var e := TokenEnd(buf, p + 1, delim);
      assert buf[p..e] == [buf[p]] + buf[p + 1..e];
      e
  }

  /** One call of `my_strtok`. From `From(p)`: skip delimiters; at the terminator
      there is no token; otherwise the token runs to the next delimiter or the
      terminator, a delimiter ending it is overwritten with the terminator, and the
      cursor moves just past the token's end. `StrTokFound` and `StrTokExhausted`
      state the two outcomes in full. */
  function StrTok(buf: seq<char>, from: Cursor, delim: set<char>): (r: Step)
    requires Valid(buf, from, delim)
    ensures Valid(r.buf, r.next, delim) && |r.buf| == |buf|
    ensures r.next.From? <==> from.From?
    ensures r.token.Null? ==> r.buf == buf
    ensures from.NoString? ==> r.token.Null?
    // A token lies at or after the old cursor and strictly before the new one.
    ensures r.token.Ptr? ==> from.From? && from.pos <= r.token.offset < r.next.pos
    // The cursor only moves forward, and nothing up to the token is written.
    ensures from.From? ==> from.pos <= r.next.pos
    ensures r.token.Ptr? ==> r.buf[..r.token.offset + 1] == buf[..r.token.offset + 1]
  {
    match from
    case NoString => Step(buf, NoString, Null)
    case From(p) =>
      var q := SkipDelims(buf, p, delim);
      if buf[q] == NUL then Step(buf, From(q), Null)
      else
        var e := TokenEnd(buf, q, delim);
        Step(buf[e := NUL], From(if buf[e] == NUL then e else e + 1), Ptr(q))
  }

  /** No token: only delimiters were left before the terminator, the cursor now
      rests on the terminator and nothing is written. */
  lemma StrTokExhausted(buf: seq<char>, p: nat, delim: set<char>)
    requires Valid(buf, From(p), delim)
    requires StrTok(buf, From(p), delim).token.Null?
    ensures var r := StrTok(buf, From(p), delim);
            && buf[r.next.pos] == NUL
            && AllDelims(buf[p..r.next.pos], delim)
            && Words(CStr(buf, p), delim) == []
  {
    var q := StrTok(buf, From(p), delim).next.pos;
    CStrEndsAt(buf, p, q);
    AllDelimsNoWords(CStr(buf, p), delim);
  }

  /** A token: leading delimiters are skipped, the token is the maximal run of
      non-delimiters that follows, only the cell ending it is overwritten with the
      terminator, and the cursor moves just past that cell. */
  lemma StrTokFound(buf: seq<char>, p: nat, delim: set<char>)
    requires Valid(buf, From(p), delim)
    requires StrTok(buf, From(p), delim).token.Ptr?
    ensures var r := StrTok(buf, From(p), delim);
            && var t := r.token.offset;
            && var w := CStr(r.buf, t);
            && var e := t + |w|;
            && p <= t < e < |buf|
            && AllDelims(buf[p..t], delim)
            && w == buf[t..e] && Solid(w, delim)
            && (buf[e] == NUL || buf[e] in delim)
            && r.buf == buf[e := NUL]
            && r.next.pos == (if buf[e] == NUL then e else e + 1)
  {
    var q := SkipDelims(buf, p, delim);
    var e := TokenEnd(buf, q, delim);
    var buf' := buf[e := NUL];
    assert buf'[q..e] == buf[q..e];
    CStrEndsAt(buf', q, e);
  }

  /** Strictly increasing positions, all in `[lo, hi)`. */
  predicate Ascending(ts: seq<nat>, lo: nat, hi: nat) {
    |ts| == 0 || (lo <= ts[0] < hi && Ascending(ts[1..], ts[0] + 1, hi))
  }

  /** Positions all below `hi`. */
  predicate Below(ts: seq<nat>, hi: nat) {
    |ts| == 0 || (ts[0] < hi && Below(ts[1..], hi))
  }

  /** What `Ascending` says, position by position. */
  lemma {:induction false} AscendingOrder(ts: seq<nat>, lo: nat, hi: nat)
    requires Ascending(ts, lo, hi)
    ensures Below(ts, hi)
    ensures forall k :: 0 <= k < |ts| ==> lo <= ts[k] < hi
    ensures forall k, l :: 0 <= k < l < |ts| ==> ts[k] < ts[l]
  {
    if |ts| > 0 {
      AscendingOrder(ts[1..], ts[0] + 1, hi);
      assert forall k :: 0 < k < |ts| ==> ts[k] == ts[1..][k - 1];
    }
  }

  /** What repeated calls produce: the final buffer and every token, in order. */
  datatype Drained = Drained(buf: seq<char>, tokens: seq<nat>)

  function Measure(c: Cursor, size: nat): nat {
    if c.From? && c.pos <= size then size - c.pos else 0
  }

  /** Call `StrTok` until it returns no token. */
  function Drain(buf: seq<char>, c: Cursor, delim: set<char>): (r: Drained)
    requires Valid(buf, c, delim)
    ensures Terminated(r.buf) && |r.buf| == |buf|
    ensures c.NoString? ==> r == Drained(buf, [])
    // Tokens are found left to right, at or after the cursor.
    ensures c.From? ==> Ascending(r.tokens, c.pos, |buf|)
    ensures Below(r.tokens, |buf|)
    // The cells before the cursor, and the cursor's own cell, are never written.
    ensures c.From? ==> forall i :: 0 <= i <= c.pos ==> r.buf[i] == buf[i]
    decreases Measure(c, |buf|)
  {
    var st := StrTok(buf, c, delim);
    if st.token.Null? then Drained(st.buf, [])
    else
      var rest := Drain(st.buf, st.next, delim);
      assert ([st.token.offset] + rest.tokens)[1..] == rest.tokens;
      Drained(rest.buf, [st.token.offset] + rest.tokens)
  }

  /** One more call, seen from the outside: a step that finds a token puts it in
      front of the tokens that the remaining calls find. */
  lemma DrainStep(buf: seq<char>, c: Cursor, delim: set<char>)
    requires Valid(buf, c, delim) && StrTok(buf, c, delim).token.Ptr?
    ensures var st := StrTok(buf, c, delim);
            var rest := Drain(st.buf, st.next, delim);
            Drain(buf, c, delim) == Drained(rest.buf, [st.token.offset] + rest.tokens)
  {
  }

  /** The strings that pointers into a buffer point to, read as C strings. */
  function Strings(buf: seq<char>, ps: seq<nat>): (ss: seq<seq<char>>)
    requires Terminated(buf)
    requires Below(ps, |buf|)
    ensures |ss| == |ps|
  {
    if |ps| == 0 then [] else [CStr(buf, ps[0])] + Strings(buf, ps[1..])
  }

  /** A step without a token leaves the cursor on the terminator, so every later
      step returns no token as well: once exhausted, the tokenizer stays exhausted. */
  lemma ExhaustedStaysExhausted(buf: seq<char>, p: nat, delim: set<char>)
    requires Valid(buf, From(p), delim)
    requires StrTok(buf, From(p), delim).token.Null?
    ensures var st := StrTok(buf, From(p), delim);
            Drain(st.buf, st.next, delim) == Drained(buf, [])
  {
  }

  /** The shape of the C string at `p` around a token found at `t` and ending at
      `e`, where `buf'` is the buffer with `e` terminated and `p'` the next cursor:
      delimiters, the token, and either the terminator or one delimiter followed
      by the C string at `p'`. */
  lemma CutShape(buf: seq<char>, buf': seq<char>, p: nat, t: nat, e: nat, p': nat,
                 delim: set<char>)
    requires Terminated(buf) && DelimSet(delim)
    requires p <= t <= e < |buf|
    requires AllDelims(buf[p..t], delim) && NUL !in buf[t..e]
    requires buf[e] == NUL || buf[e] in delim
    requires buf' == buf[e := NUL] && p' == (if buf[e] == NUL then e else e + 1)
    ensures p' < |buf'| && Terminated(buf')
    ensures CStr(buf', t) == buf[t..e]
    ensures buf[e] == NUL ==> CStr(buf, p) == buf[p..t] + CStr(buf', t)
    ensures buf[e] == NUL ==> CStr(buf', p') == []
    ensures buf[e] != NUL ==>
              CStr(buf, p) == buf[p..t] + CStr(buf', t) + [buf[e]] + CStr(buf', p')
  {
    CutPrefix(buf, p, t, e, delim);
    if buf[e] == NUL {
      CStrEndsAt(buf, e, e);
      CStrEndsAt(buf', e, e);
    } else {
      CutDelim(buf, e);
    }
  }

  /** The part of `CutShape` common to both cases: the token read back from the
      cut buffer, and the C string at `p` up to the cut. */
  lemma CutPrefix(buf: seq<char>, p: nat, t: nat, e: nat, delim: set<char>)
    requires Terminated(buf) && DelimSet(delim)
    requires p <= t <= e < |buf|
    requires AllDelims(buf[p..t], delim) && NUL !in buf[t..e]
    ensures Terminated(buf[e := NUL])
    ensures CStr(buf[e := NUL], t) == buf[t..e]
    ensures CStr(buf, p) == buf[p..t] + buf[t..e] + CStr(buf, e)
  {
    var ds := buf[p..t];
    var w := buf[t..e];
    assert buf[e := NUL][t..e] == w;
    CStrEndsAt(buf[e := NUL], t, e);
    assert buf[p..e] == ds + w;
    assert NUL !in buf[p..e] by {
      assert forall j :: 0 <= j < |ds| ==> ds[j] in delim;
      assert forall x :: x in buf[p..e] ==> x in ds || x in w;
    }
    CStrAfterRun(buf, p, e);
  }

  /** Cutting at a delimiter: the C string from there is that delimiter followed
      by the C string that survives after the cut. */
  lemma CutDelim(buf: seq<char>, e: nat)
    requires Terminated(buf) && e < |buf| && buf[e] != NUL
    ensures e + 1 < |buf| && Terminated(buf[e := NUL])
    ensures CStr(buf, e) == [buf[e]] + CStr(buf[e := NUL], e + 1)
  {
    assert buf[e..e + 1] == [buf[e]];
    CStrAfterRun(buf, e, e + 1);
    CStrPastCut(buf, e);
  }

  /** Terminating cell `e` leaves the C string that starts after it alone. */
  lemma CStrPastCut(buf: seq<char>, e: nat)
    requires Terminated(buf) && e + 1 < |buf|
    ensures Terminated(buf[e := NUL])
    ensures CStr(buf[e := NUL], e + 1) == CStr(buf, e + 1)
  {
    CStrAgree(buf, buf[e := NUL], e + 1, e + 1 + |CStr(buf, e + 1)|);
  }

  /** A step that finds a token returns the first reference token of the C string
      at `p`, and the C string at the new cursor holds the remaining ones. */
  lemma StepWords(buf: seq<char>, p: nat, delim: set<char>)
    requires Valid(buf, From(p), delim)
    requires StrTok(buf, From(p), delim).token.Ptr?
    ensures var st := StrTok(buf, From(p), delim);
            Words(CStr(buf, p), delim)
              == [CStr(st.buf, st.token.offset)] + Words(CStr(st.buf, st.next.pos), delim)
  {
    StrTokFound(buf, p, delim);
    var st := StrTok(buf, From(p), delim);
    var t := st.token.offset;
    var w := CStr(st.buf, t);
    var e := t + |w|;
    CutShape(buf, st.buf, p, t, e, st.next.pos, delim);
    if buf[e] == NUL {
      WordsOfLast(buf[p..t], w, delim);
      assert Fields([], delim) == [[]];
    } else {
      WordsOfMore(buf[p..t], w, buf[e], CStr(st.buf, st.next.pos), delim);
    }
  }

  /** Repeated `strtok` calls from position `p` return exactly the reference tokens
      of the C string at `p`, read back from the final buffer. */
  lemma {:induction false} DrainWords(buf: seq<char>, p: nat, delim: set<char>)
    requires Valid(buf, From(p), delim)
    ensures var r := Drain(buf, From(p), delim);
            Strings(r.buf, r.tokens) == Words(CStr(buf, p), delim)
    decreases |buf| - p
  {
    var st := StrTok(buf, From(p), delim);
    if st.token.Null? {
      StrTokExhausted(buf, p, delim);
    } else {
      StrTokFound(buf, p, delim);
      StepWords(buf, p, delim);
      var t := st.token.offset;
      var p' := st.next.pos;
      var rest := Drain(st.buf, From(p'), delim);
      DrainWords(st.buf, p', delim);
      // The later steps leave the first token's cells and its terminator alone.
      CStrAgree(st.buf, rest.buf, t, t + |CStr(st.buf, t)|);
      var r := Drain(buf, From(p), delim);
      assert r.tokens[1..] == rest.tokens;
    }
  }

  /** With no token left, `MarkedFrom` writes nothing. */
  lemma MarkedFromExhausted(buf: seq<char>, p: nat, delim: set<char>)
    requires Valid(buf, From(p), delim)
    requires StrTok(buf, From(p), delim).token.Null?
    ensures MarkedFrom(buf, p, delim) == buf
  {
    StrTokExhausted(buf, p, delim);
    var s := CStr(buf, p);
    MarkedRun(s, [], delim);
    assert s + [] == s;
    assert buf == buf[..p] + s + buf[p + |s|..];
  }

  /** One step that finds a token does the first of the writes `MarkedFrom` asks for. */
  lemma MarkedFromStep(buf: seq<char>, p: nat, delim: set<char>)
    requires Valid(buf, From(p), delim)
    requires StrTok(buf, From(p), delim).token.Ptr?
    ensures var st := StrTok(buf, From(p), delim);
            MarkedFrom(st.buf, st.next.pos, delim) == MarkedFrom(buf, p, delim)
  {
    StrTokFound(buf, p, delim);
    var st := StrTok(buf, From(p), delim);
    var t := st.token.offset;
    MarkedFromCut(buf, st.buf, p, t, t + |CStr(st.buf, t)|, st.next.pos, delim);
  }

  /** `MarkedFromStep` in terms of the cut alone: terminating the token that
      ends at `e` and moving on to `p'` leaves the remaining writes unchanged. */
  lemma MarkedFromCut(buf: seq<char>, buf': seq<char>, p: nat, t: nat, e: nat, p': nat,
                      delim: set<char>)
    requires Terminated(buf) && DelimSet(delim)
    requires p <= t < e < |buf|
    requires AllDelims(buf[p..t], delim) && NUL !in buf[t..e] && Solid(buf[t..e], delim)
    requires buf[e] == NUL || buf[e] in delim
    requires buf' == buf[e := NUL] && p' == (if buf[e] == NUL then e else e + 1)
    ensures p' < |buf'| && Terminated(buf')
    ensures MarkedFrom(buf', p', delim) == MarkedFrom(buf, p, delim)
  {
    if buf[e] == NUL {
      RewriteNul(buf, e);
      MarkedFromAtNul(buf, e, delim);
      MarkedFromCutNul(buf, p, t, e, delim);
    } else {
      MarkedFromCutDelim(buf, p, t, e, delim);
    }
  }

  /** `MarkedFromCut` when the token runs up to the terminator: nothing is written. */
  lemma MarkedFromCutNul(buf: seq<char>, p: nat, t: nat, e: nat, delim: set<char>)
    requires Terminated(buf) && DelimSet(delim)
    requires p <= t < e < |buf| && buf[e] == NUL
    requires AllDelims(buf[p..t], delim) && NUL !in buf[t..e] && Solid(buf[t..e], delim)
    ensures MarkedFrom(buf, p, delim) == buf
  {
    CutPrefix(buf, p, t, e, delim);
    CStrEndsAt(buf, e, e);
    assert buf[p..t] + buf[t..e] + [] == buf[p..t] + buf[t..e];
    MarksStepLast(buf, p, buf[p..t], buf[t..e], delim);
  }

  /** `MarkedFromCut` when a delimiter ends the token: that delimiter is written. */
  lemma MarkedFromCutDelim(buf: seq<char>, p: nat, t: nat, e: nat, delim: set<char>)
    requires Terminated(buf) && DelimSet(delim)
    requires p <= t < e < |buf| && buf[e] in delim
    requires AllDelims(buf[p..t], delim) && NUL !in buf[t..e] && Solid(buf[t..e], delim)
    ensures e + 1 < |buf| && Terminated(buf[e := NUL])
    ensures MarkedFrom(buf[e := NUL], e + 1, delim) == MarkedFrom(buf, p, delim)
  {
    CutPrefix(buf, p, t, e, delim);
    CutDelim(buf, e);
    var tail := CStr(buf[e := NUL], e + 1);
    assert CStr(buf, p) == buf[p..t] + buf[t..e] + [buf[e]] + tail;
    MarksStepMore(buf, buf[e := NUL], p, e, e + 1, buf[p..t], buf[t..e], buf[e], tail, delim);
  }

  /** Repeated `strtok` calls from position `p` leave the buffer as the reference
      `Marked` says: exactly the delimiters that end a token are overwritten with
      the terminator, and every other cell keeps its character. */
  lemma {:induction false} DrainMarks(buf: seq<char>, p: nat, delim: set<char>)
    requires Valid(buf, From(p), delim)
    ensures Drain(buf, From(p), delim).buf == MarkedFrom(buf, p, delim)
    decreases |buf| - p
  {
    var st := StrTok(buf, From(p), delim);
    if st.token.Null? {
      MarkedFromExhausted(buf, p, delim);
    } else {
      MarkedFromStep(buf, p, delim);
      DrainMarks(st.buf, st.next.pos, delim);
    }
  }

  /** The buffer that results from terminating in place every token of the C
      string at `p`, according to the reference `Marked`. */
  function MarkedFrom(buf: seq<char>, p: nat, delim: set<char>): seq<char>
    requires Terminated(buf) && p < |buf|
  {
    var s := CStr(buf, p);
    buf[..p] + Marked(s, delim) + buf[p + |s|..]
  }

  /** A string of delimiters and then one token is left as it is by `Marked`. */
  lemma MarksStepLast(buf: seq<char>, p: nat, ds: seq<char>, w: seq<char>, delim: set<char>)
    requires Terminated(buf) && p < |buf|
    requires AllDelims(ds, delim) && Solid(w, delim)
    requires CStr(buf, p) == ds + w
    ensures MarkedFrom(buf, p, delim) == buf
  {
    var s := CStr(buf, p);
    MarkedRun(ds, w, delim);
    assert buf == buf[..p] + s + buf[p + |s|..];
  }

  /** At a terminator there is nothing to mark. */
  lemma MarkedFromAtNul(buf: seq<char>, e: nat, delim: set<char>)
    requires Terminated(buf) && e < |buf| && buf[e] == NUL
    ensures MarkedFrom(buf, e, delim) == buf
  {
    CStrEndsAt(buf, e, e);
    assert Marked([], delim) == [];
    assert buf[..e] + [] + buf[e..] == buf;
  }

  /** The buffer bookkeeping of one step of `DrainMarks`, when a delimiter ends the
      token: that delimiter is the only cell written. */
  lemma MarksStepMore(buf: seq<char>, buf': seq<char>, p: nat, e: nat, p': nat,
                      ds: seq<char>, w: seq<char>, d: char, tail: seq<char>, delim: set<char>)
    requires Terminated(buf) && p < |buf|
    requires AllDelims(ds, delim) && w != [] && Solid(w, delim) && d in delim
    requires CStr(buf, p) == ds + w + [d] + tail
    requires e == p + |ds| + |w| && p' == e + 1 && buf' == buf[e := NUL]
    ensures var s := CStr(buf, p);
            buf'[..p'] + Marked(tail, delim) + buf'[p' + |tail|..]
              == buf[..p] + Marked(s, delim) + buf[p + |s|..]
  {
    var s := CStr(buf, p);
    assert buf == buf[..p] + s + buf[p + |s|..];
    Splice(buf, buf', buf[..p], ds, w, d, tail, buf[p + |s|..], e, p', delim);
  }

  /** `MarksStepMore` on plain sequences: overwriting the delimiter after the first
      token splices the marked rest back between the same prefix and suffix. */
  lemma Splice(buf: seq<char>, buf': seq<char>, pre: seq<char>, ds: seq<char>, w: seq<char>,
               d: char, tail: seq<char>, post: seq<char>, e: nat, p': nat, delim: set<char>)
    requires AllDelims(ds, delim) && w != [] && Solid(w, delim) && d in delim
    requires buf == pre + (ds + w + [d] + tail) + post
    requires e == |pre| + |ds| + |w| && p' == e + 1 && buf' == buf[e := NUL]
    ensures buf'[..p'] + Marked(tail, delim) + buf'[p' + |tail|..]
              == pre + Marked(ds + w + [d] + tail, delim) + post
  {
    MarkedOfMore(ds, w, d, tail, delim);
    var head := pre + ds + w + [NUL];
    assert buf' == head + tail + post;
    assert buf'[..p'] == head;
    assert buf'[p' + |tail|..] == post;
  }
}
