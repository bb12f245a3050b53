/** `splitArgument`: tokenize an input line in place on spaces and collect the
    tokens into a NULL-terminated `char **` array, growing that array by one slot
    per token as `realloc` does in the C code.
 */
module Argv {
  import opened CString
  import opened Delimited
  import opened Tokenizer

  /** The delimiter string `" "`. */
  const Space: set<char> := {' '}

  /** What `splitArgument` leaves behind: the input buffer, now cut into tokens,
      and the argument array it allocated. */
  datatype Args = Args(buf: seq<char>, argv: seq<Ptr>)

  /** Every non-NULL pointer of `argv` points into `buf`. */
  predicate InBuf(buf: seq<char>, argv: seq<Ptr>) {
    |argv| == 0 || ((argv[0].Ptr? ==> argv[0].offset < |buf|) && InBuf(buf, argv[1..]))
  }

  /** The argument vector a command handler sees: the strings up to the first NULL. */
  function Vector(buf: seq<char>, argv: seq<Ptr>): (ss: seq<seq<char>>)
    requires Terminated(buf) && InBuf(buf, argv)
    ensures |ss| <= |argv|
  {
    if |argv| == 0 || argv[0].Null? then []
    else [CStr(buf, argv[0].offset)] + Vector(buf, argv[1..])
  }

  /** One pointer per offset. */
  function Ptrs(ts: seq<nat>): (ps: seq<Ptr>)
    ensures |ps| == |ts|
  {
    if |ts| == 0 then [] else [Ptr(ts[0])] + Ptrs(ts[1..])
  }

  lemma {:induction false} PtrsAt(ts: seq<nat>)
    ensures forall k :: 0 <= k < |ts| ==> Ptrs(ts)[k] == Ptr(ts[k])
  {
    if |ts| > 0 {
      PtrsAt(ts[1..]);
      assert forall k :: 0 < k < |ts| ==> Ptrs(ts)[k] == Ptrs(ts[1..])[k - 1];
    }
  }

  /** The array `splitArgument` fills for tokens at offsets `ts`: the tokens,
      then NULL; with no token, the two-slot array of the initial allocation. */
  function ArgArray(ts: seq<nat>): (argv: seq<Ptr>)
    ensures |argv| == (if |ts| == 0 then 2 else |ts| + 1)
    ensures argv[|argv| - 1] == Null
  {
    if |ts| == 0 then [Null, Null] else Ptrs(ts) + [Null]
  }

  /** The slots of `ArgArray(ts)`: the tokens in order, then NULL. */
  lemma ArgArrayAt(ts: seq<nat>)
    ensures forall k :: 0 <= k < |ts| ==> ArgArray(ts)[k] == Ptr(ts[k])
    ensures ArgArray(ts)[|ts|] == Null
  {
    PtrsAt(ts);
  }

  /** Pointers to the tokens and then NULL stay inside the buffer, and reading
      them back gives the tokens' strings. */
  lemma {:induction false} VectorOfPtrs(buf: seq<char>, ts: seq<nat>)
    requires Terminated(buf) && Below(ts, |buf|)
    ensures InBuf(buf, Ptrs(ts) + [Null])
    ensures Vector(buf, Ptrs(ts) + [Null]) == Strings(buf, ts)
  {
    if |ts| > 0 {
      assert (Ptrs(ts) + [Null])[1..] == Ptrs(ts[1..]) + [Null];
      VectorOfPtrs(buf, ts[1..]);
    }
  }

  /** The array for tokens inside a buffer points into that buffer only. */
  lemma {:induction false} ArgArrayInBuf(buf: seq<char>, ts: seq<nat>)
    requires Below(ts, |buf|)
    ensures InBuf(buf, ArgArray(ts))
  {
    if |ts| > 0 {
      assert (Ptrs(ts) + [Null])[1..] == Ptrs(ts[1..]) + [Null];
      if |ts| > 1 {
        ArgArrayInBuf(buf, ts[1..]);
      }
    }
  }

  /** `splitArgument(str)`: the first `strtok(str, " ")` starts at the buffer's
      start and later calls continue from the saved position until one returns
      NULL; the array holds what they returned. */
  function SplitArgument(str: seq<char>): (r: Args)
    requires Terminated(str)
    ensures Terminated(r.buf) && |r.buf| == |str|
    ensures InBuf(r.buf, r.argv)
    ensures |r.argv| >= 2 && r.argv[|r.argv| - 1] == Null
  {
    var d := Drain(str, From(0), Space);
    ArgArrayInBuf(d.buf, d.tokens);
    Args(d.buf, ArgArray(d.tokens))
  }

  /** The array holds pointers in every slot before the closing NULL, unless
      there is no token at all; the tokens appear in line order. */
  lemma SplitArgumentShape(str: seq<char>)
    requires Terminated(str)
    ensures var r := SplitArgument(str);
            r.argv == [Null, Null] || forall k :: 0 <= k < |r.argv| - 1 ==> r.argv[k].Ptr?
    ensures var r := SplitArgument(str);
            forall k, l :: 0 <= k < l < |r.argv| && r.argv[l].Ptr? ==>
              r.argv[k].Ptr? && r.argv[k].offset < r.argv[l].offset
  {
    var d := Drain(str, From(0), Space);
    AscendingOrder(d.tokens, 0, |str|);
    ArgArrayAt(d.tokens);
  }

  /** The handlers see exactly the space-separated words of the line. */
  lemma SplitArgumentWords(str: seq<char>)
    requires Terminated(str)
    ensures var r := SplitArgument(str);
            Vector(r.buf, r.argv) == Words(CStr(str, 0), Space)
  {
    var d := Drain(str, From(0), Space);
    DrainWords(str, 0, Space);
    VectorOfPtrs(d.buf, d.tokens);
  }

  /** The array's size: one slot per word and one for NULL, but never fewer than
      the two slots first allocated. */
  lemma SplitArgumentSize(str: seq<char>)
    requires Terminated(str)
    ensures var r := SplitArgument(str);
            var n := |Words(CStr(str, 0), Space)|;
            |r.argv| == (if n == 0 then 2 else n + 1) && r.argv[n] == Null
  {
    var d := Drain(str, From(0), Space);
    DrainWords(str, 0, Space);
    ArgArrayAt(d.tokens);
  }

  /** The only cells written are the spaces that end a word, which now hold the
      terminator; everything else in the buffer, beyond the line too, is kept. */
  lemma SplitArgumentBuffer(str: seq<char>)
    requires Terminated(str)
    ensures SplitArgument(str).buf == MarkedFrom(str, 0, Space)
  {
    DrainMarks(str, 0, Space);
  }

  /** Words joined with single spaces into a fresh line split back into the same words. */
  lemma SplitJoin(ws: seq<seq<char>>)
    requires forall k :: 0 <= k < |ws| ==> ws[k] != [] && Solid(ws[k], Space) && NUL !in ws[k]
    ensures var r := SplitArgument(Join(ws, ' ') + [NUL]);
            Vector(r.buf, r.argv) == ws
  {
    JoinAvoids(ws, ' ', NUL);
    CStrOfLine(Join(ws, ' '));
    SplitArgumentWords(Join(ws, ' ') + [NUL]);
    WordsJoin(ws, ' ', Space);
  }

  /** One call of `strtok(str, " ")` or `strtok(NULL, " ")`, described by what it
      means for the calls still to come: `rest` is what they find from here on,
      `rest'` what they find after this one. */
  method CallStrTok(buf: seq<char>, c: Cursor, ghost rest: Drained)
    returns (buf': seq<char>, c': Cursor, token: Ptr, ghost rest': Drained)
    requires Valid(buf, c, Space) && c.From? && rest == Drain(buf, c, Space)
    ensures Valid(buf', c', Space) && c'.From? && |buf'| == |buf|
    ensures rest' == Drain(buf', c', Space)
    ensures token.Null? ==> buf' == buf && rest.buf == buf && rest.tokens == [] && rest' == rest
    ensures token.Ptr? ==> Measure(c', |buf|) < Measure(c, |buf|)
    ensures token.Ptr? ==> rest.buf == rest'.buf && rest.tokens == [token.offset] + rest'.tokens
  {
    var st := StrTok(buf, c, Space);
    buf', c', token := st.buf, st.next, st.token;
    rest' := Drain(buf', c', Space);
    if token.Ptr? {
      DrainStep(buf, c, Space);
    } else {
      ExhaustedStaysExhausted(buf, c.pos, Space);
    }
  }

  /** The array before its closing NULL store: the slot after the last token
      still holds `fill`, whatever the allocator left there. */
  function Pending(ts: seq<nat>, fill: Ptr): (argv: seq<Ptr>)
    ensures |argv| == |ArgArray(ts)|
  {
    ArgArray(ts)[|ArgArray(ts)| - 1 := fill]
  }

  /** The closing NULL store turns the pending array into the finished one, and
      it is needed: before it the last slot holds `fill`. */
  lemma CloseArray(ts: seq<nat>, fill: Ptr)
    ensures Pending(ts, fill)[|ts| + (if ts == [] then 1 else 0)] == fill
    ensures Pending(ts, fill)[|Pending(ts, fill)| - 1 := Null] == ArgArray(ts)
  {
    var a := Pending(ts, fill)[|Pending(ts, fill)| - 1 := Null];
    assert forall k :: 0 <= k < |a| ==> a[k] == ArgArray(ts)[k];
  }

  /** Growing the array by one slot, which holds `fill`, and storing the next
      token in the slot before it gives the pending array for one more token. */
  lemma ArgArrayGrow(done: seq<nat>, t: nat, fill: Ptr)
    requires done != []
    ensures (Pending(done, fill) + [fill])[|done| := Ptr(t)] == Pending(done + [t], fill)
  {
    var a := (Pending(done, fill) + [fill])[|done| := Ptr(t)];
    var b := Pending(done + [t], fill);
    ArgArrayAt(done);
    ArgArrayAt(done + [t]);
    assert forall k :: 0 <= k < |a| ==> a[k] == b[k];
  }

  /** One turn of the collecting loop: the next token moves from those still
      owed to those stored, and the grown array is the pending array for them.
      A token can only come after the first call found one. */
  lemma CollectStep(all: seq<nat>, done: seq<nat>, t: nat, rest: seq<nat>, fill: Ptr)
    requires all == done + ([t] + rest)
    requires done == [] ==> all == []
    ensures done != [] && all == (done + [t]) + rest
    ensures (Pending(done, fill) + [fill])[|done| := Ptr(t)] == Pending(done + [t], fill)
  {
    ArgArrayGrow(done, t, fill);
  }

  /** The first store into the two-slot array from `malloc`: slot 0 gets the
      first call's result, slot 1 still holds `fill`. */
  lemma FirstSlot(first: Ptr, done: seq<nat>, fill: Ptr)
    requires done == (if first.Null? then [] else [first.offset])
    ensures [fill, fill][0 := first] == Pending(done, fill)
  {
  }

  /** `splitArgument` as the C code runs it: one `strtok` call and the store
      into slot 0 of a two-slot array, then the loop of `CollectTokens`, then NULL
      in the slot after the last token. A slot that `malloc` or `realloc` has just
      provided holds the arbitrary value `fill` until it is written. */
  method SplitArgumentArray(str: seq<char>, fill: Ptr) returns (buf: seq<char>, argv: seq<Ptr>)
    requires Terminated(str)
    ensures Args(buf, argv) == SplitArgument(str)
  {
    ghost var total := Drain(str, From(0), Space);
    var subStr;
    var cursor;
    ghost var rest;
    buf, cursor, subStr, rest := CallStrTok(str, From(0), total);
    var size := 2;
    var index := 0;
    argv := [fill, fill];
    ghost var done: seq<nat> := if subStr.Null? then [] else [subStr.offset];
    FirstSlot(subStr, done, fill);
    argv := argv[index := subStr];
    buf, argv, index := CollectTokens(buf, cursor, argv, size, index, fill, total, done, rest);
    CloseArray(total.tokens, fill);
    argv := argv[index + 1 := Null];
  }

  /** The `while ((subStr = strtok(NULL, " ")) != NULL)` loop of `splitArgument`:
      `done` are the tokens already stored, `rest` those the calls still to come
      will find. Every `realloc` adds a slot holding `fill`. It returns the
      buffer, the array and the last index written. */
  method CollectTokens(buf0: seq<char>, cursor0: Cursor, argv0: seq<Ptr>, size0: nat, index0: nat,
                       fill: Ptr, ghost total: Drained, ghost done0: seq<nat>, ghost rest0: Drained)
    returns (buf: seq<char>, argv: seq<Ptr>, index: nat)
    requires Valid(buf0, cursor0, Space) && cursor0.From?
    requires rest0 == Drain(buf0, cursor0, Space)
    requires rest0.buf == total.buf && total.tokens == done0 + rest0.tokens
    requires |argv0| == size0 == index0 + 2
    requires index0 == (if done0 == [] then 0 else |done0| - 1)
    requires done0 == [] ==> total.tokens == []
    requires argv0 == Pending(done0, fill)
    ensures buf == total.buf && argv == Pending(total.tokens, fill)
    ensures index + 1 == |argv| - 1
  {
    buf, argv, index := buf0, argv0, index0;
    var cursor := cursor0;
    var size := size0;
    ghost var done := done0;
    ghost var rest := rest0;
    while true
      invariant Valid(buf, cursor, Space) && cursor.From?
      invariant rest == Drain(buf, cursor, Space)
      invariant rest.buf == total.buf && total.tokens == done + rest.tokens
      invariant |argv| == size == index + 2
      invariant index == (if done == [] then 0 else |done| - 1)
      invariant done == [] ==> total.tokens == []
      invariant argv == Pending(done, fill)
      decreases Measure(cursor, |buf|)
    {
      var buf', cursor', subStr;
      ghost var rest';
      buf', cursor', subStr, rest' := CallStrTok(buf, cursor, rest);
      if subStr.Null? {
        break;
      }
      CollectStep(total.tokens, done, subStr.offset, rest'.tokens, fill);
      buf, cursor, rest := buf', cursor', rest';
      index := index + 1;
      size := size + 1;
      argv := argv + [fill];
      argv := argv[index := subStr];
      done := done + [subStr.offset];
    }
    assert done + [] == done;
  }
}
