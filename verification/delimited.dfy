/** The reference meaning of "split a line on a set of delimiter characters".

    `Fields` cuts a line at EVERY delimiter, so two adjacent delimiters leave an
    empty field between them; `Words` then drops the empty fields. This is the
    cursor-free, buffer-free statement of what repeated `strtok` calls return,
    and the tokenizer modules are proved against it.
 */
module Delimited {
  import opened CString

  /** No character of `w` is a delimiter. */
  predicate Solid(w: seq<char>, delim: set<char>) {
    forall j :: 0 <= j < |w| ==> w[j] !in delim
  }

  /** Every character of `w` is a delimiter. */
  predicate AllDelims(w: seq<char>, delim: set<char>) {
    forall j :: 0 <= j < |w| ==> w[j] in delim
  }

  /** The pieces between delimiters, one more piece than there are delimiters. */
  function Fields(s: seq<char>, delim: set<char>): (fs: seq<seq<char>>)
    ensures |fs| >= 1
    ensures forall k :: 0 <= k < |fs| ==> Solid(fs[k], delim)
    decreases |s|
  {
    if |s| == 0 then [[]]
    else if s[0] in delim then [[]] + Fields(s[1..], delim)
    else
      var rest := Fields(s[1..], delim);
      [[s[0]] + rest[0]] + rest[1..]
  }

  /** The non-empty pieces, in order. */
  function NonEmpty(fs: seq<seq<char>>): (ws: seq<seq<char>>)
    ensures forall k :: 0 <= k < |ws| ==> ws[k] in fs && ws[k] != []
    ensures |ws| <= |fs|
  {
    if |fs| == 0 then []
    else if fs[0] == [] then NonEmpty(fs[1..])
    else [fs[0]] + NonEmpty(fs[1..])
  }

  /** The tokens of `s`: its maximal runs of non-delimiter characters. */
  function Words(s: seq<char>, delim: set<char>): (ws: seq<seq<char>>)
    ensures forall k :: 0 <= k < |ws| ==> ws[k] != [] && Solid(ws[k], delim)
  {
    NonEmpty(Fields(s, delim))
  }

  /** Glue pieces back together with one separator character between them. */
  function Join(ws: seq<seq<char>>, d: char): seq<char>
  {
    if |ws| == 0 then []
    else if |ws| == 1 then ws[0]
    else ws[0] + [d] + Join(ws[1..], d)
  }

  /** A character that occurs in no piece, and is not the separator, does not
      occur in the joined line. */
  lemma {:induction false} JoinAvoids(ws: seq<seq<char>>, d: char, c: char)
    requires c != d
    requires forall k :: 0 <= k < |ws| ==> c !in ws[k]
    ensures c !in Join(ws, d)
  {
    if |ws| > 1 {
      JoinAvoids(ws[1..], d, c);
      assert c !in ws[0];
    }
  }

  /** Splitting at every occurrence of one character undoes joining with it:
      `Fields` loses nothing of the line. */
  lemma {:induction false} JoinFields(s: seq<char>, d: char)
    ensures Join(Fields(s, {d}), d) == s
    decreases |s|
  {
    if |s| == 0 {
    } else {
      var rest := Fields(s[1..], {d});
      JoinFields(s[1..], d);
      if s[0] == d {
        assert Fields(s, {d}) == [[]] + rest;
        assert s == [d] + s[1..];
      } else {
        var fs := Fields(s, {d});
        assert fs == [[s[0]] + rest[0]] + rest[1..];
        if |rest| == 1 {
          assert s == [s[0]] + rest[0];
        } else {
          assert Join(rest, d) == rest[0] + [d] + Join(rest[1..], d);
          assert fs[1..] == rest[1..];
          assert s == [s[0]] + (rest[0] + [d] + Join(rest[1..], d));
        }
      }
    }
  }

  /** A delimiter cuts the line into two independently split halves. */
  lemma {:induction false} FieldsSplit(a: seq<char>, d: char, b: seq<char>, delim: set<char>)
    requires d in delim
    ensures Fields(a + [d] + b, delim) == Fields(a, delim) + Fields(b, delim)
    decreases |a|
  {
    var s := a + [d] + b;
    if |a| == 0 {
      assert s == [d] + b;
      assert s[1..] == b;
    } else {
      assert s[1..] == a[1..] + [d] + b;
      FieldsSplit(a[1..], d, b, delim);
      if a[0] !in delim {
        var rest := Fields(s[1..], delim);
        var fa := Fields(a[1..], delim);
        assert rest == fa + Fields(b, delim);
        assert rest[0] == fa[0];
        assert rest[1..] == fa[1..] + Fields(b, delim);
      }
    }
  }

  /** A run with no delimiter in it is a single field. */
  lemma {:induction false} FieldsSolid(w: seq<char>, delim: set<char>)
    requires Solid(w, delim)
    ensures Fields(w, delim) == [w]
    decreases |w|
  {
    if |w| > 0 {
      FieldsSolid(w[1..], delim);
      assert w == [w[0]] + w[1..];
    }
  }

  /** Dropping empty pieces distributes over concatenation. */
  lemma {:induction false} NonEmptyAppend(a: seq<seq<char>>, b: seq<seq<char>>)
    ensures NonEmpty(a + b) == NonEmpty(a) + NonEmpty(b)
    decreases |a|
  {
    if |a| == 0 {
      assert a + b == b;
    } else {
      assert (a + b)[1..] == a[1..] + b;
      NonEmptyAppend(a[1..], b);
    }
  }

  /** A delimiter separates the tokens of what precedes it from those of what follows:
      no token spans a delimiter and none is made up from one. */
  lemma WordsSplit(a: seq<char>, d: char, b: seq<char>, delim: set<char>)
    requires d in delim
    ensures Words(a + [d] + b, delim) == Words(a, delim) + Words(b, delim)
  {
    FieldsSplit(a, d, b, delim);
    NonEmptyAppend(Fields(a, delim), Fields(b, delim));
  }

  /** Leading delimiters contribute no tokens, however many there are. */
  lemma {:induction false} WordsSkip(ds: seq<char>, s: seq<char>, delim: set<char>)
    requires AllDelims(ds, delim)
    ensures Words(ds + s, delim) == Words(s, delim)
    decreases |ds|
  {
    if |ds| > 0 {
      var t := ds + s;
      assert t[0] == ds[0] && t[1..] == ds[1..] + s;
      var fs := Fields(t, delim);
      assert fs == [[]] + Fields(t[1..], delim);
      assert fs[0] == [] && fs[1..] == Fields(t[1..], delim);
      WordsSkip(ds[1..], s, delim);
    } else {
      assert ds + s == s;
    }
  }

  /** A line made only of delimiters (or empty) has no tokens. */
  lemma AllDelimsNoWords(ds: seq<char>, delim: set<char>)
    requires AllDelims(ds, delim)
    ensures Words(ds, delim) == []
  {
    WordsSkip(ds, [], delim);
    assert ds + [] == ds;
  }

  /** A non-empty run with no delimiter in it is exactly one token. */
  lemma WordsSolid(w: seq<char>, delim: set<char>)
    requires w != [] && Solid(w, delim)
    ensures Words(w, delim) == [w]
  {
    FieldsSolid(w, delim);
  }

  /** Splitting undoes joining: non-empty delimiter-free tokens joined by one
      delimiter split back into the same tokens, in the same order. */
  lemma {:induction false} WordsJoin(ws: seq<seq<char>>, d: char, delim: set<char>)
    requires d in delim
    requires forall k :: 0 <= k < |ws| ==> ws[k] != [] && Solid(ws[k], delim)
    ensures Words(Join(ws, d), delim) == ws
    decreases |ws|
  {
    if |ws| == 0 {
      assert Fields([], delim) == [[]];
    } else if |ws| == 1 {
      WordsSolid(ws[0], delim);
    } else {
      WordsJoin(ws[1..], d, delim);
      WordsSplit(ws[0], d, Join(ws[1..], d), delim);
      WordsSolid(ws[0], delim);
      assert ws == [ws[0]] + ws[1..];
    }
  }

  /** Cell `i` of `s` is a delimiter right after a non-delimiter: it ends a token
      that is followed by more of the line. */
  predicate EndsWord(s: seq<char>, i: int, delim: set<char>)
    requires 0 <= i < |s|
  {
    0 < i && s[i] in delim && s[i - 1] !in delim
  }

  /** The line as a tokenizer that terminates tokens in place leaves it: every
      delimiter that ends a token becomes the terminator, every other cell is kept. */
  function Marked(s: seq<char>, delim: set<char>): (m: seq<char>)
  {
    seq(|s|, i requires 0 <= i < |s| => if EndsWord(s, i, delim) then NUL else s[i])
  }

  /** Delimiters followed by one token: nothing to mark. */
  lemma MarkedRun(ds: seq<char>, w: seq<char>, delim: set<char>)
    requires AllDelims(ds, delim) && Solid(w, delim)
    ensures Marked(ds + w, delim) == ds + w
  {
    var s := ds + w;
    forall i | 0 <= i < |s|
      ensures !EndsWord(s, i, delim)
    {
      if i < |ds| {
        assert s[i] == ds[i];
      } else {
        assert s[i] == w[i - |ds|];
      }
    }
  }

  /** A delimiter after a token is marked, and what follows it is marked on its own. */
  lemma MarkedCut(x: seq<char>, d: char, y: seq<char>, delim: set<char>)
    requires d in delim && |x| > 0 && x[|x| - 1] !in delim
    ensures Marked(x + [d] + y, delim) == Marked(x, delim) + [NUL] + Marked(y, delim)
  {
    var s := x + [d] + y;
    var lhs := Marked(s, delim);
    var rhs := Marked(x, delim) + [NUL] + Marked(y, delim);
    forall i | 0 <= i < |s|
      ensures lhs[i] == rhs[i]
    {
      if i < |x| {
        assert s[i] == x[i];
        assert i > 0 ==> s[i - 1] == x[i - 1];
      } else if i > |x| {
        var j := i - |x| - 1;
        assert s[i] == y[j];
        assert j > 0 ==> s[i - 1] == y[j - 1];
      }
    }
  }

  /** Delimiters, then a token, then the end of the line: exactly that token. */
  lemma WordsOfLast(ds: seq<char>, w: seq<char>, delim: set<char>)
    requires AllDelims(ds, delim) && w != [] && Solid(w, delim)
    ensures Words(ds + w, delim) == [w]
  {
    WordsSkip(ds, w, delim);
    WordsSolid(w, delim);
  }

  /** Delimiters, a token, one delimiter, then the rest: the token comes first and
      the rest supplies the remaining tokens. */
  lemma WordsOfMore(ds: seq<char>, w: seq<char>, d: char, tail: seq<char>, delim: set<char>)
    requires AllDelims(ds, delim) && w != [] && Solid(w, delim) && d in delim
    ensures Words(ds + w + [d] + tail, delim) == [w] + Words(tail, delim)
  {
    WordsOfLast(ds, w, delim);
    WordsSplit(ds + w, d, tail, delim);
  }

  /** Delimiters, a token, one delimiter, then the rest: only that delimiter is
      marked before the rest is marked on its own. */
  lemma MarkedOfMore(ds: seq<char>, w: seq<char>, d: char, tail: seq<char>, delim: set<char>)
    requires AllDelims(ds, delim) && w != [] && Solid(w, delim) && d in delim
    ensures Marked(ds + w + [d] + tail, delim) == ds + w + [NUL] + Marked(tail, delim)
  {
    MarkedRun(ds, w, delim);
    assert (ds + w)[|ds + w| - 1] == w[|w| - 1];
    MarkedCut(ds + w, d, tail, delim);
  }
}
