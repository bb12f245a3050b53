/** `getInputFromUser`: read characters from standard input up to the next
    newline into a heap buffer that grows by one cell per character, and
    terminate it. The input stream is a parameter: the characters `getchar`
    would return, in order.
 */
module LineInput {
  import opened CString
  import opened Delimited

  const Newline: char := '\n'

  /** The buffer returned, and the input left unread after the newline. */
  datatype Read = Read(buf: seq<char>, rest: seq<char>)

  /** The line that `getInputFromUser` returns: everything before the first
      newline, then the terminator; the newline itself is consumed. */
  function ReadLine(input: seq<char>): (r: Read)
    requires Newline in input
    ensures Terminated(r.buf)
    ensures input == r.buf[..|r.buf| - 1] + [Newline] + r.rest
    ensures Newline !in r.buf[..|r.buf| - 1]
  {
    if input[0] == Newline then Read([NUL], input[1..])
    else
      var r := ReadLine(input[1..]);
      assert ([input[0]] + r.buf)[..|r.buf|] == [input[0]] + r.buf[..|r.buf| - 1];
      Read([input[0]] + r.buf, r.rest)
  }

  /** Dropping the first character of the input shifts every index by one. */
  lemma ShiftInput(input: seq<char>, i: nat)
    requires 0 < i < |input|
    ensures input[1..][..i - 1] == input[1..i]
    ensures input[1..][i - 1 + 1..] == input[i + 1..]
    ensures [input[0]] + (input[1..i] + [NUL]) == input[..i] + [NUL]
  {
  }

  /** A prefix free of newlines stays free of them without its first character,
      and that first character is not a newline. */
  lemma NoNewlineShift(input: seq<char>, i: nat)
    requires 0 < i < |input| && Newline !in input[..i]
    ensures input[0] != Newline && Newline !in input[1..i]
  {
    assert input[0] == input[..i][0];
    forall j | 0 <= j < i - 1
      ensures input[1..i][j] != Newline
    {
      assert input[1..i][j] == input[..i][j + 1];
    }
  }

  /** `ReadLine` stops at the first newline, wherever that is. */
  lemma {:induction false} ReadLineAt(input: seq<char>, i: nat)
    requires i < |input| && input[i] == Newline && Newline !in input[..i]
    ensures ReadLine(input) == Read(input[..i] + [NUL], input[i + 1..])
  {
    if i > 0 {
      ShiftInput(input, i);
      NoNewlineShift(input, i);
      ReadLineAt(input[1..], i - 1);
    }
  }

  /** The line read is the first newline-separated field of the input, and the
      input left over holds the remaining fields. */
  lemma ReadLineFields(input: seq<char>)
    requires Newline in input
    ensures var r := ReadLine(input);
            var fs := Fields(input, {Newline});
            && r.buf[..|r.buf| - 1] == fs[0]
            && Fields(r.rest, {Newline}) == fs[1..]
  {
    var r := ReadLine(input);
    var line := r.buf[..|r.buf| - 1];
    FieldsSplit(line, Newline, r.rest, {Newline});
    assert Solid(line, {Newline}) by {
      assert forall j :: 0 <= j < |line| ==> line[j] in line;
    }
    FieldsSolid(line, {Newline});
  }

  /** `getInputFromUser` as the C code runs it: a one-cell buffer, then for every
      character before the newline a store and a `realloc` to one cell more, and
      finally the terminator in the last cell. A cell `malloc` or `realloc` has
      just provided holds the arbitrary character `fill` until it is written.
      Returns the buffer and how many characters were consumed, the newline
      included. */
  method GetInputFromUser(input: seq<char>, fill: char) returns (str: seq<char>, consumed: nat)
    requires Newline in input
    ensures consumed <= |input|
    ensures Read(str, input[consumed..]) == ReadLine(input)
  {
    var size := 1;
    var index := 0;
    str := [fill];
    var ch := input[0];
    consumed := 1;
    while ch != Newline
      invariant |str| == size == index + 1
      invariant consumed == index + 1 <= |input| && ch == input[index]
      invariant str[..index] == input[..index] && str[index] == fill
      invariant Newline !in input[..index]
      invariant Newline in input[index..]
      decreases |input| - index
    {
      str := str[index := ch];
      size := size + 1;
      index := index + 1;
      str := str + [fill];
      assert input[..index] == input[..index - 1] + [ch];
      assert input[index - 1..] == [ch] + input[index..];
      ch := input[index];
      consumed := consumed + 1;
    }
    str := str[index := NUL];
    ReadLineAt(input, index);
    assert str == input[..index] + [NUL];
  }
}
