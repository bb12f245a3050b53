# A model of the shell's line reader, argument splitter and dispatch loop

The shell reads one line at a time from standard input. `getInputFromUser`
collects the characters before the newline into a heap buffer that grows one
cell per character. Next, `main` checks whether the line asks to leave
(`exit` alone, or `exit ` followed by anything). If it does not, `splitArgument`
cuts the buffer in place with `strtok(…, " ")` and builds a NULL-terminated
array of pointers to the tokens. Finally, `main` looks up the C string at the
start of the cut buffer in a fixed table (`echo`, `cd`, `cp`) and calls the
matching handler with that array, or prints `Command not found: <key>`.

The Dafny project models these pieces on immutable values:

- `cstring.dfy` (module `CString`): buffers as `seq<char>` that end in a
  terminator, pointers into them (`Ptr = Null | Ptr(offset)`), the C string seen
  from a position (`CStr`), and `strncmp(a, b, n) == 0`.
- `delimited.dfy` (module `Delimited`): the reference meaning of splitting.
  `Fields` cuts at every delimiter and `Words` drops the empty pieces. `Join`
  glues pieces back together, and `Marked` gives the buffer with the terminators
  that tokenizing writes.
- `tokenizer.dfy` (module `Tokenizer`): one `strtok` call as a function of the
  buffer and an explicit cursor (`StrTok`), and the calls repeated until one
  returns NULL (`Drain`). Both are proved against the reference.
- `split_argument.dfy` (module `Argv`): `splitArgument` as a function
  (`SplitArgument`) and as the C loop with its `realloc` steps
  (`SplitArgumentArray`). The loop is proved to compute the function.
- `line_input.dfy` (module `LineInput`): `getInputFromUser` as a function of
  the input stream (`ReadLine`) and as the C loop (`GetInputFromUser`).
- `shell.dfy` (module `Shell`): the command table and its linear search, the
  exit test, one pass of the loop body (`Evaluate`), and the whole loop over an
  input stream (`Session`). The loop is proved equal to a transcript of the
  input's complete lines.

The source files are `myFunction.c`, `myShell.c` and `myFunction.h`. The shell
has no quoting and no pipe handling: it splits on single spaces with `strtok`
and dispatches only to three built-in handlers.

`splitArgument` calls the library `strtok`. `myFunction.h` documents a
`my_strtok` with the same contract, but its implementation is not part of this
model. `StrTok` follows that documented contract, which is also the standard
`strtok` behaviour: skip leading delimiters; at the terminator return NULL and
stay there; otherwise the token runs to the next delimiter or terminator, a
delimiter ending it becomes a terminator, and the saved position moves just past
it.

## Model

| member | source | states |
|---|---|---|
| CString.StrNCmpZero | myShell.c:23 | `strncmp(a, b, n) == 0` implies that the strings agree on every position both have among the first `n`, and that a string ending within the first `n` characters is matched by one ending at the same place. |
| CString.StrNCmpZeroPrefixes | myShell.c:23 | `strncmp(a, b, n) == 0` holds exactly when the first `n` characters of both strings agree, a shorter string counting as its whole self. |
| Tokenizer.StrTok | myFunction.h:94-128 | One call: the buffer keeps its length; a token lies at or after the saved position and before the new one; the saved position never moves back; nothing up to the token's first cell is written; with no string in progress the call returns NULL. |
| Tokenizer.StrTokFound | myFunction.h:106-111 | When a token is returned: only delimiters precede it, it is the maximal run of non-delimiters, only the cell ending it is overwritten with a terminator, and the saved position is just past that cell (or on the terminator). |
| Tokenizer.StrTokExhausted | myFunction.h:118-128 | NULL is returned only when nothing but delimiters remains before the terminator; the buffer is unchanged and the remaining string has no words. |
| Tokenizer.StepWords | myFunction.h:106-111 | The token a call returns is the first word of the remaining string, and the string at the new position holds exactly the other words. |
| Tokenizer.Drain | myFunction.c:71-82 | Repeated calls return strictly increasing token positions, all inside the buffer, and never write at or before the starting position. |
| Tokenizer.DrainWords | myFunction.c:71-82 | The strings the repeated calls return, read from the final buffer, are exactly the words of the original string, in order. |
| Tokenizer.DrainMarks | myFunction.h:83-85 | The final buffer is the original with exactly those delimiters that end a word replaced by terminators; all other cells are unchanged. |
| Delimited.JoinFields | myFunction.h:68-73 | Cutting a line at every space and joining the pieces with spaces gives the line back. |
| Delimited.WordsJoin | myFunction.h:68-73 | Non-empty, space-free tokens joined by single spaces split back into the same tokens. |
| Argv.SplitArgument | myFunction.c:49-86 | The cut buffer keeps its length and terminator; every pointer in the array points into the buffer; the array has at least two slots and ends with NULL. |
| Argv.SplitArgumentWords | myFunction.h:78-80 | The strings in the array before its NULL are exactly the space-separated words of the line, in order. |
| Argv.SplitArgumentSize | myFunction.c:72-83 | An array for `n` words has `n + 1` slots (two when there is no word), and slot `n` is NULL. |
| Argv.SplitArgumentShape | myFunction.c:75-83 | The array is either two NULLs or non-NULL pointers followed by one NULL, and the pointers point to strictly increasing positions. |
| Argv.SplitArgumentBuffer | myFunction.h:75-76 | The line is modified in place: the space ending each word becomes a terminator and nothing else changes. |
| Argv.SplitJoin | myFunction.h:68-80 | Splitting the line obtained by joining non-empty, space-free words with single spaces returns those words. |
| Argv.CallStrTok | myFunction.c:76 | One call of the tokenizer inside the loop: either NULL with nothing changed, or the next pointer, with the remaining calls still owing the rest of the tokens. |
| Argv.CollectTokens | myFunction.c:76-83 | The `while` loop that grows the array by one slot per token ends with the array holding every token pointer followed by NULL. |
| Argv.SplitArgumentArray | myFunction.c:71-85 | The C procedure (first call, two-slot array, `realloc` per further token, final NULL store) produces exactly the buffer and array of `SplitArgument`, whatever the fresh slots held. |
| LineInput.ReadLine | myFunction.h:36-47 | The returned buffer holds the characters before the first newline followed by a terminator; the newline is consumed but not stored; the rest of the input is left unread. |
| LineInput.ReadLineAt | myFunction.c:37-44 | Reading stops at the first newline, wherever it is. |
| LineInput.ReadLineFields | myFunction.h:36-42 | The line read is the first newline-separated field of the input, and the input left over holds the remaining fields. |
| LineInput.GetInputFromUser | myFunction.c:31-46 | The C loop (one-cell buffer, store and `realloc` per character, terminator in the last cell) returns the `ReadLine` buffer and consumes exactly the line and its newline, whatever the fresh cells held. |
| Shell.Find | myShell.c:31-40 | The linear search stops at the first entry whose name equals the key; every earlier entry differs; reaching the end means no entry has that name. |
| Shell.CommandIndexes | myShell.c:12-15 | The table holds `echo`, `cd` and `cp` in that order, each with its own handler, and the search finds each name at its place. |
| Shell.IsExitLine | myShell.c:23 | A line that passes the exit test starts with `exit` and either ends there or continues with a space. |
| Shell.IsExitLinePrefix | myShell.c:23 | The exit test accepts exactly `exit` alone and lines whose first five characters are `exit `. |
| Shell.ExitExamples | myShell.c:23-28 | `exit`, `exit now` and `exit ` leave the shell; `exits`, ` exit`, `EXIT` and `exi` do not. |
| Shell.Evaluate | myShell.c:22-44 | One pass leaves exactly on exit lines, passing the line on; a "not found" report carries the key read from the cut buffer. |
| Shell.Key | myShell.c:30-34 | The key compared with the table is the C string at the start of the cut buffer, and it is fixed by the first tokenizer call: later calls never write into it. |
| Shell.DispatchKey | myShell.c:30-34 | The key is a prefix of the line: the whole line if it holds no word, otherwise the leading spaces followed by the first word. |
| Shell.KeyIsFirstWord | myShell.c:30-34 | For a line that does not start with a space, the key is its first word. |
| Shell.EvaluateRuns | myShell.c:30-40 | A handler runs exactly when the line is not an exit line, starts with a non-space character and its first word names a table entry; that entry's handler then receives every word of the line, the command name first. |
| Shell.LeadingSpaceNotFound | myShell.c:34-44 | A line that starts with a space never reaches a handler, even when its first word names one, because the key keeps the leading spaces. |
| Shell.RunExample | myShell.c:12-37 | `cp a b` calls the `cp` handler with the arguments `cp`, `a`, `b`. |
| Shell.NotFoundExample | myShell.c:41-44 | ` cd a` is reported as not found. |
| Shell.Session | myShell.c:19-48 | The loop produces an outcome exactly when the input holds a complete line. |
| Shell.SessionStopsAtExit | myShell.c:19-48 | Only the last outcome of a session can be an exit: the loop leaves right after the first exit line. |
| Shell.SessionLines | myShell.c:19-48 | The loop's outcomes are the outcomes of the input's complete lines, evaluated in order up to and including the first exit line. |

## Left out

- `getLocation` (the prompt with host name and working directory), `welcome`, `printCastle` and `printLineWithDelay` (the banner): terminal output only, with no effect on what a line does.
- The bodies of `echo`, `cd`, `cp` and `logout` are not part of this model. A call to a handler is recorded as `Run(handler, arguments)`, and leaving the shell as `Exit(line)`.
- Printing `Command not found: <key>` is recorded as `NotFound(key)`.
- `malloc` and `realloc` failure. `myFunction.h` says both functions return NULL then, but the code never checks. The model assumes every allocation succeeds.
- `free` and memory ownership: the model has no heap.
- The contents of freshly allocated cells are indeterminate in C. `GetInputFromUser` and `SplitArgumentArray` take an arbitrary value `fill`: every cell that `malloc` or `realloc` adds holds it until written. So it is the closing store of the terminator, and of NULL, that terminates each result. The model does not let different fresh cells hold different values.
- The static pointer inside `strtok` is an explicit cursor that each call takes and returns.
- `LineInput.GetInputFromUser`, `LineInput.ReadLine`: require a newline in the input. At end of input `getchar` returns `EOF`, which the C code stores in a `char` and compares with `'\n'`, so its loop never ends. `Session` likewise stops when no complete line is left, while the C loop would keep reading.
- `Argv.SplitArgument`: the NULL-input case of `myFunction.h` is not modelled, because the line passed in is never NULL in `main`.
- The `int` counters `size` and `index` of `getInputFromUser` and `splitArgument` would overflow past `INT_MAX` characters or tokens; the model's integers are unbounded, so lines and token counts of any length behave alike.
- A C `char` is one byte, while the model's `char` is a Unicode character: a multibyte character in the input is one cell here but several bytes, and several `getchar` results, in C. Newline, space and the terminator are single bytes, so splitting and the exit test treat ASCII input the same way.
