# cserver, modelled in Dafny

`cserver` is a small line-oriented TCP server in C.  A pool of 64 worker
threads takes accepted connections from a shared, intrusive doubly-linked
list of clients. Each worker runs one protocol session per connection:

- it reads the connection one byte at a time into a 256-byte buffer;
- on each newline it hands the line to `process_line`;
- it writes back the reply followed by a newline.

`process_line` scans the line into four fields: a tag, an operator and two
arguments. It answers `+` with the fields and the sum of the two arguments.
It accepts `LIST` and `NUMCLIENTS`, which are unimplemented stubs that leave
the reply NULL. Anything else fails.

This project models the three parts of that core:

- `cscan.dfy` (module `CScan`): what `sscanf(line, "%19s %19s %19s %19s", ...)`
  stores.
  - White space is that of `isspace` in the "C" locale.
  - A conversion stores at most 19 non-space characters.
  - A longer token is split, and the next conversion continues where the
    previous one stopped, as section 7.21.6.2 of ISO/IEC 9899:2011 describes.
  - Scanning is proved equal to an independent description: the line's
    white-space-separated words, each cut into 19-character pieces.
- `cint.dfy` (module `CInt`): `atoi` (section 7.22.1.2 of ISO/IEC 9899:2011)
  and the `%d` conversion, with their round trip.
- `dispatch.dfy` (module `LineDispatch`): `process_line`, as a pure function
  from the line to either a reply or an error message.
- `session.dfy` (module `Session`): `communicate`.
  - Reading is modelled by the sequence of results the client's read hook
    returns: an error, end of file, or one byte. Once the sequence is used
    up, every read reports end of file.
  - Writing is modelled by a flag that says whether writes succeed, plus the
    text written so far.
  - The session is specified by the recursive function `Run`. The method
    `CommunicateVia` keeps the source's loop, the 256-byte buffer as an array
    and its byte count, and is proved to compute `Run`.
  - The line processor is a parameter. The source's comment at
    cserver.c:211-213 allows it to be replaced by a function with similar
    semantics. `Communicate` passes `ProcessLine`.
- `connections.dfy` (module `Connections`): the server's list of clients,
  with its `head`, `tail`, the cursor `next` and the count `connections`.
  - Client records are named by ids. Their `next_client` and `prev_client`
    fields are maps.
  - The class `Server` performs each step in place, and is proved to equal a
    function on a `ClientList` value.
  - The list invariants are proved about those functions, against the list
    each state stands for (`ListOf`).

Two points where the code's behaviour is easy to misread:

- `server_accept_connection` sets the cursor whenever it is NULL, not only
  when the list was empty.
- A line is accepted only if at most 254 bytes precede its newline, because
  the length check at cserver.c:266 runs before each read. A line of 255
  bytes fails.

## Model

| member | source | states |
|---|---|---|
| `CScan.ScanField` | cserver.c:222-226 | One `%19s` conversion fails exactly when nothing but white space is left. Otherwise it skips only white space, stores the 1 to 19 non-space characters that follow and moves past them; a field shorter than 19 ends at the end of the line or at white space |
| `CScan.ScanFields` | cserver.c:222-227 | At most the requested number of fields is stored, so `ret` never exceeds 4 |
| `CScan.ScanFieldPieces` | cserver.c:222-226 | A conversion fails exactly when no piece of the rest of the line is left, and otherwise stores the first piece and leaves the others |
| `CScan.ScanFieldsAll` | cserver.c:222-227 | The fields stored are the first n pieces of the line: its white-space-separated words, each cut into 19-character pieces |
| `CScan.PiecesLongWord` | cserver.c:222-226 | A word longer than 19 characters yields its first 19 characters as one field, and scanning resumes right after them |
| `CScan.PiecesAppend` | cserver.c:222-226 | Text that starts with white space, appended to a line, only adds its own pieces after the line's |
| `CScan.FieldPieces` | cserver.c:222-226 | A 1-to-19-character token with no white space scans back as exactly itself |
| `CInt.Atoi` | cserver.c:235-236 | Text without a decimal digit converts to 0, and a negative value needs a minus sign in the text |
| `CInt.FormatInt` | cserver.c:237-239 | `%d` writes a minus sign exactly for a negative number, and then only decimal digits, at least one |
| `CInt.AtoiDigits` | cserver.c:235-236 | `atoi` of a run of decimal digits followed by a non-digit is the value of the digits |
| `CInt.AtoiNegativeDigits` | cserver.c:235-236 | A leading minus sign negates the value |
| `CInt.AtoiPlusDigits` | cserver.c:235-236 | A leading plus sign is accepted and leaves the value of the digits unchanged |
| `CInt.AtoiNoNumber` | cserver.c:235-236 | Text that starts with neither white space, a sign nor a digit converts to 0 |
| `CInt.FormatNatValue` | cserver.c:237-239 | The `%d` digits of a natural number have that value and no leading zero |
| `CInt.AtoiFormatInt` | cserver.c:235-239 | `atoi` reads back every integer printed with `%d`, whatever non-digit text follows (round trip) |
| `LineDispatch.ProcessLine` | cserver.c:214-257 | A failure carries one of the two messages, "Failed to parse line" or "unknown op" |
| `LineDispatch.SumReply` | cserver.c:237-239 | The reply is the four fields joined by single spaces and " = ", followed by exactly the `%d` text of the sum and nothing else; `atoi` reads that text back as the sum of the two arguments' `atoi` values |
| `LineDispatch.ProcessLineByPieces` | cserver.c:222-256 | Fewer than four pieces is exactly a parse failure; with four or more, `+` is answered with the sum reply of the first four, `LIST` and `NUMCLIENTS` succeed with a NULL reply, any other operator fails with "unknown op" |
| `LineDispatch.TrailingTextIgnored` | cserver.c:222-226 | Text after the fourth field, set off by white space, does not change the outcome |
| `LineDispatch.JoinFieldsPieces` | cserver.c:222-226 | Fields joined by single spaces scan back as the same fields (round trip between writing a request and scanning it) |
| `LineDispatch.SumRequest` | cserver.c:233-240 | A `+` request with fields of at most 19 characters is answered "tag + arg1 arg2 = sum", the sum of the `atoi` values, even with trailing text |
| `LineDispatch.OverlongFieldSplit` | cserver.c:222-226 | A third token of 20 to 38 characters is split into two fields, its first 19 characters and the rest |
| `LineDispatch.SumExample` | cserver.c:233-240 | "100 + 5 5" is answered "100 + 5 5 = 10" |
| `LineDispatch.UnknownOperatorExample` | cserver.c:251-255 | "100 ' 5 5" fails with "unknown op" |
| `LineDispatch.MissingFieldExample` | cserver.c:227-231 | "100 + 5" fails to parse |
| `Session.CString` | cserver.c:299-300 | The line handed to the processor is the buffer up to its first NUL, without NUL |
| `Session.NulTruncates` | cserver.c:299-300 | Bytes after an embedded NUL are not part of the line |
| `Session.CStringTerminated` | cserver.c:299 | Writing NUL over the newline hands over the buffered bytes as a C string |
| `Session.Response` | cserver.c:313 | Every response ends in a newline |
| `Session.Serve` | cserver.c:295-321 | A complete line is handed over first; the session can end well only if the line is answered, the write works and the rest of the session ends well; with failing writes nothing is written and no further line is handed over |
| `Session.Run` | cserver.c:259-330 | The session outcome from a read position and the bytes buffered; `CommunicateVia` is proved to compute it and `RunShape` states what it promises |
| `Session.Session` | cserver.c:259-330 | `communicate` with `process_line`: every line handed over is under 255 bytes without newline or NUL; with working writes the text written is the replies to those lines in order; a true result means every line was answered |
| `Session.CommunicateVia` | cserver.c:259-330 | The read loop, with the 256-byte buffer and its count, computes exactly the session outcome `Run`: the result, the text written and the lines handed over |
| `Session.Communicate` | cserver.c:259-330 | `communicate` with `process_line` computes `Session` |
| `Session.FeedBytes` | cserver.c:324-327 | Each byte other than newline is appended to the buffer, one read each |
| `Session.LineStep` | cserver.c:293-303 | A newline hands the buffered bytes, without the newline and cut at a NUL, to the processor, and the buffer starts over empty |
| `Session.OverlongLineFails` | cserver.c:266-270 | 255 bytes without a newline end the session with false and nothing written, whatever follows |
| `Session.ReadErrorFails` | cserver.c:271-277 | A failed read, after any number of answered lines and with any part of a further line buffered, ends the session with false; the replies to the lines before it stay written |
| `Session.LeftoversFail` | cserver.c:278-290 | End of file with bytes in the buffer ends the session with false |
| `Session.FailedRequestFails` | cserver.c:304-310 | A line the processor rejects ends the session with false and nothing written for it |
| `Session.WriteFailureFails` | cserver.c:312-321 | When writing fails, the first complete line ends the session with false |
| `Session.EmbeddedNulTruncates` | cserver.c:293-300 | A line with an embedded NUL is handled as its part before the NUL |
| `Session.ServeLines` | cserver.c:293-323 | Complete lines that are answered are handed over in order, and their replies are written in order |
| `Session.SingleRequest` | cserver.c:259-330 | One answered line, then end of file: true, its reply written |
| `Session.PipelinedSession` | cserver.c:259-330 | Answered lines one after another, then end of file: true, all replies written in order; with no lines at all, end of file on the empty buffer gives true |
| `Session.RunShape` | cserver.c:259-330 | In every session, each line handed over is under 255 bytes, with no newline or NUL. With working writes, the text written is the replies to those lines in order. Otherwise nothing is written and at most one line is handed over. A true result means every line was answered |
| `Session.AnsweredSession` | cserver.c:295-321 | A single answered request gets its reply text and a newline back, and the session ends true at end of file |
| `Session.SumSession` | cserver.c:295-321 | The session "100 + 5 5\n" writes "100 + 5 5 = 10\n" and returns true |
| `Connections.SourceInvariant` | cserver.c:63-66 | The assertion a worker checks before each claim, the same as the one at cserver.c:136-139 before each append: head and tail are NULL together, and more than 64 connections only while the cursor is set |
| `Connections.DestroyAssertion` | cserver.c:43-45 | The assertion before an unlink: at least one connection, head and tail set; it implies the assertion at cserver.c:63-66 |
| `Connections.Accept` | cserver.c:140-146 | Appending as written keeps the assertion at cserver.c:136-139 true, counts one more connection, makes the new client the tail, keeps a set cursor and sets a NULL one, and leaves the new client's `prev_client` NULL |
| `Connections.AcceptLinked` | cserver.c:140-146 | The corrected append does the same, with the new client's `prev_client` pointing at the old tail |
| `Connections.Claim` | cserver.c:71-72 | A claim moves only the cursor: head, tail, count and every link stay |
| `Connections.Destroy` | cserver.c:46-54 | An unlink counts one connection fewer and leaves the cursor alone; a client whose `prev_client` is NULL passes its successor to head, one whose `next_client` is NULL passes its predecessor to tail |
| `Connections.ListOf` | cserver.c:63-66 | Every state that stands for a list satisfies the server's assertion: no connections exactly when head is NULL and exactly when tail is NULL, and more than 64 connections only while the cursor is set |
| `Connections.EmptyList` | cserver.c:93-98 | The zero-filled server record is the empty list |
| `Connections.AcceptKeepsList` | cserver.c:130-150 | Appending as written puts the new client at the tail, sets the cursor to it when the cursor was NULL, counts one more connection and keeps every `prev_client` NULL |
| `Connections.AcceptLinkedKeepsList` | cserver.c:130-150 | Appending with the back link set does the same and keeps every `prev_client` pointing at the previous client |
| `Connections.ClaimAdvances` | cserver.c:69-72 | A claim takes the first unclaimed client and moves the cursor to the client after it, or to NULL |
| `Connections.DestroyHeadKeepsList` | cserver.c:40-56 | Unlinking the head as written leaves the rest of the list in order, one connection fewer, with the cursor in place |
| `Connections.DestroyNonHeadBreaksList` | cserver.c:40-56 | Unlinking any other client as written moves the head past all clients before it, and the fields then stand for no list with the counted number of clients |
| `Connections.NonHeadExample` | cserver.c:40-56 | Two clients accepted and claimed, the second removed first: one connection is counted while head and tail are NULL, so the assertion at cserver.c:63-66 fails |
| `Connections.DestroyKeepsList` | cserver.c:40-56 | With the back links set, unlinking any claimed client removes exactly that client and keeps the list and its back links well formed |
| `Connections.NonHeadLinkedExample` | cserver.c:40-56 | The same two-client case with the back links set leaves the first client alone in the list, and the assertion holds |
| `Connections.Server.constructor` | cserver.c:93-98 | A new server record holds the empty list |
| `Connections.Server.AcceptConnection` | cserver.c:130-150 | The in-place append returns TRUE and leaves exactly the state `Accept` describes |
| `Connections.Server.AcceptConnectionLinked` | cserver.c:130-150 | The corrected in-place append returns TRUE and leaves the state `AcceptLinked` describes |
| `Connections.Server.ClaimClient` | cserver.c:69-72 | The worker gets the client at the cursor, and the state becomes `Claim` of the old one |
| `Connections.Server.DestroyClient` | cserver.c:40-56 | The in-place unlink leaves exactly the state `Destroy` describes |

## Left out

- Threads and locking are left out. This covers the worker loop of
  `server_thread`, the mutex and condition variable, `server_shutdown`, the
  `pool_size` countdown at shutdown and `server_destroy`. Each list step runs
  on its own.
  - The worker's wait at cserver.c:69-70 becomes the precondition that the
    cursor is set.
  - That a free worker exists becomes the bound on claimed clients in
    `Connections.ClaimAdvances`.
- The worker loop itself is not a program of the model. Its claim,
  `communicate` and unlink are separate operations.
- The assertions are modelled as preconditions, not as program aborts:
  - the assertion at cserver.c:136-139 is a precondition of the append;
  - the one at cserver.c:43-45 is a precondition of the unlink.
- Client allocation and release are left out. For `client_create` and
  `client_destroy`, a fresh id stands for a new record, and a released
  record's map entries stay.
- Sockets, `read`, `write`, `fsync` and `close` are left out. The default
  read and write hooks are replaced by the sequence of read results and the
  write flag.
- `Session.Communicate`: every write of a session succeeds or every write
  fails. A write that fails after earlier ones succeeded is not modelled.
- Each read delivers one byte, as the source asks for one. A byte is
  modelled as a `char`.
- The text that `string_format("%s\n", NULL)` produces for the NULL reply of
  `LIST` and `NUMCLIENTS` depends on the C library. It is the parameter
  `nullText`. What those stubs should eventually report is not modelled.
- Integer overflow is not modelled: `atoi` and `num1 + num2` on C `int`
  overflow with undefined behaviour, and the model uses unbounded integers.
- `sscanf` returns EOF (-1), not 0, when no field can be read. Both differ
  from 4 and take the same branch, so the model uses the number of fields
  stored.
- Logging (`warning`, `DEBUG`) and freeing the error and reply strings are
  left out.
- util.c, app.c, client.py and t-cserver.c are not part of this model.

## Findings

| source | as written | input that shows it | evidently intended | confidence | as-written member | corrected member |
|---|---|---|---|---|---|---|
| cserver.c:140-143 | `server_accept_connection` links a new client after the tail but never sets its `prev_client`. Every `prev_client` therefore stays NULL, and `server_destroy_client` (cserver.c:46-53) unlinks every client as if it were the head | Two clients are accepted and both claimed, and the second finishes first. Head and tail become NULL while `connections` is 1, so the assertion fails at the next claim (cserver.c:63-66), which the worker that did the unlink reaches first at its next pass through the loop, or at the next append (cserver.c:136-139) | Set the new client's `prev_client` to the old tail when appending, so any client can be unlinked | not executed | `Connections.DestroyNonHeadBreaksList` | `Connections.DestroyKeepsList` |
