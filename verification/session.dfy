/** `communicate`: one client connection.  Bytes are read one at a time
    into a 256-byte buffer; a newline ends a request line, which is handed
    to `process_line` as a C string, and its reply is written back followed
    by a newline.  The connection ends well only at end of input with
    nothing buffered; a read error, an over-long line, leftovers at end of
    input, a failed request or a failed write end it badly.

    The reads are a sequence of results (an error, end of input or one
    byte); once the sequence is used up every further read reports end of
    input.  Every write of the session succeeds or every write fails, as
    `writeOk` says; `written` holds what was written successfully.  The
    reply of LIST and NUMCLIENTS is NULL, and `nullText` is what `"%s\n"`
    makes of it. */
module Session {
  import opened CScan
  import opened LineDispatch

  /** The result of one one-byte `client_read`: negative, zero or one. */
  datatype ReadResult = Failure | Eof | Byte(c: char)

  /** What a session returns, what it wrote, and the lines it handed to
      `process_line`, in order. */
  datatype Outcome = Outcome(ok: bool, written: string, lines: seq<string>)

  /** `sizeof(buf)`. */
  const BufferSize: nat := 256

  /** A line is refused once this many bytes are buffered without a
      newline (`sizeof(buf) - 1`). */
  const LineLimit: nat := BufferSize - 1

  /** The position of the first NUL at or after `i`, or |p| when there is
      none. */
  function NulEnd(p: string, i: nat): (k: nat)
    requires i <= |p|
    ensures i <= k <= |p|
    ensures forall j :: i <= j < k ==> p[j] != '\0'
    ensures k < |p| ==> p[k] == '\0'
    decreases |p| - i
  {
    if i < |p| && p[i] != '\0' then NulEnd(p, i + 1) else i
  }

  /** The C string stored at the start of `p`: everything before its first
      NUL. */
  function CString(p: string): (c: string)
    ensures |c| <= |p| && c == p[..|c|] && '\0' !in c
    ensures |c| < |p| ==> p[|c|] == '\0'
  {
    p[..NulEnd(p, 0)]
  }

  /** `string_format("%s\n", reply)`. */
  function Response(reply: Reply, nullText: string): (s: string)
    ensures |s| > 0 && s[|s| - 1] == '\n'
  {
    match reply
    case Text(t) => t + "\n"
    case NullReply => nullText + "\n"
  }

  /** An outcome preceded by what was written and dispatched before it. */
  function After(written: string, lines: seq<string>, o: Outcome): Outcome {
    Outcome(o.ok, written + o.written, lines + o.lines)
  }

  /** A complete request line is dispatched; on success its response is
      written and the session goes on as `rest` says. */
  function Serve(process: string -> Dispatch, line: string, writeOk: bool, nullText: string,
                 rest: Outcome): (o: Outcome)
    ensures 0 < |o.lines| && o.lines[0] == line
    ensures o.ok <==> process(line).Answered? && writeOk && rest.ok
    ensures !writeOk ==> o.written == [] && o.lines == [line]
  {
    match process(line)
    case Failed(_) => Outcome(false, [], [line])
    case Answered(reply) =>
      if writeOk then After(Response(reply, nullText), [line], rest)
      else Outcome(false, [], [line])
  }

  /** The rest of a session that hands its lines to `process`: reading
      resumes at `input[pos]`, and `pending` is buffered without a newline
      yet. */
  function Run(process: string -> Dispatch, input: seq<ReadResult>, pos: nat, pending: string,
               writeOk: bool, nullText: string): Outcome
    requires pos <= |input| && |pending| <= LineLimit
    decreases |input| - pos
  {
    if |pending| >= LineLimit then Outcome(false, [], [])
    else if pos == |input| then Outcome(pending == [], [], [])
    else
      match input[pos]
      case Failure => Outcome(false, [], [])
      case Eof => Outcome(pending == [], [], [])
      case Byte(c) =>
        if c == '\n' then
          Serve(process, CString(pending), writeOk, nullText,
                Run(process, input, pos + 1, [], writeOk, nullText))
        else Run(process, input, pos + 1, pending + [c], writeOk, nullText)
  }

  /** A whole session of `communicate`. */
  function Session(input: seq<ReadResult>, writeOk: bool, nullText: string): (o: Outcome)
    ensures forall i :: 0 <= i < |o.lines| ==> LineShape(o.lines[i])
    ensures writeOk ==> o.written == Answers(ProcessLine, o.lines, nullText)
    ensures o.ok ==> forall i :: 0 <= i < |o.lines| ==> ProcessLine(o.lines[i]).Answered?
  {
    RunShape(ProcessLine, input, 0, [], writeOk, nullText);
    Run(ProcessLine, input, 0, [], writeOk, nullText)
  }

  /** `communicate`, over an input of read results. */
  method Communicate(input: seq<ReadResult>, writeOk: bool, nullText: string)
    returns (ok: bool, written: string, lines: seq<string>)
    ensures Outcome(ok, written, lines) == Session(input, writeOk, nullText)
  {
    ok, written, lines := CommunicateVia(ProcessLine, input, writeOk, nullText);
  }

  /** The loop of `communicate`, with each complete line handed to
      `process`. */
  method CommunicateVia(process: string -> Dispatch, input: seq<ReadResult>, writeOk: bool,
                        nullText: string)
    returns (ok: bool, written: string, lines: seq<string>)
    ensures Outcome(ok, written, lines) == Run(process, input, 0, [], writeOk, nullText)
  {
    var buf := new char[BufferSize];
    var readBytes := 0;
    var pos := 0;
    written, lines := [], [];
    while true
      invariant 0 <= readBytes <= LineLimit && pos <= |input|
      invariant After(written, lines, Run(process, input, pos, buf[..readBytes], writeOk, nullText))
                == Run(process, input, 0, [], writeOk, nullText)
      decreases |input| - pos
    {
      if readBytes >= LineLimit {
        return false, written, lines;
      }
      var ret := if pos < |input| then input[pos] else Eof;
      if ret.Failure? {
        return false, written, lines;
      } else if ret.Eof? {
        return readBytes == 0, written, lines;
      }
      ghost var pending := buf[..readBytes];
      buf[readBytes] := ret.c;
      pos := pos + 1;
      var lastChar := buf[readBytes];
      if lastChar == '\n' {
        buf[readBytes] := '\0';
        assert buf[..readBytes + 1] == pending + ['\0'];
        var line := CString(buf[..readBytes + 1]);
        CStringTerminated(pending);
        readBytes := 0;
        var d := process(line);
        if d.Failed? {
          return false, written, lines + [line];
        }
        if !writeOk {
          return false, written, lines + [line];
        }
        AfterAfter(written, Response(d.reply, nullText), lines, [line],
                   Run(process, input, pos, [], writeOk, nullText));
        written, lines := written + Response(d.reply, nullText), lines + [line];
      } else {
        assert buf[..readBytes + 1] == pending + [ret.c];
        readBytes := readBytes + 1;
      }
    }
  }

  lemma AfterAfter(w1: string, w2: string, l1: seq<string>, l2: seq<string>, o: Outcome)
    ensures After(w1, l1, After(w2, l2, o)) == After(w1 + w2, l1 + l2, o)
  {
    assert w1 + (w2 + o.written) == (w1 + w2) + o.written;
    assert l1 + (l2 + o.lines) == (l1 + l2) + o.lines;
  }

  // ---------------------------------------------------------------------
  // C strings.
  // ---------------------------------------------------------------------

  lemma {:induction false} NulEndAt(p: string, i: nat, e: nat)
    requires i <= e <= |p|
    requires forall j :: i <= j < e ==> p[j] != '\0'
    requires e == |p| || p[e] == '\0'
    ensures NulEnd(p, i) == e
    decreases e - i
  {
    if i < e {
      NulEndAt(p, i + 1, e);
    }
  }

  /** A buffer without NUL is read whole. */
  lemma NoNulCString(p: string)
    requires '\0' !in p
    ensures CString(p) == p
  {
    NulEndAt(p, 0, |p|);
  }

  /** The terminator `communicate` writes over the newline ends the line
      just before it. */
  lemma CStringTerminated(p: string)
    ensures CString(p + ['\0']) == CString(p)
  {
    var q := p + ['\0'];
    var k := NulEnd(p, 0);
    NulEndAt(q, 0, k);
    assert q[..k] == p[..k];
  }

  /** A NUL inside the line cuts off what follows it. */
  lemma NulTruncates(x: string, y: string)
    requires '\0' !in x
    ensures CString(x + ['\0'] + y) == x
  {
    var p := x + ['\0'] + y;
    NulEndAt(p, 0, |x|);
    assert p[..|x|] == x;
  }

  // ---------------------------------------------------------------------
  // Inputs that carry given text.
  // ---------------------------------------------------------------------

  /** Reading from `pos` on yields the bytes of `w`. */
  predicate Reads(input: seq<ReadResult>, pos: nat, w: string) {
    pos + |w| <= |input| && forall i :: 0 <= i < |w| ==> input[pos + i] == Byte(w[i])
  }

  /** The reads that deliver `w`, one byte each. */
  function Bytes(w: string): (r: seq<ReadResult>)
    ensures Reads(r, 0, w) && |r| == |w|
  {
    seq(|w|, i requires 0 <= i < |w| => Byte(w[i]))
  }

  lemma ReadsSplit(input: seq<ReadResult>, pos: nat, u: string, v: string)
    requires Reads(input, pos, u + v)
    ensures Reads(input, pos, u) && Reads(input, pos + |u|, v)
  {
    forall i | 0 <= i < |u|
      ensures input[pos + i] == Byte(u[i])
    {
      assert (u + v)[i] == u[i];
    }
    forall i | 0 <= i < |v|
      ensures input[pos + |u| + i] == Byte(v[i])
    {
      assert (u + v)[|u| + i] == v[i];
    }
  }

  lemma ReadsAppend(input: seq<ReadResult>, u: string, rest: seq<ReadResult>)
    requires input == Bytes(u) + rest
    ensures Reads(input, 0, u)
  {
    forall i | 0 <= i < |u|
      ensures input[i] == Byte(u[i])
    {
      assert input[i] == Bytes(u)[i];
    }
  }

  /** Request lines, each followed by a newline. */
  function Frame(ls: seq<string>): string {
    if ls == [] then "" else ls[0] + "\n" + Frame(ls[1..])
  }

  /** What is written back for one line: its response, or nothing when it
      fails. */
  function ReplyText(process: string -> Dispatch, line: string, nullText: string): string {
    match process(line)
    case Answered(reply) => Response(reply, nullText)
    case Failed(_) => ""
  }

  /** What is written back for the lines in turn. */
  function Answers(process: string -> Dispatch, ls: seq<string>, nullText: string): string {
    if ls == [] then ""
    else ReplyText(process, ls[0], nullText) + Answers(process, ls[1..], nullText)
  }

  /** What a line handed over by `communicate` looks like: shorter than
      the limit, without newline or NUL. */
  predicate LineShape(l: string) {
    |l| < LineLimit && '\n' !in l && '\0' !in l
  }

  /** A line `communicate` hands over unchanged and that is answered. */
  predicate Servable(process: string -> Dispatch, l: string) {
    LineShape(l) && process(l).Answered?
  }

  // ---------------------------------------------------------------------
  // What a session does.
  // ---------------------------------------------------------------------

  /** Bytes other than newline are buffered, one read each. */
  lemma {:induction false} FeedBytes(process: string -> Dispatch, input: seq<ReadResult>, pos: nat,
                                     pending: string, w: string, writeOk: bool, nullText: string)
    requires Reads(input, pos, w) && '\n' !in w && |pending| + |w| < LineLimit
    ensures Run(process, input, pos, pending, writeOk, nullText)
            == Run(process, input, pos + |w|, pending + w, writeOk, nullText)
    decreases |w|
  {
    if w == [] {
      assert pending + w == pending;
    } else {
      assert input[pos + 0] == Byte(w[0]);
      ReadsSplit(input, pos, [w[0]], w[1..]);
      assert [w[0]] + w[1..] == w;
      assert '\n' !in w[1..] by {
        assert forall x :: x in w[1..] ==> x in w;
      }
      FeedBytes(process, input, pos + 1, pending + [w[0]], w[1..], writeOk, nullText);
      assert pending + [w[0]] + w[1..] == pending + w;
    }
  }

  /** A line and its newline: the C string of the line is handed over, and
      the session goes on after the newline with an empty buffer. */
  lemma LineStep(process: string -> Dispatch, input: seq<ReadResult>, pos: nat, l: string,
                 writeOk: bool, nullText: string)
    requires Reads(input, pos, l + "\n") && '\n' !in l && |l| < LineLimit
    ensures Run(process, input, pos, [], writeOk, nullText)
            == Serve(process, CString(l), writeOk, nullText,
                     Run(process, input, pos + |l| + 1, [], writeOk, nullText))
  {
    ReadsSplit(input, pos, l, "\n");
    FeedBytes(process, input, pos, [], l, writeOk, nullText);
    assert [] + l == l;
    assert "\n"[0] == '\n';
    assert input[pos + |l| + 0] == Byte('\n');
  }

  /** An answered line, with working writes: its response is written and
      the session goes on. */
  lemma ServeAnswered(process: string -> Dispatch, line: string, nullText: string, rest: Outcome)
    requires process(line).Answered?
    ensures Serve(process, line, true, nullText, rest)
            == After(ReplyText(process, line, nullText), [line], rest)
  {
  }

  /** An answered request line: its response is written and the session
      goes on after its newline. */
  lemma ServeFirst(process: string -> Dispatch, input: seq<ReadResult>, pos: nat, l: string,
                   nullText: string)
    requires Reads(input, pos, l + "\n") && Servable(process, l)
    ensures Run(process, input, pos, [], true, nullText)
            == After(ReplyText(process, l, nullText), [l],
                     Run(process, input, pos + |l| + 1, [], true, nullText))
  {
    LineStep(process, input, pos, l, true, nullText);
    NoNulCString(l);
    ServeAnswered(process, l, nullText, Run(process, input, pos + |l| + 1, [], true, nullText));
  }

  /** Pipelined requests: every line is answered in turn, and the session
      goes on after the last newline. */
  lemma {:induction false} ServeLines(process: string -> Dispatch, input: seq<ReadResult>, pos: nat,
                                      ls: seq<string>, nullText: string)
    requires Reads(input, pos, Frame(ls))
    requires forall i :: 0 <= i < |ls| ==> Servable(process, ls[i])
    ensures Run(process, input, pos, [], true, nullText)
            == After(Answers(process, ls, nullText), ls,
                     Run(process, input, pos + |Frame(ls)|, [], true, nullText))
    decreases |ls|, 1
  {
    if ls == [] {
      var o := Run(process, input, pos, [], true, nullText);
      assert "" + o.written == o.written && [] + o.lines == o.lines;
    } else {
      ServeLinesStep(process, input, pos, ls, nullText);
    }
  }

  /** The induction step of ServeLines. */
  lemma {:induction false} ServeLinesStep(process: string -> Dispatch, input: seq<ReadResult>,
                                          pos: nat, ls: seq<string>, nullText: string)
    requires ls != [] && Reads(input, pos, Frame(ls))
    requires forall i :: 0 <= i < |ls| ==> Servable(process, ls[i])
    ensures Run(process, input, pos, [], true, nullText)
            == After(Answers(process, ls, nullText), ls,
                     Run(process, input, pos + |Frame(ls)|, [], true, nullText))
    decreases |ls|, 0
  {
    var l, tl := ls[0], ls[1..];
    assert Servable(process, l);
    assert Frame(ls) == (l + "\n") + Frame(tl);
    ReadsSplit(input, pos, l + "\n", Frame(tl));
    var next := pos + |l| + 1;
    var r := Run(process, input, next + |Frame(tl)|, [], true, nullText);
    ServeFirst(process, input, pos, l, nullText);
    ServeLines(process, input, next, tl, nullText);
    AfterAfter(ReplyText(process, l, nullText), Answers(process, tl, nullText), [l], tl, r);
    assert [l] + tl == ls;
  }

  /** A single answered request, then end of input: its response is
      written and the session ends well. */
  lemma SingleRequest(process: string -> Dispatch, l: string, nullText: string)
    requires Servable(process, l)
    ensures Run(process, Bytes(l + "\n"), 0, [], true, nullText)
            == Outcome(true, ReplyText(process, l, nullText), [l])
  {
    ServeFirst(process, Bytes(l + "\n"), 0, l, nullText);
    var t := ReplyText(process, l, nullText);
    assert t + [] == t && [l] + [] == [l];
  }

  /** A client that sends well-formed, answerable requests and then closes
      the connection gets every response, in order, and the session ends
      well. */
  lemma PipelinedSession(process: string -> Dispatch, ls: seq<string>, nullText: string)
    requires forall i :: 0 <= i < |ls| ==> Servable(process, ls[i])
    ensures Run(process, Bytes(Frame(ls)), 0, [], true, nullText)
            == Outcome(true, Answers(process, ls, nullText), ls)
  {
    ServeLines(process, Bytes(Frame(ls)), 0, ls, nullText);
    assert Answers(process, ls, nullText) + [] == Answers(process, ls, nullText);
    assert ls + [] == ls;
  }

  /** A read error after any number of answered requests, and with any
      part of a further line buffered, ends the session badly, after the
      responses to those requests. */
  lemma ReadErrorFails(process: string -> Dispatch, ls: seq<string>, w: string,
                       rest: seq<ReadResult>, nullText: string)
    requires forall i :: 0 <= i < |ls| ==> Servable(process, ls[i])
    requires '\n' !in w && |w| < LineLimit
    ensures Run(process, Bytes(Frame(ls) + w) + [Failure] + rest, 0, [], true, nullText)
            == Outcome(false, Answers(process, ls, nullText), ls)
  {
    var input := Bytes(Frame(ls) + w) + [Failure] + rest;
    ReadsAppend(input, Frame(ls) + w, [Failure] + rest);
    assert input[|Frame(ls) + w|] == Failure;
    ReadErrorAfter(process, input, ls, w, nullText);
  }

  /** ReadErrorFails for any input that holds the lines, the partial line
      and then a failed read. */
  lemma ReadErrorAfter(process: string -> Dispatch, input: seq<ReadResult>, ls: seq<string>,
                       w: string, nullText: string)
    requires forall i :: 0 <= i < |ls| ==> Servable(process, ls[i])
    requires '\n' !in w && |w| < LineLimit
    requires Reads(input, 0, Frame(ls) + w)
    requires |Frame(ls) + w| < |input| && input[|Frame(ls) + w|] == Failure
    ensures Run(process, input, 0, [], true, nullText)
            == Outcome(false, Answers(process, ls, nullText), ls)
  {
    ReadsSplit(input, 0, Frame(ls), w);
    ServeLines(process, input, 0, ls, nullText);
    PartialLineError(process, input, |Frame(ls)|, w, true, nullText);
    assert Answers(process, ls, nullText) + [] == Answers(process, ls, nullText);
    assert ls + [] == ls;
  }

  /** A read error with part of a line buffered: nothing more is handed
      over or written. */
  lemma PartialLineError(process: string -> Dispatch, input: seq<ReadResult>, pos: nat, w: string,
                         writeOk: bool, nullText: string)
    requires Reads(input, pos, w) && '\n' !in w && |w| < LineLimit
    requires pos + |w| < |input| && input[pos + |w|] == Failure
    ensures Run(process, input, pos, [], writeOk, nullText) == Outcome(false, [], [])
  {
    FeedBytes(process, input, pos, [], w, writeOk, nullText);
    assert [] + w == w;
  }

  /** 255 bytes without a newline: the line is refused, and nothing is
      handed over or written. */
  lemma OverlongLineFails(process: string -> Dispatch, input: seq<ReadResult>, pos: nat, w: string,
                          writeOk: bool, nullText: string)
    requires Reads(input, pos, w) && |w| == LineLimit && '\n' !in w
    ensures Run(process, input, pos, [], writeOk, nullText) == Outcome(false, [], [])
  {
    var k := LineLimit - 1;
    ReadsSplit(input, pos, w[..k], w[k..]);
    assert w[..k] + w[k..] == w;
    assert '\n' !in w[..k] && w[k] != '\n' by {
      assert forall x :: x in w[..k] ==> x in w;
    }
    FeedBytes(process, input, pos, [], w[..k], writeOk, nullText);
    assert input[pos + k] == Byte(w[k]);
  }

  /** End of input with part of a line buffered: the session ends badly,
      with nothing handed over or written. */
  lemma LeftoversFail(process: string -> Dispatch, input: seq<ReadResult>, pos: nat, w: string,
                      writeOk: bool, nullText: string)
    requires Reads(input, pos, w) && 0 < |w| < LineLimit && '\n' !in w
    requires pos + |w| == |input| || input[pos + |w|] == Eof
    ensures Run(process, input, pos, [], writeOk, nullText) == Outcome(false, [], [])
  {
    FeedBytes(process, input, pos, [], w, writeOk, nullText);
    assert [] + w == w;
  }

  /** A request that is refused ends the session badly, with nothing
      written for it. */
  lemma FailedRequestFails(process: string -> Dispatch, input: seq<ReadResult>, pos: nat, l: string,
                           writeOk: bool, nullText: string)
    requires Reads(input, pos, l + "\n") && LineShape(l) && process(l).Failed?
    ensures Run(process, input, pos, [], writeOk, nullText) == Outcome(false, [], [l])
  {
    LineStep(process, input, pos, l, writeOk, nullText);
    NoNulCString(l);
  }

  /** A response that cannot be written ends the session badly. */
  lemma WriteFailureFails(process: string -> Dispatch, input: seq<ReadResult>, pos: nat, l: string,
                          nullText: string)
    requires Reads(input, pos, l + "\n") && LineShape(l)
    ensures Run(process, input, pos, [], false, nullText) == Outcome(false, [], [l])
  {
    LineStep(process, input, pos, l, false, nullText);
    NoNulCString(l);
  }

  /** A NUL byte inside a line: only what precedes it is handed over. */
  lemma EmbeddedNulTruncates(process: string -> Dispatch, input: seq<ReadResult>, pos: nat,
                             x: string, y: string, writeOk: bool, nullText: string)
    requires Reads(input, pos, x + ['\0'] + y + "\n")
    requires '\n' !in x + ['\0'] + y && '\0' !in x && |x + ['\0'] + y| < LineLimit
    ensures Run(process, input, pos, [], writeOk, nullText)
            == Serve(process, x, writeOk, nullText,
                     Run(process, input, pos + |x| + 1 + |y| + 1, [], writeOk, nullText))
  {
    LineStep(process, input, pos, x + ['\0'] + y, writeOk, nullText);
    NulTruncates(x, y);
  }

  lemma CStringShape(p: string)
    requires |p| < LineLimit && '\n' !in p
    ensures LineShape(CString(p))
  {
    var c := CString(p);
    assert forall x :: x in c ==> x in p;
  }

  /** Every session: the lines handed over have the shape above; with
      working writes, what is written is exactly the responses to those
      lines; with failing writes nothing is written and at most one line
      is handed over; and a session that ends well had every line
      answered. */
  lemma {:induction false} RunShape(process: string -> Dispatch, input: seq<ReadResult>, pos: nat,
                                    pending: string, writeOk: bool, nullText: string)
    requires pos <= |input| && |pending| <= LineLimit && '\n' !in pending
    ensures var o := Run(process, input, pos, pending, writeOk, nullText);
      && (forall i :: 0 <= i < |o.lines| ==> LineShape(o.lines[i]))
      && (writeOk ==> o.written == Answers(process, o.lines, nullText))
      && (!writeOk ==> o.written == [] && |o.lines| <= 1)
      && (o.ok ==> forall i :: 0 <= i < |o.lines| ==> process(o.lines[i]).Answered?)
    decreases |input| - pos
  {
    if |pending| < LineLimit && pos < |input| && input[pos].Byte? {
      var c := input[pos].c;
      if c == '\n' {
        RunShape(process, input, pos + 1, [], writeOk, nullText);
        CStringShape(pending);
        ServeShape(process, CString(pending), writeOk, nullText,
                   Run(process, input, pos + 1, [], writeOk, nullText));
      } else {
        assert '\n' !in pending + [c];
        RunShape(process, input, pos + 1, pending + [c], writeOk, nullText);
      }
    }
  }

  lemma ServeShape(process: string -> Dispatch, line: string, writeOk: bool, nullText: string,
                   rest: Outcome)
    requires LineShape(line)
    requires forall i :: 0 <= i < |rest.lines| ==> LineShape(rest.lines[i])
    requires writeOk ==> rest.written == Answers(process, rest.lines, nullText)
    requires rest.ok ==> forall i :: 0 <= i < |rest.lines| ==> process(rest.lines[i]).Answered?
    ensures var o := Serve(process, line, writeOk, nullText, rest);
      && (forall i :: 0 <= i < |o.lines| ==> LineShape(o.lines[i]))
      && (writeOk ==> o.written == Answers(process, o.lines, nullText))
      && (!writeOk ==> o.written == [] && |o.lines| <= 1)
      && (o.ok ==> forall i :: 0 <= i < |o.lines| ==> process(o.lines[i]).Answered?)
  {
    var o := Serve(process, line, writeOk, nullText, rest);
    if process(line).Answered? && writeOk {
      assert o.lines == [line] + rest.lines;
      assert o.lines[0] == line && o.lines[1..] == rest.lines;
    }
  }

  /** A line `process_line` answers with a text, sent alone: the text and
      a newline are written back and the session ends well. */
  lemma AnsweredSession(line: string, text: string, nullText: string)
    requires LineShape(line) && ProcessLine(line) == Answered(Text(text))
    ensures Session(Bytes(line + "\n"), true, nullText) == Outcome(true, text + "\n", [line])
  {
    SingleRequest(ProcessLine, line, nullText);
  }

  /** The request of the protocol test, sent alone: "100 + 5 5\n" is
      answered "100 + 5 5 = 10\n" and the session ends well. */
  lemma SumSession(line: string, nullText: string)
    requires line == "100 + 5 5"
    ensures Session(Bytes(line + "\n"), true, nullText)
            == Outcome(true, "100 + 5 5 = 10\n", [line])
  {
    SumExample(line);
    ExampleShape(line);
    AnsweredSession(line, "100 + 5 5 = 10", nullText);
  }

  lemma ExampleShape(line: string)
    requires line == "100 + 5 5"
    ensures LineShape(line)
  {
  }
}
