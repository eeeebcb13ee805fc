/** `process_line`: one request line is scanned into four fields
    (tag, operator, two arguments) and dispatched on the operator.  Only
    `+` builds a reply; `LIST` and `NUMCLIENTS` succeed with the reply left
    NULL; any other operator, and a line with fewer than four fields, fail
    with an error message and no reply. */
module LineDispatch {
  import opened CScan
  import opened CInt

  /** What `process_line` leaves in `*reply_ret` when it succeeds. */
  datatype Reply = Text(text: string) | NullReply

  datatype Dispatch = Answered(reply: Reply) | Failed(message: string)

  /** The messages `process_line` leaves in `*errors_ret`. */
  const ParseFailure := "Failed to parse line"
  const UnknownOperation := "unknown op"

  /** The fields joined by single spaces, as "%s %s %s %s" prints them. */
  function Join(fs: seq<string>): string {
    if fs == [] then ""
    else if |fs| == 1 then fs[0]
    else fs[0] + " " + Join(fs[1..])
  }

  /** The reply to `tag + arg1 arg2`: the four fields, " = " and the sum of
      their `atoi` values. */
  function SumReply(tag: string, arg1: string, arg2: string): (r: string)
    ensures var k := |Join([tag, "+", arg1, arg2]) + " = "|;
      && k < |r| && r[..k] == Join([tag, "+", arg1, arg2]) + " = "
      && r[k..] == FormatInt(Atoi(arg1) + Atoi(arg2))
      && Atoi(r[k..]) == Atoi(arg1) + Atoi(arg2)
  {
    var head := Join([tag, "+", arg1, arg2]) + " = ";
    var sum := FormatInt(Atoi(arg1) + Atoi(arg2));
    AtoiFormatInt(Atoi(arg1) + Atoi(arg2), []);
    assert sum + [] == sum;
    assert (head + sum)[|head|..] == sum;
    head + sum
  }

  function ProcessLine(line: string): (d: Dispatch)
    ensures d.Failed? ==> d.message in {ParseFailure, UnknownOperation}
  {
    var f := ScanFields(line, 4);
    if |f| != 4 then Failed(ParseFailure)
    else
      if f[1] == "+" then Answered(Text(SumReply(f[0], f[2], f[3])))
      else if f[1] == "LIST" || f[1] == "NUMCLIENTS" then Answered(NullReply)
      else Failed(UnknownOperation)
  }

  /** The outcome of `process_line` in terms of the pieces of the line (its
      words cut into 19-character pieces): fewer than four pieces is a parse
      failure; otherwise the first four decide, and the rest are ignored. */
  lemma ProcessLineByPieces(line: string)
    ensures var p := Pieces(line);
      && (|p| < 4 <==> ProcessLine(line) == Failed(ParseFailure))
      && (|p| >= 4 && p[1] == "+" ==>
            ProcessLine(line) == Answered(Text(SumReply(p[0], p[2], p[3]))))
      && (|p| >= 4 && (p[1] == "LIST" || p[1] == "NUMCLIENTS") ==>
            ProcessLine(line) == Answered(NullReply))
      && (|p| >= 4 && p[1] != "+" && p[1] != "LIST" && p[1] != "NUMCLIENTS" ==>
            ProcessLine(line) == Failed(UnknownOperation))
  {
    ScanFieldsAll(line, 4);
  }

  /** Text after the fourth piece does not change the outcome, as long as it
      is separated from the line by white space. */
  lemma TrailingTextIgnored(line: string, extra: string)
    requires |Pieces(line)| >= 4
    requires extra == [] || IsSpace(extra[0])
    ensures ProcessLine(line + extra) == ProcessLine(line)
  {
    assert ScanFields(line + extra, 4) == ScanFields(line, 4) by {
      PiecesAppend(line, extra);
      ScanFieldsAll(line, 4);
      ScanFieldsAll(line + extra, 4);
      TakeAppend(Pieces(line), Pieces(extra), 4);
    }
  }

  predicate IsWord(w: string) {
    0 < |w| && forall i :: 0 <= i < |w| ==> !IsSpace(w[i])
  }

  /** Words joined by single spaces are scanned as the pieces of each word
      in turn. */
  lemma {:induction false} PiecesJoin(ws: seq<string>)
    requires forall i :: 0 <= i < |ws| ==> IsWord(ws[i])
    ensures Pieces(Join(ws)) == ChunkAll(ws)
    decreases |ws|
  {
    if ws == [] {
      assert Pieces("") == [];
    } else if |ws| == 1 {
      WordPieces(ws[0]);
      assert ChunkAll(ws) == Chunks(ws[0]) + ChunkAll([]);
    } else {
      var rest := " " + Join(ws[1..]);
      assert Join(ws) == ws[0] + rest;
      PiecesAppend(ws[0], rest);
      WordPieces(ws[0]);
      SpacePieces(Join(ws[1..]));
      PiecesJoin(ws[1..]);
    }
  }

  /** The chunks of two lists of words, one after the other. */
  lemma {:induction false} ChunkAllAppend(x: seq<string>, y: seq<string>)
    ensures ChunkAll(x + y) == ChunkAll(x) + ChunkAll(y)
    decreases |x|
  {
    if x == [] {
      assert x + y == y;
    } else {
      assert (x + y)[0] == x[0];
      assert (x + y)[1..] == x[1..] + y;
      ChunkAllAppend(x[1..], y);
      calc {
        ChunkAll(x + y);
        Chunks(x[0]) + ChunkAll(x[1..] + y);
        Chunks(x[0]) + (ChunkAll(x[1..]) + ChunkAll(y));
        (Chunks(x[0]) + ChunkAll(x[1..])) + ChunkAll(y);
      }
    }
  }

  /** Fields are their own chunks. */
  lemma {:induction false} ChunkAllFields(fs: seq<string>)
    requires forall i :: 0 <= i < |fs| ==> IsField(fs[i])
    ensures ChunkAll(fs) == fs
    decreases |fs|
  {
    if fs != [] {
      ChunkAllFields(fs[1..]);
      ShortChunks(fs[0]);
      assert fs == [fs[0]] + fs[1..];
    }
  }

  /** Fields joined by single spaces are scanned back as the same fields. */
  lemma JoinFieldsPieces(fs: seq<string>)
    requires forall i :: 0 <= i < |fs| ==> IsField(fs[i])
    ensures Pieces(Join(fs)) == fs
  {
    PiecesJoin(fs);
    ChunkAllFields(fs);
  }

  /** A well-formed `+` request, followed by anything that starts with
      white space, is answered with its four fields echoed and the sum. */
  lemma SumRequest(tag: string, arg1: string, arg2: string, extra: string)
    requires IsField(tag) && IsField(arg1) && IsField(arg2)
    requires extra == [] || IsSpace(extra[0])
    ensures ProcessLine(Join([tag, "+", arg1, arg2]) + extra)
            == Answered(Text(SumReply(tag, arg1, arg2)))
  {
    var fs := [tag, "+", arg1, arg2];
    var line := Join(fs);
    assert IsField("+");
    JoinFieldsPieces(fs);
    TrailingTextIgnored(line, extra);
    ProcessLineByPieces(line);
  }

  /** A field longer than 19 characters is split: its first 19 characters
      become one field and the rest the next one. */
  lemma OverlongFieldSplit(tag: string, op: string, w: string)
    requires IsField(tag) && IsField(op) && IsWord(w) && FieldWidth < |w| <= 2 * FieldWidth
    ensures ScanFields(Join([tag, op, w]), 4) == [tag, op, w[..FieldWidth], w[FieldWidth..]]
  {
    var p := [tag, op, w[..FieldWidth], w[FieldWidth..]];
    assert Pieces(Join([tag, op, w])) == p by {
      OverlongPieces(tag, op, w);
    }
    ScanFieldsAll(Join([tag, op, w]), 4);
    assert p[..4] == p;
  }

  lemma OverlongPieces(tag: string, op: string, w: string)
    requires IsField(tag) && IsField(op) && IsWord(w) && FieldWidth < |w| <= 2 * FieldWidth
    ensures Pieces(Join([tag, op, w])) == [tag, op, w[..FieldWidth], w[FieldWidth..]]
  {
    var ws := [tag, op, w];
    PiecesJoin(ws);
    assert ws == [tag, op] + [w];
    ChunkAllAppend([tag, op], [w]);
    ChunkAllFields([tag, op]);
    assert ChunkAll([w]) == Chunks(w) by {
      assert ChunkAll([w]) == Chunks(w) + ChunkAll([]);
    }
    TwoChunks(w);
  }

  lemma TwoChunks(w: string)
    requires FieldWidth < |w| <= 2 * FieldWidth
    ensures Chunks(w) == [w[..FieldWidth], w[FieldWidth..]]
  {
    assert Chunks(w[FieldWidth..]) == [w[FieldWidth..]];
  }

  /** The request of the protocol test: "100 + 5 5" is answered
      "100 + 5 5 = 10". */
  lemma SumExample(line: string)
    requires line == "100 + 5 5"
    ensures ProcessLine(line) == Answered(Text("100 + 5 5 = 10"))
  {
    var tag, five := "100", "5";
    assert Join([tag, "+", five, five]) + "" == line by {
      JoinExample(tag, five, line);
    }
    assert IsField(tag) && IsField(five);
    SumRequest(tag, five, five, "");
    SumExampleReply(tag, five, "100 + 5 5 = 10");
  }

  /** The reply text of that example: 5 + 5 is printed as 10. */
  lemma SumExampleReply(tag: string, five: string, reply: string)
    requires tag == "100" && five == "5" && reply == "100 + 5 5 = 10"
    ensures SumReply(tag, five, five) == reply
  {
    var sum := FormatInt(Atoi(five) + Atoi(five));
    assert sum == "10" by {
      AtoiFive(five);
      FormatTen(Atoi(five) + Atoi(five));
    }
    JoinExample(tag, five, "100 + 5 5");
  }

  lemma JoinExample(tag: string, five: string, joined: string)
    requires tag == "100" && five == "5" && joined == "100 + 5 5"
    ensures Join([tag, "+", five, five]) == joined
  {
    assert Join([five, five]) == five + " " + five by {
      JoinCons(five, [five]);
    }
    assert Join(["+", five, five]) == "+" + " " + (five + " " + five) by {
      JoinCons("+", [five, five]);
    }
    assert Join([tag, "+", five, five]) == tag + " " + ("+" + " " + (five + " " + five)) by {
      JoinCons(tag, ["+", five, five]);
    }
  }

  lemma JoinCons(f: string, fs: seq<string>)
    requires fs != []
    ensures Join([f] + fs) == f + " " + Join(fs)
  {
    assert ([f] + fs)[1..] == fs;
  }

  lemma AtoiFive(s: string)
    requires s == "5"
    ensures Atoi(s) == 5
  {
    AtoiFormatInt(5, "");
    assert FormatInt(5) + "" == s;
  }

  lemma FormatTen(n: int)
    requires n == 10
    ensures FormatInt(n) == "10"
  {
  }

  /** An unknown operator fails, as in the protocol test "100 ' 5 5". */
  lemma UnknownOperatorExample()
    ensures ProcessLine("100 ' 5 5") == Failed(UnknownOperation)
  {
    var fs := ["100", "'", "5", "5"];
    assert IsField("100") && IsField("'") && IsField("5");
    JoinFieldsPieces(fs);
    assert Join(fs) == "100 ' 5 5";
    ProcessLineByPieces("100 ' 5 5");
  }

  /** Three fields are too few, as in the protocol test "100 + 5". */
  lemma MissingFieldExample()
    ensures ProcessLine("100 + 5") == Failed(ParseFailure)
  {
    var fs := ["100", "+", "5"];
    assert IsField("100") && IsField("+") && IsField("5");
    JoinFieldsPieces(fs);
    assert Join(fs) == "100 + 5";
    ProcessLineByPieces("100 + 5");
  }
}
