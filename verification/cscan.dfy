/** How `process_line` splits a request line into fields: `isspace` in the
    "C" locale and the `%19s` conversion of `sscanf`, section 7.21.6.2 of
    ISO/IEC 9899:2011.  A `%Ns` conversion skips leading white space, then
    takes at most N non-white-space characters; it fails when only white
    space (or nothing) is left.  A white-space directive in the format
    between conversions skips any amount of white space, which the next
    `%s` would skip anyway.  Positions in the line are indices; the
    functions scan forward from a position rather than on a suffix. */
module CScan {

  datatype Option<T> = None | Some(value: T)

  /** `isspace` in the "C" locale: space, \t, \n, \v, \f, \r. */
  predicate IsSpace(c: char) {
    c == ' ' || c == '\t' || c == '\n' || c == '\U{000B}' || c == '\U{000C}' || c == '\r'
  }

  /** The width of each conversion of "%19s %19s %19s %19s" (FIELD_WIDTH - 1). */
  const FieldWidth: nat := 19

  /** What one `%19s` conversion can store: 1 to 19 non-space characters. */
  predicate IsField(f: string) {
    0 < |f| <= FieldWidth && forall i :: 0 <= i < |f| ==> !IsSpace(f[i])
  }

  /** The end of the run of white space that starts at `i`. */
  function SpaceEnd(s: string, i: nat): (k: nat)
    requires i <= |s|
    ensures i <= k <= |s|
    ensures forall j :: i <= j < k ==> IsSpace(s[j])
    ensures k < |s| ==> !IsSpace(s[k])
    decreases |s| - i
  {
    if i < |s| && IsSpace(s[i]) then SpaceEnd(s, i + 1) else i
  }

  /** The end of the run of non-white-space characters that starts at `i`. */
  function WordEnd(s: string, i: nat): (k: nat)
    requires i <= |s|
    ensures i <= k <= |s|
    ensures forall j :: i <= j < k ==> !IsSpace(s[j])
    ensures k < |s| ==> IsSpace(s[k])
    decreases |s| - i
  {
    if i < |s| && !IsSpace(s[i]) then WordEnd(s, i + 1) else i
  }

  /** One `%19s` conversion from position `i`: after the white space it
      skips, it stores the longest run of non-white-space characters, but
      at most FieldWidth of them, and the scan goes on after them; None
      for a matching failure at the end of the input. */
  function ScanField(s: string, i: nat): (r: Option<(string, nat)>)
    requires i <= |s|
    ensures r.None? <==> forall j :: i <= j < |s| ==> IsSpace(s[j])
    ensures r.Some? ==> IsField(r.value.0) && i < r.value.1 <= |s|
    ensures r.Some? ==> var (f, k) := r.value;
              && |f| <= k - i && s[k - |f|..k] == f
              && forall j :: i <= j < k - |f| ==> IsSpace(s[j])
    ensures r.Some? && |r.value.0| < FieldWidth ==> r.value.1 == |s| || IsSpace(s[r.value.1])
  {
    var j := SpaceEnd(s, i);
    if j == |s| then None
    else
      var e := WordEnd(s, j);
      var k := if e - j < FieldWidth then e else j + FieldWidth;
      Some((s[j..k], k))
  }

  /** What `n` successive conversions from position `i` store: they stop
      at the first matching failure. */
  function ScanFieldsFrom(s: string, i: nat, n: nat): (fs: seq<string>)
    requires i <= |s|
    ensures |fs| <= n
    decreases n
  {
    if n == 0 then []
    else
      match ScanField(s, i)
      case None => []
      case Some((tok, k)) => [tok] + ScanFieldsFrom(s, k, n - 1)
  }

  /** The fields `sscanf` stores for `n` conversions; it returns how many
      there are (or EOF, below any positive count, when the first one
      fails). */
  function ScanFields(s: string, n: nat): (fs: seq<string>)
    ensures |fs| <= n
  {
    ScanFieldsFrom(s, 0, n)
  }

  // ---------------------------------------------------------------------
  // A reference definition: the white-space separated words of the line,
  // each cut into pieces of at most 19 characters.
  // ---------------------------------------------------------------------

  /** A word cut into consecutive pieces of FieldWidth characters, the last
      one possibly shorter. */
  function Chunks(w: string): seq<string>
    decreases |w|
  {
    if |w| <= FieldWidth then (if w == [] then [] else [w])
    else [w[..FieldWidth]] + Chunks(w[FieldWidth..])
  }

  /** The chunks of each word in turn. */
  function ChunkAll(ws: seq<string>): seq<string> {
    if ws == [] then [] else Chunks(ws[0]) + ChunkAll(ws[1..])
  }

  /** The chunks of the words of `s` from position `i` on. */
  function PiecesFrom(s: string, i: nat): seq<string>
    requires i <= |s|
    decreases |s| - i
  {
    if i == |s| then []
    else if IsSpace(s[i]) then PiecesFrom(s, i + 1)
    else
      var e := WordEnd(s, i);
      Chunks(s[i..e]) + PiecesFrom(s, e)
  }

  /** The fields a long enough run of `%19s` conversions would store. */
  function Pieces(s: string): seq<string> {
    PiecesFrom(s, 0)
  }

  /** The first `n` elements of `p`, or all of them when it has fewer. */
  function Take(p: seq<string>, n: nat): (r: seq<string>)
    ensures |r| == if n <= |p| then n else |p|
  {
    if n <= |p| then p[..n] else p
  }

  lemma {:induction false} PiecesSkipSpace(s: string, i: nat)
    requires i <= |s|
    ensures PiecesFrom(s, i) == PiecesFrom(s, SpaceEnd(s, i))
    decreases |s| - i
  {
    if i < |s| && IsSpace(s[i]) {
      PiecesSkipSpace(s, i + 1);
    }
  }

  /** Inside a word, the word ends at the same place. */
  lemma {:induction false} WordEndInside(s: string, i: nat, j: nat)
    requires i <= |s| && i <= j <= WordEnd(s, i)
    ensures WordEnd(s, j) == WordEnd(s, i)
    decreases j - i
  {
    if i < j {
      WordEndInside(s, i + 1, j);
    }
  }

  /** A word of at most FieldWidth characters is its only chunk. */
  lemma ShortChunks(w: string)
    requires 0 < |w| <= FieldWidth
    ensures Chunks(w) == [w]
  {
  }

  /** A longer word: its first FieldWidth characters are one chunk. */
  lemma LongChunks(s: string, i: nat, k: nat, e: nat)
    requires i <= k <= e <= |s| && k == i + FieldWidth && e > k
    ensures Chunks(s[i..e]) == [s[i..k]] + Chunks(s[k..e])
  {
    var w := s[i..e];
    assert w[..FieldWidth] == s[i..k];
    assert w[FieldWidth..] == s[k..e];
  }

  /** p = c + r, c = [h] + d and u = d + r give p = [h] + u. */
  lemma Regroup(p: seq<string>, c: seq<string>, r: seq<string>, h: string,
                d: seq<string>, u: seq<string>)
    requires p == c + r && c == [h] + d && u == d + r
    ensures p == [h] + u
  {
  }

  /** A word longer than a field: its first FieldWidth characters are one
      piece, and the rest of the word starts the remaining pieces. */
  lemma PiecesLongWord(s: string, i: nat)
    requires i < |s| && !IsSpace(s[i]) && WordEnd(s, i) - i > FieldWidth
    ensures PiecesFrom(s, i) == [s[i..i + FieldWidth]] + PiecesFrom(s, i + FieldWidth)
  {
    var e, k := WordEnd(s, i), i + FieldWidth;
    WordEndInside(s, i, k);
    LongChunks(s, i, k, e);
    Regroup(PiecesFrom(s, i), Chunks(s[i..e]), PiecesFrom(s, e), s[i..k],
            Chunks(s[k..e]), PiecesFrom(s, k));
  }

  /** A word yields its first piece first, and then the pieces of what
      follows that piece. */
  lemma PiecesFront(s: string, i: nat, k: nat)
    requires i < |s| && !IsSpace(s[i])
    requires k == if WordEnd(s, i) - i < FieldWidth then WordEnd(s, i) else i + FieldWidth
    ensures PiecesFrom(s, i) == [s[i..k]] + PiecesFrom(s, k)
  {
    if WordEnd(s, i) - i > FieldWidth {
      PiecesLongWord(s, i);
    } else {
      ShortChunks(s[i..k]);
    }
  }

  /** One conversion stores exactly the first piece of the rest of the
      line. */
  lemma ScanFieldPieces(s: string, i: nat)
    requires i <= |s|
    ensures ScanField(s, i).None? <==> PiecesFrom(s, i) == []
    ensures ScanField(s, i).Some? ==>
              PiecesFrom(s, i) == [ScanField(s, i).value.0] + PiecesFrom(s, ScanField(s, i).value.1)
  {
    PiecesSkipSpace(s, i);
    var j := SpaceEnd(s, i);
    if j < |s| {
      var e := WordEnd(s, j);
      PiecesFront(s, j, if e - j < FieldWidth then e else j + FieldWidth);
    }
  }

  /** `n` conversions store the first `n` pieces of the line, or all of
      them when it has fewer. */
  lemma {:induction false} ScanFieldsPieces(s: string, i: nat, n: nat)
    requires i <= |s|
    ensures ScanFieldsFrom(s, i, n) == Take(PiecesFrom(s, i), n)
    decreases n, 1
  {
    if n > 0 && ScanField(s, i).Some? {
      ScanFieldsStep(s, i, n);
    } else if n == 0 {
      assert PiecesFrom(s, i)[..0] == [];
    } else {
      ScanFieldPieces(s, i);
    }
  }

  /** The induction step of ScanFieldsPieces. */
  lemma {:induction false} ScanFieldsStep(s: string, i: nat, n: nat)
    requires i <= |s| && n > 0 && ScanField(s, i).Some?
    ensures ScanFieldsFrom(s, i, n) == Take(PiecesFrom(s, i), n)
    decreases n, 0
  {
    var tok, k := ScanField(s, i).value.0, ScanField(s, i).value.1;
    ScanFieldsPieces(s, k, n - 1);
    ScanFieldPieces(s, i);
    TakeCons(tok, PiecesFrom(s, k), n);
  }

  lemma TakeCons(h: string, q: seq<string>, n: nat)
    requires n > 0
    ensures Take([h] + q, n) == [h] + Take(q, n - 1)
  {
    if n - 1 <= |q| {
      assert ([h] + q)[..n] == [h] + q[..n - 1];
    }
  }

  /** What follows the first `n` elements does not change them. */
  lemma TakeAppend(p: seq<string>, q: seq<string>, n: nat)
    requires n <= |p|
    ensures Take(p + q, n) == Take(p, n)
  {
    assert (p + q)[..n] == p[..n];
  }

  /** The whole line: `n` conversions store its first `n` pieces. */
  lemma ScanFieldsAll(s: string, n: nat)
    ensures ScanFields(s, n) == Take(Pieces(s), n)
  {
    ScanFieldsPieces(s, 0, n);
  }

  // ---------------------------------------------------------------------
  // How pieces behave under concatenation.
  // ---------------------------------------------------------------------

  /** Text that starts with white space does not extend the last word. */
  lemma {:induction false} WordEndAppend(a: string, b: string, i: nat)
    requires i <= |a|
    requires b == [] || IsSpace(b[0])
    ensures WordEnd(a + b, i) == WordEnd(a, i)
    decreases |a| - i
  {
    if i < |a| && !IsSpace(a[i]) {
      WordEndAppend(a, b, i + 1);
    }
  }

  lemma {:induction false} WordEndShift(p: string, q: string, j: nat)
    requires j <= |q|
    ensures WordEnd(p + q, |p| + j) == |p| + WordEnd(q, j)
    decreases |q| - j
  {
    if j < |q| && !IsSpace(q[j]) {
      WordEndShift(p, q, j + 1);
    }
  }

  /** Pieces do not depend on what precedes the position they start at. */
  lemma {:induction false} PiecesShift(p: string, q: string, j: nat)
    requires j <= |q|
    ensures PiecesFrom(p + q, |p| + j) == PiecesFrom(q, j)
    decreases |q| - j, 1
  {
    if j < |q| {
      assert (p + q)[|p| + j] == q[j];
      if IsSpace(q[j]) {
        PiecesShift(p, q, j + 1);
      } else {
        PiecesShiftWord(p, q, j);
      }
    }
  }

  /** The step of PiecesShift at the start of a word. */
  lemma {:induction false} PiecesShiftWord(p: string, q: string, j: nat)
    requires j < |q| && !IsSpace(q[j])
    ensures PiecesFrom(p + q, |p| + j) == PiecesFrom(q, j)
    decreases |q| - j, 0
  {
    var e := WordEnd(q, j);
    assert (p + q)[|p| + j] == q[j];
    PiecesWordStart(p + q, |p| + j);
    PiecesWordStart(q, j);
    WordEndShift(p, q, j);
    SliceShift(p, q, j, e);
    PiecesShift(p, q, e);
  }

  /** At the start of a word, the pieces are the word's chunks and then the
      pieces after the word. */
  lemma PiecesWordStart(s: string, i: nat)
    requires i < |s| && !IsSpace(s[i])
    ensures PiecesFrom(s, i) == Chunks(s[i..WordEnd(s, i)]) + PiecesFrom(s, WordEnd(s, i))
  {
  }

  lemma SliceShift(p: string, q: string, j: nat, e: nat)
    requires j <= e <= |q|
    ensures (p + q)[|p| + j..|p| + e] == q[j..e]
  {
  }

  lemma {:induction false} PiecesAppendFrom(a: string, b: string, i: nat)
    requires i <= |a|
    requires b == [] || IsSpace(b[0])
    ensures PiecesFrom(a + b, i) == PiecesFrom(a, i) + PiecesFrom(b, 0)
    decreases |a| - i
  {
    if i == |a| {
      PiecesShift(a, b, 0);
    } else if IsSpace(a[i]) {
      PiecesAppendFrom(a, b, i + 1);
    } else {
      var e := WordEnd(a, i);
      WordEndAppend(a, b, i);
      assert (a + b)[i..e] == a[i..e];
      PiecesAppendFrom(a, b, e);
    }
  }

  /** Text that starts with white space adds its own pieces after those of
      the line. */
  lemma PiecesAppend(a: string, b: string)
    requires b == [] || IsSpace(b[0])
    ensures Pieces(a + b) == Pieces(a) + Pieces(b)
  {
    PiecesAppendFrom(a, b, 0);
  }

  /** Leading white space adds no piece. */
  lemma SpacePieces(s: string)
    ensures Pieces(" " + s) == Pieces(s)
  {
    PiecesShift(" ", s, 0);
  }

  lemma {:induction false} WordEndAll(w: string, i: nat)
    requires i <= |w|
    requires forall j :: i <= j < |w| ==> !IsSpace(w[j])
    ensures WordEnd(w, i) == |w|
    decreases |w| - i
  {
    if i < |w| {
      WordEndAll(w, i + 1);
    }
  }

  /** A run of non-space characters yields its chunks. */
  lemma WordPieces(w: string)
    requires 0 < |w| && forall i :: 0 <= i < |w| ==> !IsSpace(w[i])
    ensures Pieces(w) == Chunks(w)
  {
    WordEndAll(w, 0);
    assert PiecesFrom(w, 0) == Chunks(w[0..|w|]) + PiecesFrom(w, |w|);
    assert w[0..|w|] == w;
  }

  /** A field on its own is its only piece. */
  lemma FieldPieces(f: string)
    requires IsField(f)
    ensures Pieces(f) == [f]
  {
    WordPieces(f);
  }
}
