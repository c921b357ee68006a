/** Bytes and the small text operations of the lifecycle manager: erase
    padding, splitting one line off standard input, cleaning that line, and
    the case-insensitive test for the cancel keyword.

    Go strings are byte strings and Go's `len` counts bytes, so text is a
    sequence of bytes here. */
module Text {

  newtype uint8 = x: int | 0 <= x < 256

  type Bytes = seq<uint8>

  const LF: uint8 := 10
  const CR: uint8 := 13
  const SPACE: uint8 := 32

  function Max(a: int, b: int): int
  {
    if a < b then b else a
  }

  /** Equal prefixes have equal shorter prefixes and equal last elements. */
  lemma TakeShorter<T>(a: seq<T>, b: seq<T>, n: nat)
    requires 0 < n <= |a| && n <= |b| && a[..n] == b[..n]
    ensures a[n - 1] == b[n - 1] && a[..n - 1] == b[..n - 1]
  {
    assert a[n - 1] == a[..n][n - 1];
    assert b[n - 1] == b[..n][n - 1];
    assert a[..n - 1] == a[..n][..n - 1];
    assert b[..n - 1] == b[..n][..n - 1];
  }

  lemma DropSlice<T>(s: seq<T>, i: nat, n: nat)
    requires i + n <= |s|
    ensures s[i..][..n] == s[i..i + n] && s[i..][n..] == s[i + n..]
  {
  }

  lemma Slices3<T>(a: seq<T>, b: seq<T>, c: seq<T>)
    ensures (a + b + c)[..|a|] == a && (a + b + c)[|a| + |b|..] == c
    ensures (a + b + c)[|a|..|a| + |b|] == b
  {
  }

  lemma AppendAssoc<T>(a: seq<T>, b: seq<T>, c: seq<T>)
    ensures a + b + c == a + (b + c)
  {
  }

  /** The bytes of an ASCII string literal. */
  function Ascii(s: string): (r: Bytes)
    requires forall i :: 0 <= i < |s| ==> s[i] as int < 128
    ensures |r| == |s|
    ensures forall i :: 0 <= i < |s| ==> r[i] as int == s[i] as int
  {
    if s == [] then [] else [s[0] as int as uint8] + Ascii(s[1..])
  }

  predicate Blank(s: Bytes)
  {
    forall i :: 0 <= i < |s| ==> s[i] == SPACE
  }

  function Spaces(n: nat): (r: Bytes)
    ensures |r| == n && Blank(r)
  {
    if n == 0 then [] else [SPACE] + Spaces(n - 1)
  }

  /** The erase padding printed after a line of length newLineLength that
      overwrites one of length curLineLength: one blank per leftover column,
      none when the new line is at least as long. */
  function Pad(curLineLength: int, newLineLength: int): (r: Bytes)
    ensures |r| == Max(0, curLineLength - newLineLength)
    ensures Blank(r)
    ensures curLineLength <= newLineLength ==> r == []
  {
    var dirtyLeftover := curLineLength - newLineLength;
    if dirtyLeftover > 0 then Spaces(dirtyLeftover) else []
  }

  // ---------------------------------------------------------------------
  // Reading one line: bufio.Reader.ReadString('\n') on the bytes still
  // waiting on standard input. Without a '\n' the read fails (end of input).

  /** A raw line as ReadString returns it: ends in its only '\n'. */
  predicate RawLine(line: Bytes)
  {
    |line| > 0 && line[|line| - 1] == LF &&
    forall i :: 0 <= i < |line| - 1 ==> line[i] != LF
  }

  function ReadLine(input: Bytes): (r: Option<(Bytes, Bytes)>)
    ensures r.None? <==> LF !in input
    ensures r.Some? ==> RawLine(r.value.0) && r.value.0 + r.value.1 == input
  {
    if input == [] then None
    else if input[0] == LF then Some(([LF], input[1..]))
    else
      match ReadLine(input[1..])
      case None => None
      case Some((line, rest)) => Some(([input[0]] + line, rest))
  }

  /** Reading stops at the first line break, whatever follows it. */
  lemma {:induction false} ReadLineOfRawLine(line: Bytes, more: Bytes)
    requires RawLine(line)
    ensures ReadLine(line + more) == Some((line, more))
    decreases |line|
  {
    if line[0] == LF {
      assert |line| == 1 && line == [LF];
      assert (line + more)[1..] == more;
    } else {
      assert RawLine(line[1..]);
      ReadLineOfRawLine(line[1..], more);
      assert (line + more)[1..] == line[1..] + more;
      assert [line[0]] + line[1..] == line;
    }
  }

  datatype Option<T> = None | Some(value: T)

  // ---------------------------------------------------------------------
  // Line cleaning: strings.Trim(input, "\n ") strips the leading and the
  // trailing run of bytes drawn from the cutset {'\n', ' '}. The cutset is
  // ASCII, so stripping byte by byte is what Go's rune-wise Trim does.

  predicate InCutset(b: uint8)
  {
    b == LF || b == SPACE
  }

  predicate AllCut(s: Bytes)
  {
    forall i :: 0 <= i < |s| ==> InCutset(s[i])
  }

  lemma AllCutAppend(a: Bytes, b: Bytes)
    requires AllCut(a) && AllCut(b)
    ensures AllCut(a + b)
  {
    assert forall i :: |a| <= i < |a| + |b| ==> (a + b)[i] == b[i - |a|];
  }

  lemma DropLastCut(s: Bytes, n: nat)
    requires n < |s| && InCutset(s[|s| - 1]) && AllCut(s[..|s| - 1][n..])
    ensures s[..|s| - 1][..n] == s[..n] && AllCut(s[n..])
  {
    assert s[n..] == s[..|s| - 1][n..] + [s[|s| - 1]];
    AllCutAppend(s[..|s| - 1][n..], [s[|s| - 1]]);
  }

  lemma DropFirstCut(s: Bytes, n: nat)
    requires 0 < n <= |s| && InCutset(s[0]) && AllCut(s[1..][..n - 1])
    ensures s[1..][n - 1..] == s[n..] && AllCut(s[..n])
  {
    assert s[..n] == [s[0]] + s[1..][..n - 1];
    AllCutAppend([s[0]], s[1..][..n - 1]);
  }

  function TrimLeft(s: Bytes): (r: Bytes)
    ensures |r| <= |s| && r == s[|s| - |r|..]
    ensures AllCut(s[..|s| - |r|])
    ensures r != [] ==> !InCutset(r[0])
  {
    if s != [] && InCutset(s[0]) then
      var r := TrimLeft(s[1..]);
      var n := |s| - |r|;
      DropFirstCut(s, n);
      assert r == s[n..];
      r
    else s
  }

  function TrimRight(s: Bytes): (r: Bytes)
    ensures |r| <= |s| && r == s[..|r|]
    ensures AllCut(s[|r|..])
    ensures r != [] ==> !InCutset(r[|r| - 1])
  {
    if s != [] && InCutset(s[|s| - 1]) then
      var r := TrimRight(s[..|s| - 1]);
      DropLastCut(s, |r|);
      r
    else s
  }

  /** readInCleanLineFromStdIn's transformation of the raw line. */
  function Trim(s: Bytes): (r: Bytes)
    ensures |r| <= |s|
    ensures r != [] ==> !InCutset(r[0]) && !InCutset(r[|r| - 1])
  {
    TrimRight(TrimLeft(s))
  }

  /** The cleaned line is a contiguous slice of the input; what is cut off
      on either side is cutset bytes only, so every other byte (a '\r', a
      tab) and the whole interior survive. */
  lemma TrimSlice(s: Bytes) returns (i: nat, j: nat)
    ensures i <= j <= |s| && Trim(s) == s[i..j]
    ensures AllCut(s[..i]) && AllCut(s[j..])
    ensures i < j ==> !InCutset(s[i]) && !InCutset(s[j - 1])
    ensures forall k :: 0 <= k < |s| && !InCutset(s[k]) ==> i <= k < j
  {
    var l := TrimLeft(s);
    var r := TrimRight(l);
    assert Trim(s) == r;
    i, j := TrimmedPieces(s, l, r);
  }

  /** The slice that a left cut l of s and then a right cut r of l leave. */
  lemma TrimmedPieces(s: Bytes, l: Bytes, r: Bytes) returns (i: nat, j: nat)
    requires |l| <= |s| && l == s[|s| - |l|..] && AllCut(s[..|s| - |l|])
    requires |r| <= |l| && r == l[..|r|] && AllCut(l[|r|..])
    requires r != [] ==> !InCutset(r[0]) && !InCutset(r[|r| - 1])
    ensures i <= j <= |s| && r == s[i..j]
    ensures AllCut(s[..i]) && AllCut(s[j..])
    ensures i < j ==> !InCutset(s[i]) && !InCutset(s[j - 1])
    ensures forall k :: 0 <= k < |s| && !InCutset(s[k]) ==> i <= k < j
  {
    i := |s| - |l|;
    j := i + |r|;
    DropSlice(s, i, |r|);
    if i < j {
      assert r[0] == s[i] && r[|r| - 1] == s[j - 1];
    }
    CutOutside(s, i, j);
  }

  /** Cutting cutset bytes only leaves every other byte in the slice. */
  lemma CutOutside(s: Bytes, i: nat, j: nat)
    requires i <= j <= |s| && AllCut(s[..i]) && AllCut(s[j..])
    ensures forall k :: 0 <= k < |s| && !InCutset(s[k]) ==> i <= k < j
  {
    CutPrefix(s, i);
    CutSuffix(s, j);
  }

  lemma CutPrefix(s: Bytes, i: nat)
    requires i <= |s| && AllCut(s[..i])
    ensures forall k :: 0 <= k < i ==> InCutset(s[k])
  {
    assert forall k :: 0 <= k < i ==> s[..i][k] == s[k];
  }

  lemma CutSuffix(s: Bytes, j: nat)
    requires j <= |s| && AllCut(s[j..])
    ensures forall k :: j <= k < |s| ==> InCutset(s[k])
  {
    assert forall k :: j <= k < |s| ==> s[j..][k - j] == s[k];
  }

  /** Trimming is determined by its result's shape: any slice obtained by
      cutting cutset bytes only, and left with no cutset byte at either end,
      is the cleaned line. */
  lemma TrimUnique(s: Bytes, i: nat, j: nat)
    requires i <= j <= |s|
    requires AllCut(s[..i]) && AllCut(s[j..])
    requires i < j ==> !InCutset(s[i]) && !InCutset(s[j - 1])
    ensures Trim(s) == s[i..j]
  {
    var a, b := TrimSlice(s);
    CutPrefix(s, i);
    CutSuffix(s, j);
    SameCut(s, a, b, i, j);
  }

  /** Two slices that each hold every byte outside the cutset, and start
      and end on such bytes, have the same ends. */
  lemma SameCut(s: Bytes, a: nat, b: nat, i: nat, j: nat)
    requires a <= b <= |s| && i <= j <= |s|
    requires forall k :: 0 <= k < |s| && !InCutset(s[k]) ==> a <= k < b
    requires a < b ==> !InCutset(s[a]) && !InCutset(s[b - 1])
    requires forall k :: 0 <= k < i ==> InCutset(s[k])
    requires forall k :: j <= k < |s| ==> InCutset(s[k])
    requires i < j ==> !InCutset(s[i]) && !InCutset(s[j - 1])
    ensures s[a..b] == s[i..j]
  {
    if i < j {
      assert a <= i < b && a <= j - 1 < b;
      assert !(a < i) && !(j < b);
    } else if a < b {
      assert false;
    }
  }

  /** Cleaning a cleaned line changes nothing. */
  lemma TrimIdempotent(s: Bytes)
    ensures Trim(Trim(s)) == Trim(s)
  {
    var r := Trim(s);
    assert r[..0] == [] && r[|r|..] == [];
    TrimUnique(r, 0, |r|);
    assert r[0..|r|] == r;
  }

  /** The reply to a prompt answered with " y" is "y". */
  lemma TrimPromptReply()
    ensures Trim([SPACE, 'y' as uint8, SPACE, LF]) == ['y' as uint8]
  {
    var s := [SPACE, 'y' as uint8, SPACE, LF];
    assert s[..1] == [SPACE] && s[2..] == [SPACE, LF];
    TrimUnique(s, 1, 2);
    assert s[1..2] == ['y' as uint8];
  }

  /** A line of blanks and line breaks cleans to nothing. */
  lemma TrimAllCut(s: Bytes)
    requires AllCut(s)
    ensures Trim(s) == []
  {
    assert s[..0] == [] && s[|s|..] == [];
    TrimUnique(s, 0, 0);
  }

  /** What is surrounded by cutset bytes, and neither starts nor ends with
      one, is exactly what cleaning keeps. */
  lemma TrimSurrounded(pre: Bytes, mid: Bytes, post: Bytes)
    requires AllCut(pre) && AllCut(post)
    requires mid != [] ==> !InCutset(mid[0]) && !InCutset(mid[|mid| - 1])
    ensures Trim(pre + mid + post) == mid
  {
    var s := pre + mid + post;
    Slices3(pre, mid, post);
    TrimUnique(s, |pre|, |pre| + |mid|);
  }

  /** A tab and a carriage return are not in the cutset: cleaning
      " \tcancel\r\n" keeps both. */
  lemma TrimKeepsTabAndCarriageReturn()
    ensures Trim([SPACE] + ([9] + CancelKeyword() + [CR]) + [LF]) == [9] + CancelKeyword() + [CR]
  {
    TrimSurrounded([SPACE], [9] + CancelKeyword() + [CR], [LF]);
  }

  /** readInCleanLineFromStdIn on the bytes waiting on standard input: the
      cleaned first line and the input after it, or None when the input
      ends before a line break (the read error that PanicIfErr turns into a
      panic); a failed read has consumed all the input. */
  function ReadCleanLine(input: Bytes): (r: (Option<Bytes>, Bytes))
    ensures r.0.None? <==> LF !in input
    ensures r.0.None? ==> r.1 == []
    ensures r.0.Some? ==> |r.1| < |input| && r.1 == input[|input| - |r.1|..]
    ensures r.0.Some? ==> RawLine(input[..|input| - |r.1|])
    ensures r.0.Some? ==> r.0.value == Trim(input[..|input| - |r.1|])
  {
    match ReadLine(input)
    case None => (None, [])
    case Some((line, rest)) =>
      assert input[..|line|] == line && input[|line|..] == rest;
      (Some(Trim(line)), rest)
  }

  // ---------------------------------------------------------------------
  // strings.EqualFold(input, "cancel"). No non-ASCII code point folds to
  // any of 'c', 'a', 'n', 'e', 'l', so against this keyword Go's Unicode
  // folding coincides with ASCII case-insensitive comparison of bytes.

  function AsciiLower(b: uint8): (r: uint8)
    ensures 'A' as int <= b as int <= 'Z' as int ==> r as int == b as int + 32
    ensures !('A' as int <= b as int <= 'Z' as int) ==> r == b
  {
    if 'A' as uint8 <= b <= 'Z' as uint8 then b + 32 else b
  }

  function Lowered(s: Bytes): (r: Bytes)
    ensures |r| == |s| && forall i :: 0 <= i < |s| ==> r[i] == AsciiLower(s[i])
  {
    seq(|s|, i requires 0 <= i < |s| => AsciiLower(s[i]))
  }

  /** "cancel", as bytes. */
  function CancelKeyword(): Bytes
  {
    [99, 97, 110, 99, 101, 108]
  }

  lemma CancelKeywordSpelling()
    ensures CancelKeyword() == Ascii("cancel")
  {
  }

  /** Two bytes are the same letter up to ASCII case: equal, or one is an
      upper-case letter and the other the letter 32 above it. */
  predicate SameUpToCase(x: uint8, y: uint8)
  {
    x == y ||
    ('A' as uint8 <= x <= 'Z' as uint8 && y as int == x as int + 32) ||
    ('A' as uint8 <= y <= 'Z' as uint8 && x as int == y as int + 32)
  }

  /** strings.EqualFold restricted to ASCII: same length, and the same
      letter up to case at every position; equivalently, equal once both
      sides are lower-cased. */
  predicate EqualFold(a: Bytes, b: Bytes): (r: bool)
    ensures r <==> |a| == |b| && forall i :: 0 <= i < |a| ==> SameUpToCase(a[i], b[i])
    ensures r <==> Lowered(a) == Lowered(b)
  {
    |a| == |b| && forall i :: 0 <= i < |a| ==> AsciiLower(a[i]) == AsciiLower(b[i])
  }

  /** A line is the keyword exactly when lower-casing it gives "cancel". */
  predicate IsCancelWord(s: Bytes): (r: bool)
    ensures r <==> Lowered(s) == CancelKeyword()
  {
    assert Lowered(CancelKeyword()) == CancelKeyword();
    EqualFold(s, CancelKeyword())
  }

  /** The keyword is recognised in any letter case: "CANCEL" and "Cancel". */
  lemma CancelWordAnyCase()
    ensures IsCancelWord([67, 65, 78, 67, 69, 76]) && IsCancelWord([67, 97, 110, 99, 101, 108])
  {
  }

  /** A line with anything after the keyword is not the keyword: neither
      "cancel\r" nor "cancelled". */
  lemma CancelWordExact()
    ensures !IsCancelWord(CancelKeyword() + [CR])
    ensures !IsCancelWord([99, 97, 110, 99, 101, 108, 108, 101, 100])
  {
  }
}
