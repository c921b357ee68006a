/** A reference model of the terminal the lifecycle manager writes to, used
    to state what the rendered bytes look like on screen.

    The screen is the list of finished lines, the line the cursor is on and
    the cursor's column. A carriage return moves the cursor to column 0; a
    line feed finishes the current line and starts an empty one at column 0
    (a terminal with output post-processing turns "\n" into "\r\n"); every
    other byte occupies one column, overwriting what is there or extending
    the line. */
module Terminal {
  import opened Text

  datatype Screen = Screen(lines: seq<Bytes>, cur: Bytes, col: nat)

  predicate Valid(t: Screen)
  {
    t.col <= |t.cur|
  }

  const Blank0: Screen := Screen([], [], 0)

  function Put(t: Screen, b: uint8): (u: Screen)
    requires Valid(t)
    ensures Valid(u)
  {
    if b == CR then t.(col := 0)
    else if b == LF then Screen(t.lines + [t.cur], [], 0)
    else if t.col < |t.cur| then t.(cur := t.cur[t.col := b], col := t.col + 1)
    else t.(cur := t.cur + [b], col := t.col + 1)
  }

  function Feed(t: Screen, s: Bytes): (u: Screen)
    requires Valid(t)
    ensures Valid(u)
    decreases |s|
  {
    if s == [] then t else Feed(Put(t, s[0]), s[1..])
  }

  /** Writing two pieces one after the other is writing their concatenation. */
  lemma {:induction false} FeedAppend(t: Screen, a: Bytes, b: Bytes)
    requires Valid(t)
    ensures Feed(t, a + b) == Feed(Feed(t, a), b)
    decreases |a|
  {
    if a == [] {
      assert a + b == b;
    } else {
      assert (a + b)[0] == a[0] && (a + b)[1..] == a[1..] + b;
      FeedAppend(Put(t, a[0]), a[1..], b);
    }
  }

  /** No control byte that moves the cursor. */
  predicate Plain(s: Bytes)
  {
    forall i :: 0 <= i < |s| ==> s[i] != CR && s[i] != LF
  }

  /** row with s written over it from column at on. */
  function Overwrite(row: Bytes, at: nat, s: Bytes): (r: Bytes)
    requires at <= |row|
    ensures |r| == Max(|row|, at + |s|)
    ensures forall i :: 0 <= i < |r| ==> r[i] == if at <= i < at + |s| then s[i - at] else row[i]
  {
    seq(Max(|row|, at + |s|), i requires 0 <= i < Max(|row|, at + |s|) =>
      if at <= i < at + |s| then s[i - at] else row[i])
  }

  /** Plain bytes overwrite the current line from the cursor on and move
      the cursor past them; no line is finished. */
  lemma {:induction false} FeedPlain(t: Screen, s: Bytes)
    requires Valid(t) && Plain(s)
    ensures Feed(t, s) == Screen(t.lines, Overwrite(t.cur, t.col, s), t.col + |s|)
    decreases |s|
  {
    if s != [] {
      var t1 := Put(t, s[0]);
      assert t1.cur == Overwrite(t.cur, t.col, [s[0]]);
      assert Plain(s[1..]);
      FeedPlain(t1, s[1..]);
      assert Overwrite(t1.cur, t.col + 1, s[1..]) == Overwrite(t.cur, t.col, s);
    }
  }

  lemma FeedCR(t: Screen)
    requires Valid(t)
    ensures Feed(t, [CR]) == t.(col := 0)
  {
    assert [CR][1..] == [];
  }

  lemma FeedLF(t: Screen)
    requires Valid(t)
    ensures Feed(t, [LF]) == Screen(t.lines + [t.cur], [], 0)
  {
    assert [LF][1..] == [];
  }

  /** The row displays text: text from column 0, then nothing but blanks. */
  predicate Displays(row: Bytes, text: Bytes)
  {
    |text| <= |row| &&
    (forall i :: 0 <= i < |text| ==> row[i] == text[i]) &&
    (forall i :: |text| <= i < |row| ==> row[i] == SPACE)
  }

  /** The line the cursor is on displays text. */
  predicate Shows(t: Screen, text: Bytes)
  {
    Valid(t) && Displays(t.cur, text)
  }

  /** Rewriting a row that displays prev from column 0 with text and its
      erase padding leaves a row that displays text: no byte of prev stays
      visible past the end of text. */
  lemma {:induction false} Rewrite(row: Bytes, prev: Bytes, text: Bytes)
    requires Displays(row, prev)
    ensures Displays(Overwrite(row, 0, text + Pad(|prev|, |text|)), text)
    ensures |Overwrite(row, 0, text + Pad(|prev|, |text|))| == Max(|row|, |text|)
  {
    var w := text + Pad(|prev|, |text|);
    var r := Overwrite(row, 0, w);
    assert |w| == Max(|text|, |prev|);
    assert forall i :: 0 <= i < |text| ==> r[i] == w[i] == text[i];
    forall i | |text| <= i < |r|
      ensures r[i] == SPACE
    {
      if i < |w| {
        assert r[i] == Pad(|prev|, |text|)[i - |text|];
      } else {
        assert r[i] == row[i] && |prev| <= i;
      }
    }
  }

  /** Writing plain text from column 0 of an empty line displays it. */
  lemma FreshLine(t: Screen, text: Bytes)
    requires Valid(t) && t.cur == [] && Plain(text)
    ensures Feed(t, text) == Screen(t.lines, text, |text|)
  {
    FeedPlain(t, text);
    assert Overwrite([], 0, text) == text;
  }
}
