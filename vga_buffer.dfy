/** The VGA text-mode writer: a 25 x 80 grid of (character, colour) cells
    that the writer fills along the bottom row, scrolling everything up one
    row on a newline or when the bottom row is full. */
module VgaBuffer {
  import opened Bytes

  const BUFFER_HEIGHT: nat := 25
  const BUFFER_WIDTH: nat := 80
  /** The row the writer writes to. */
  const BOTTOM: nat := BUFFER_HEIGHT - 1

  const NEWLINE: u8 := 0x0A
  const SPACE: u8 := 0x20
  /** The code page 437 glyph `■`, shown in place of unprintable bytes. */
  const SQUARE: u8 := 0xfe

  datatype Color =
    | Black | Blue | Green | Cyan | Red | Magenta | Brown | LightGray
    | DarkGray | LightBlue | LightGreen | LightCyan | LightRed | Pink | Yellow | White

  /** The `repr(u8)` discriminant of a colour: a 4-bit value. */
  function Value(c: Color): (v: bv8)
    ensures v < 16
  {
    match c
    case Black => 0 case Blue => 1 case Green => 2 case Cyan => 3
    case Red => 4 case Magenta => 5 case Brown => 6 case LightGray => 7
    case DarkGray => 8 case LightBlue => 9 case LightGreen => 10 case LightCyan => 11
    case LightRed => 12 case Pink => 13 case Yellow => 14 case White => 15
  }

  /** Distinct colours have distinct discriminants. */
  lemma ValueInjective(a: Color, b: Color)
    ensures Value(a) == Value(b) ==> a == b
  {
  }

  /** The attribute byte of a cell: background in the high nibble,
      foreground in the low one. */
  datatype ColorCode = ColorCode(byte: bv8)

  /** `ColorCode::new`: the two nibbles can be read back from the byte. */
  function ColorCodeNew(foreground: Color, background: Color): (r: ColorCode)
    ensures r.byte == Value(background) * 16 + Value(foreground)
    ensures r.byte & 0x0F == Value(foreground)
    ensures r.byte >> 4 == Value(background)
  {
    ColorCode((Value(background) << 4) | Value(foreground))
  }

  /** The attribute byte determines both colours. */
  lemma ColorCodeInjective(f1: Color, b1: Color, f2: Color, b2: Color)
    requires ColorCodeNew(f1, b1) == ColorCodeNew(f2, b2)
    ensures f1 == f2 && b1 == b2
  {
    ValueInjective(f1, f2);
    ValueInjective(b1, b2);
  }

  datatype ScreenChar = ScreenChar(asciiCharacter: u8, colorCode: ColorCode)

  /** What the writer shows on screen and where it writes next. */
  datatype WriterState = WriterState(column: nat, color: ColorCode, rows: seq<seq<ScreenChar>>)

  predicate IsGrid(rows: seq<seq<ScreenChar>>)
  {
    |rows| == BUFFER_HEIGHT && forall r :: 0 <= r < BUFFER_HEIGHT ==> |rows[r]| == BUFFER_WIDTH
  }

  predicate WellFormed(s: WriterState)
  {
    s.column <= BUFFER_WIDTH && IsGrid(s.rows)
  }

  /** The row `clear_row` writes: spaces in the writer's colour. */
  function BlankRow(color: ColorCode): (row: seq<ScreenChar>)
    ensures |row| == BUFFER_WIDTH
  {
    seq(BUFFER_WIDTH, _ => ScreenChar(SPACE, color))
  }

  /** `new_line`: every row moves up one, the top row is lost, the bottom row
      is cleared and writing restarts at column 0. */
  function NewLineSpec(s: WriterState): (t: WriterState)
    requires WellFormed(s)
    ensures WellFormed(t) && t.color == s.color && t.column == 0
    ensures forall r :: 0 <= r < BOTTOM ==> t.rows[r] == s.rows[r + 1]
    ensures t.rows[BOTTOM] == BlankRow(s.color)
  {
    s.(column := 0, rows := s.rows[1..] + [BlankRow(s.color)])
  }

  /** `write_byte`: a newline scrolls; any other byte goes to the next column
      of the bottom row, after a scroll when that row is full. */
  function WriteByteSpec(s: WriterState, b: u8): (t: WriterState)
    requires WellFormed(s)
    ensures WellFormed(t) && t.color == s.color
    ensures b == NEWLINE ==> t.column == 0
    ensures b != NEWLINE ==> 1 <= t.column && t.rows[BOTTOM][t.column - 1] == ScreenChar(b, s.color)
  {
    if b == NEWLINE then NewLineSpec(s)
    else
      var u := if s.column >= BUFFER_WIDTH then NewLineSpec(s) else s;
      u.(column := u.column + 1,
         rows := u.rows[BOTTOM := u.rows[BOTTOM][u.column := ScreenChar(b, u.color)]])
  }

  /** Bytes with a glyph the writer may put on screen: printable ASCII and `■`. */
  predicate Displayable(b: u8)
  {
    0x20 <= b <= 0x7e || b == SQUARE
  }

  /** The byte `write_string` passes on: printable ASCII and newlines as they
      are, every other byte replaced by `■`. */
  function Sanitize(b: u8): (r: u8)
    ensures r == NEWLINE || Displayable(r)
    ensures (0x20 <= b <= 0x7e || b == NEWLINE) ==> r == b
    ensures !(0x20 <= b <= 0x7e || b == NEWLINE) ==> r == SQUARE
  {
    if 0x20 <= b <= 0x7e || b == NEWLINE then b else SQUARE
  }

  /** `write_string` on the bytes of a string. */
  function WriteStringSpec(s: WriterState, bytes: seq<u8>): (t: WriterState)
    requires WellFormed(s)
    ensures WellFormed(t) && t.color == s.color
    decreases |bytes|
  {
    if bytes == [] then s
    else WriteByteSpec(WriteStringSpec(s, bytes[..|bytes| - 1]), Sanitize(bytes[|bytes| - 1]))
  }

  // ---------------------------------------------------------------------------
  // Properties of the writer

  predicate AllDisplayable(rows: seq<seq<ScreenChar>>)
  {
    forall r, c :: 0 <= r < |rows| && 0 <= c < |rows[r]| ==> Displayable(rows[r][c].asciiCharacter)
  }

  /** `write_string` never puts a control byte on a screen that had none: the
      cleared rows are spaces and every byte it writes is sanitised. */
  lemma {:induction false} WriteStringDisplayable(s: WriterState, bytes: seq<u8>)
    requires WellFormed(s) && AllDisplayable(s.rows)
    ensures AllDisplayable(WriteStringSpec(s, bytes).rows)
    decreases |bytes|
  {
    if bytes != [] {
      var u := WriteStringSpec(s, bytes[..|bytes| - 1]);
      WriteStringDisplayable(s, bytes[..|bytes| - 1]);
      var b := Sanitize(bytes[|bytes| - 1]);
      if b != NEWLINE {
        var v := if u.column >= BUFFER_WIDTH then NewLineSpec(u) else u;
        assert AllDisplayable(v.rows);
      }
    }
  }

  /** Every cell of `after` is displayable, or is the cell of the same column
      that `before` held in the same row or a lower one (scrolled up). */
  predicate WrittenOrMovedUp(before: seq<seq<ScreenChar>>, after: seq<seq<ScreenChar>>)
    requires IsGrid(before) && IsGrid(after)
  {
    forall r, c :: 0 <= r < BUFFER_HEIGHT && 0 <= c < BUFFER_WIDTH ==>
      Displayable(after[r][c].asciiCharacter) ||
      exists r0 :: r <= r0 < BUFFER_HEIGHT && after[r][c] == before[r0][c]
  }

  /** One displayable byte or newline writes only displayable cells and
      otherwise moves cells up. */
  lemma WriteByteWrittenOrMovedUp(s: WriterState, b: u8)
    requires WellFormed(s) && (b == NEWLINE || Displayable(b))
    ensures WrittenOrMovedUp(s.rows, WriteByteSpec(s, b).rows)
  {
    var t := WriteByteSpec(s, b);
    forall r, c | 0 <= r < BUFFER_HEIGHT && 0 <= c < BUFFER_WIDTH
      ensures Displayable(t.rows[r][c].asciiCharacter) ||
              exists r0 :: r <= r0 < BUFFER_HEIGHT && t.rows[r][c] == s.rows[r0][c]
    {
      var scrolled := b == NEWLINE || s.column >= BUFFER_WIDTH;
      if scrolled && r < BOTTOM {
        assert t.rows[r][c] == s.rows[r + 1][c];
      } else if !scrolled && !(r == BOTTOM && c == s.column) {
        assert t.rows[r][c] == s.rows[r][c];
      }
    }
  }

  /** Moving cells up twice is moving them up once. */
  lemma WrittenOrMovedUpTrans(a: seq<seq<ScreenChar>>, b: seq<seq<ScreenChar>>, c: seq<seq<ScreenChar>>)
    requires IsGrid(a) && IsGrid(b) && IsGrid(c)
    requires WrittenOrMovedUp(a, b) && WrittenOrMovedUp(b, c)
    ensures WrittenOrMovedUp(a, c)
  {
    forall r, col | 0 <= r < BUFFER_HEIGHT && 0 <= col < BUFFER_WIDTH
      ensures Displayable(c[r][col].asciiCharacter) ||
              exists r0 :: r <= r0 < BUFFER_HEIGHT && c[r][col] == a[r0][col]
    {
      if !Displayable(c[r][col].asciiCharacter) {
        var r1 :| r <= r1 < BUFFER_HEIGHT && c[r][col] == b[r1][col];
        if !Displayable(b[r1][col].asciiCharacter) {
          var r0 :| r1 <= r0 < BUFFER_HEIGHT && b[r1][col] == a[r0][col];
        }
      }
    }
  }

  /** Whatever the screen held before, every cell `write_string` writes is
      displayable: each cell afterwards is printable ASCII, a space or `■`, or
      an old cell of the same column that scrolled up. */
  lemma {:induction false} WriteStringWritesDisplayable(s: WriterState, bytes: seq<u8>)
    requires WellFormed(s)
    ensures WrittenOrMovedUp(s.rows, WriteStringSpec(s, bytes).rows)
    decreases |bytes|
  {
    if bytes == [] {
      forall r, c | 0 <= r < BUFFER_HEIGHT && 0 <= c < BUFFER_WIDTH
        ensures exists r0 :: r <= r0 < BUFFER_HEIGHT && s.rows[r][c] == s.rows[r0][c]
      {
        assert s.rows[r][c] == s.rows[r][c];
      }
    } else {
      var u := WriteStringSpec(s, bytes[..|bytes| - 1]);
      WriteStringWritesDisplayable(s, bytes[..|bytes| - 1]);
      WriteByteWrittenOrMovedUp(u, Sanitize(bytes[|bytes| - 1]));
      WrittenOrMovedUpTrans(s.rows, u.rows, WriteStringSpec(s, bytes).rows);
    }
  }

  /** Text that fits on the bottom row lands there left to right from the
      current column, with no scroll: the rows above and the rest of the
      bottom row stay as they were. */
  lemma {:induction false} TextFillsBottomRow(s: WriterState, bytes: seq<u8>)
    requires WellFormed(s) && s.column + |bytes| <= BUFFER_WIDTH
    requires forall i :: 0 <= i < |bytes| ==> 0x20 <= bytes[i] <= 0x7e
    ensures WriteStringSpec(s, bytes).column == s.column + |bytes|
    ensures WriteStringSpec(s, bytes).rows[..BOTTOM] == s.rows[..BOTTOM]
    ensures forall c :: 0 <= c < BUFFER_WIDTH ==>
      WriteStringSpec(s, bytes).rows[BOTTOM][c] ==
        if s.column <= c < s.column + |bytes| then ScreenChar(bytes[c - s.column], s.color)
        else s.rows[BOTTOM][c]
    decreases |bytes|
  {
    if bytes != [] {
      var n := |bytes| - 1;
      TextFillsBottomRow(s, bytes[..n]);
      assert forall i :: 0 <= i < n ==> bytes[..n][i] == bytes[i];
    }
  }

  /** A newline written n times. */
  function Newlines(n: nat): (r: seq<u8>)
    ensures |r| == n && forall i :: 0 <= i < n ==> r[i] == NEWLINE
  {
    seq(n, _ => NEWLINE)
  }

  /** k newlines shift the screen up k rows: row r shows what row r + k
      showed, and the k bottom rows are blank; 25 of them clear the screen. */
  lemma {:induction false} NewlinesScroll(s: WriterState, k: nat)
    requires WellFormed(s) && k <= BUFFER_HEIGHT
    ensures forall r :: 0 <= r < BUFFER_HEIGHT - k ==> WriteStringSpec(s, Newlines(k)).rows[r] == s.rows[r + k]
    ensures forall r :: BUFFER_HEIGHT - k <= r < BUFFER_HEIGHT ==> WriteStringSpec(s, Newlines(k)).rows[r] == BlankRow(s.color)
    ensures k > 0 ==> WriteStringSpec(s, Newlines(k)).column == 0
    decreases k
  {
    if k > 0 {
      NewlinesScroll(s, k - 1);
      var u := WriteStringSpec(s, Newlines(k - 1));
      assert Newlines(k)[..k - 1] == Newlines(k - 1);
      assert WriteStringSpec(s, Newlines(k)) == NewLineSpec(u);
    }
  }

  /** Without a scroll, `write_byte` changes exactly one cell: the one at the
      current column of the bottom row. */
  lemma WriteByteOneCell(s: WriterState, b: u8)
    requires WellFormed(s) && s.column < BUFFER_WIDTH && b != NEWLINE
    ensures WriteByteSpec(s, b).column == s.column + 1
    ensures forall r :: 0 <= r < BOTTOM ==> WriteByteSpec(s, b).rows[r] == s.rows[r]
    ensures forall c :: 0 <= c < BUFFER_WIDTH ==>
      WriteByteSpec(s, b).rows[BOTTOM][c] == if c == s.column then ScreenChar(b, s.color) else s.rows[BOTTOM][c]
  {
  }

  /** A byte written to a full bottom row wraps: the row moves up intact and
      the byte starts the new bottom row. */
  lemma FullRowWraps(s: WriterState, b: u8)
    requires WellFormed(s) && s.column == BUFFER_WIDTH && b != NEWLINE
    ensures WriteByteSpec(s, b).rows[BOTTOM - 1] == s.rows[BOTTOM]
    ensures WriteByteSpec(s, b).column == 1
    ensures WriteByteSpec(s, b).rows[BOTTOM][0] == ScreenChar(b, s.color)
  {
  }

  // ---------------------------------------------------------------------------
  // The writer over the memory-mapped buffer

  /** `Writer`: the column in the bottom row, the colour it writes with, and
      the text buffer it owns. */
  class Writer {
    var columnPosition: nat
    var colorCode: ColorCode
    const buffer: array2<ScreenChar>

    ghost predicate Valid()
      reads this
    {
      buffer.Length0 == BUFFER_HEIGHT && buffer.Length1 == BUFFER_WIDTH &&
      columnPosition <= BUFFER_WIDTH
    }

    /** The cells of the buffer, row by row. */
    ghost function Grid(): (g: seq<seq<ScreenChar>>)
      requires buffer.Length0 == BUFFER_HEIGHT && buffer.Length1 == BUFFER_WIDTH
      reads buffer
      ensures IsGrid(g)
    {
      seq(BUFFER_HEIGHT, r requires 0 <= r < BUFFER_HEIGHT reads buffer =>
        seq(BUFFER_WIDTH, c requires 0 <= c < BUFFER_WIDTH reads buffer => buffer[r, c]))
    }

    ghost function Model(): (s: WriterState)
      requires Valid()
      reads this, buffer
      ensures WellFormed(s)
    {
      WriterState(columnPosition, colorCode, Grid())
    }

    /** The buffer holds exactly g. */
    lemma GridIs(g: seq<seq<ScreenChar>>)
      requires Valid() && IsGrid(g)
      requires forall r, c :: 0 <= r < BUFFER_HEIGHT && 0 <= c < BUFFER_WIDTH ==> buffer[r, c] == g[r][c]
      ensures Grid() == g
    {
      forall r | 0 <= r < BUFFER_HEIGHT
        ensures Grid()[r] == g[r]
      {
        assert forall c :: 0 <= c < BUFFER_WIDTH ==> Grid()[r][c] == g[r][c];
      }
    }

    /** The global `WRITER`: column 0, yellow on black, over the text buffer
        mapped at 0xb8000. */
    constructor (vga: array2<ScreenChar>)
      requires vga.Length0 == BUFFER_HEIGHT && vga.Length1 == BUFFER_WIDTH
      ensures Valid() && buffer == vga
      ensures columnPosition == 0 && colorCode == ColorCodeNew(Yellow, Black)
      ensures colorCode.byte == 0x0E
    {
      columnPosition := 0;
      colorCode := ColorCodeNew(Yellow, Black);
      buffer := vga;
    }

    /** `clear_row`: fill one row with blanks in the current colour. */
    method ClearRow(row: nat)
      requires Valid() && row < BUFFER_HEIGHT
      modifies buffer
      ensures Valid()
      ensures Grid() == old(Grid())[row := BlankRow(colorCode)]
    {
      ghost var g := Grid();
      var blank := ScreenChar(SPACE, colorCode);
      for col := 0 to BUFFER_WIDTH
        invariant forall r, c :: 0 <= r < BUFFER_HEIGHT && 0 <= c < BUFFER_WIDTH ==>
          buffer[r, c] == if r == row && c < col then blank else g[r][c]
      {
        buffer[row, col] := blank;
      }
      GridIs(g[row := BlankRow(colorCode)]);
    }

    /** `new_line`: copy each row onto the one above, clear the bottom row
        and return to column 0. */
    method NewLine()
      requires Valid()
      modifies this, buffer
      ensures Valid()
      ensures Model() == NewLineSpec(old(Model()))
    {
      ghost var g := Grid();
      for row := 1 to BUFFER_HEIGHT
        modifies buffer
        invariant forall r, c :: 0 <= r < row - 1 && 0 <= c < BUFFER_WIDTH ==> buffer[r, c] == g[r + 1][c]
        invariant forall r, c :: row - 1 <= r < BUFFER_HEIGHT && 0 <= c < BUFFER_WIDTH ==> buffer[r, c] == g[r][c]
      {
        var above := row - 1;
        for col := 0 to BUFFER_WIDTH
          modifies buffer
          invariant forall r, c :: 0 <= r < above && 0 <= c < BUFFER_WIDTH ==> buffer[r, c] == g[r + 1][c]
          invariant forall c :: 0 <= c < col ==> buffer[above, c] == g[row][c]
          invariant forall c :: col <= c < BUFFER_WIDTH ==> buffer[above, c] == g[above][c]
          invariant forall r, c :: row <= r < BUFFER_HEIGHT && 0 <= c < BUFFER_WIDTH ==> buffer[r, c] == g[r][c]
        {
          var character := buffer[row, col];
          buffer[above, col] := character;
        }
      }
      GridIs(g[1..] + [g[BOTTOM]]);
      ClearRow(BOTTOM);
      columnPosition := 0;
      assert (g[1..] + [g[BOTTOM]])[BOTTOM := BlankRow(colorCode)] == g[1..] + [BlankRow(colorCode)];
    }

    /** `write_byte`. */
    method WriteByte(byte: u8)
      requires Valid()
      modifies this, buffer
      ensures Valid()
      ensures Model() == WriteByteSpec(old(Model()), byte)
    {
      if byte == NEWLINE {
        NewLine();
        return;
      }
      if columnPosition >= BUFFER_WIDTH {
        NewLine();
      }
      ghost var g := Grid();
      var row := BOTTOM;
      var col := columnPosition;
      buffer[row, col] := ScreenChar(byte, colorCode);
      columnPosition := columnPosition + 1;
      GridIs(g[row := g[row][col := ScreenChar(byte, colorCode)]]);
    }

    /** `write_string`: each byte of the string, unprintable ones as `■`. */
    method WriteString(s: seq<u8>)
      requires Valid()
      modifies this, buffer
      ensures Valid()
      ensures Model() == WriteStringSpec(old(Model()), s)
    {
      for i := 0 to |s|
        invariant Valid()
        invariant Model() == WriteStringSpec(old(Model()), s[..i])
      {
        var byte := s[i];
        if 0x20 <= byte <= 0x7e || byte == NEWLINE {
          WriteByte(byte);
        } else {
          WriteByte(SQUARE);
        }
        assert s[..i + 1][..i] == s[..i];
      }
      assert s[..|s|] == s;
    }

    /** `fmt::Write::write_str`: writes the string and always succeeds. */
    method WriteStr(s: seq<u8>) returns (ok: bool)
      requires Valid()
      modifies this, buffer
      ensures Valid()
      ensures Model() == WriteStringSpec(old(Model()), s)
      ensures ok
    {
      WriteString(s);
      ok := true;
    }
  }
}
