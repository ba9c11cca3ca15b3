/** What the control sequences mean for each other, told on the streams that hold them. */
module CursorLaws {
  import opened Wrappers
  import opened Text
  import opened Decimal
  import opened Screens
  import opened Painting

  /** A control sequence with one number. */
  function Go(n: nat, final: char): string {
    [ESC, '['] + Digits(n) + [final]
  }

  /** A control sequence with two numbers. */
  function GoTo(row: nat, col: nat, final: char): string {
    [ESC, '['] + (Digits(row) + ";" + Digits(col)) + [final]
  }

  predicate OnScreen(d: Display) {
    Shaped(d) && 0 <= d.row && 0 <= d.col
  }

  lemma NumberAlone(a: string)
    requires a != [] && AllDigits(a)
    ensures Numbers([a]) == [Value(a)]
  {
    assert [a][1..] == [];
  }

  lemma OneNumber(n: nat)
    ensures Args(Digits(n)) == [n] && Plain(Digits(n))
  {
    var s := Digits(n);
    DigitsAreNoMarks(n);
    assert StripMarks(s) == s;
    NoSeparator(s, ';');
    ValueOfDigits(n);
    NumberAlone(s);
  }

  lemma GoIsRead(w: Width, d: Display, n: nat, final: char)
    requires Shaped(d) && IsFinal(final)
    ensures Complete(Go(n, final)) && Feed(w, d, Go(n, final)) == Control(d, Digits(n), final)
    ensures Args(Digits(n)) == [n]
  {
    OneNumber(n);
    SequenceIsRead(Digits(n), final);
    OneUnit(w, d, Go(n, final), Sequence(Digits(n), final));
  }

  lemma OneUnit(w: Width, d: Display, text: string, token: Token)
    requires Shaped(d) && Tokens(text) == [token]
    ensures Feed(w, d, text) == Perform(w, d, token)
  {
    PerformStep(w, d, token, []);
    assert [token] + [] == [token];
  }

  lemma GoToIsRead(w: Width, d: Display, row: nat, col: nat, final: char)
    requires Shaped(d) && IsFinal(final)
    ensures Feed(w, d, GoTo(row, col, final)) == Control(d, Digits(row) + ";" + Digits(col), final)
    ensures Args(Digits(row) + ";" + Digits(col)) == [row, col]
  {
    MoveArguments(row, col);
    DigitsAreNoMarks(row);
    DigitsAreNoMarks(col);
    SequenceIsRead(Digits(row) + ";" + Digits(col), final);
    OneUnit(w, d, GoTo(row, col, final), Sequence(Digits(row) + ";" + Digits(col), final));
  }

  /** Two sequences, one after the other. */
  lemma TwoAreRead(w: Width, d: Display, m: nat, f: char, n: nat, g: char)
    requires Shaped(d) && IsFinal(f) && IsFinal(g)
    ensures Feed(w, d, Go(m, f) + Go(n, g)) == Control(Control(d, Digits(m), f), Digits(n), g)
    ensures Feed(w, Feed(w, d, Go(m, f)), Go(n, g)) == Control(Control(d, Digits(m), f), Digits(n), g)
  {
    GoIsRead(w, d, m, f);
    FeedsInParts(w, d, Go(m, f), Go(n, g));
    GoIsRead(w, Feed(w, d, Go(m, f)), n, g);
  }

  // -------------------------------------------------------------- relative moves

  lemma UpAndDown(d: Display, p: string, n: nat)
    requires OnScreen(d) && Args(p) == [n]
    ensures Control(Control(d, p, 'A'), p, 'B') == d <==> n <= d.row || d.row == d.rows - 1
    ensures Control(Control(d, p, 'B'), p, 'A') == d <==> d.row + n < d.rows || d.row == 0
    ensures Control(d, p, 'A').row <= d.row <= Control(d, p, 'B').row
    ensures Control(d, p, 'A').col == d.col == Control(d, p, 'B').col
  {
  }

  lemma LeftAndRight(d: Display, p: string, n: nat)
    requires OnScreen(d) && Args(p) == [n]
    ensures Control(Control(d, p, 'D'), p, 'C') == d <==> n <= d.col || d.col == d.cols - 1
    ensures Control(Control(d, p, 'C'), p, 'D') == d <==> d.col + n < d.cols || d.col == 0
    ensures Control(d, p, 'D').col <= d.col <= Control(d, p, 'C').col
    ensures Control(d, p, 'D').row == d.row == Control(d, p, 'C').row
  {
  }

  /** Up and down again comes back exactly when the top is not hit, or the cursor was on the last row. */
  lemma UpThenDownIff(w: Width, d: Display, n: nat)
    requires OnScreen(d)
    ensures Feed(w, Feed(w, d, Go(n, 'A')), Go(n, 'B')) == d <==> n <= d.row || d.row == d.rows - 1
    ensures Feed(w, d, Go(n, 'A')).row <= d.row && Feed(w, d, Go(n, 'A')).col == d.col
  {
    GoIsRead(w, d, n, 'A');
    TwoAreRead(w, d, n, 'A', n, 'B');
    UpAndDown(d, Digits(n), n);
  }

  lemma DownThenUpIff(w: Width, d: Display, n: nat)
    requires OnScreen(d)
    ensures Feed(w, Feed(w, d, Go(n, 'B')), Go(n, 'A')) == d <==> d.row + n < d.rows || d.row == 0
    ensures Feed(w, d, Go(n, 'B')).row >= d.row && Feed(w, d, Go(n, 'B')).col == d.col
  {
    GoIsRead(w, d, n, 'B');
    TwoAreRead(w, d, n, 'B', n, 'A');
    UpAndDown(d, Digits(n), n);
  }

  lemma RightThenLeftIff(w: Width, d: Display, n: nat)
    requires OnScreen(d)
    ensures Feed(w, Feed(w, d, Go(n, 'C')), Go(n, 'D')) == d <==> d.col + n < d.cols || d.col == 0
    ensures Feed(w, d, Go(n, 'C')).col >= d.col && Feed(w, d, Go(n, 'C')).row == d.row
  {
    GoIsRead(w, d, n, 'C');
    TwoAreRead(w, d, n, 'C', n, 'D');
    LeftAndRight(d, Digits(n), n);
  }

  lemma LeftThenRightIff(w: Width, d: Display, n: nat)
    requires OnScreen(d)
    ensures Feed(w, Feed(w, d, Go(n, 'D')), Go(n, 'C')) == d <==> n <= d.col || d.col == d.cols - 1
    ensures Feed(w, d, Go(n, 'D')).col <= d.col && Feed(w, d, Go(n, 'D')).row == d.row
  {
    GoIsRead(w, d, n, 'D');
    TwoAreRead(w, d, n, 'D', n, 'C');
    LeftAndRight(d, Digits(n), n);
  }

  lemma ControlsAdd(d: Display, p: string, m: nat, q: string, n: nat, sum: string, final: char)
    requires OnScreen(d) && final in {'A', 'B', 'C', 'D'}
    requires Args(p) == [m] && Args(q) == [n] && Args(sum) == [m + n]
    ensures Control(Control(d, p, final), q, final) == Control(d, sum, final)
  {
  }

  lemma SameControl(w: Width, d: Display, m: nat, n: nat, sum: nat, final: char)
    requires Shaped(d) && IsFinal(final)
    requires Control(Control(d, Digits(m), final), Digits(n), final) == Control(d, Digits(sum), final)
    ensures Feed(w, d, Go(m, final) + Go(n, final)) == Feed(w, d, Go(sum, final))
  {
    GoIsRead(w, d, sum, final);
    TwoAreRead(w, d, m, final, n, final);
  }

  /** Two moves in one direction are one move by the sum. */
  lemma MovesAdd(w: Width, d: Display, m: nat, n: nat, final: char)
    requires OnScreen(d) && final in {'A', 'B', 'C', 'D'}
    ensures Feed(w, d, Go(m, final) + Go(n, final)) == Feed(w, d, Go(m + n, final))
  {
    OneNumber(m);
    OneNumber(n);
    OneNumber(m + n);
    ControlsAdd(d, Digits(m), m, Digits(n), n, Digits(m + n), final);
    SameControl(w, d, m, n, m + n, final);
  }

  lemma ControlsOfOne(d: Display, p: string)
    requires OnScreen(d) && Args(p) == [1]
    ensures Control(d, p, 'G') == d.(col := 0)
    ensures Control(d, p, 'B') == d.(row := Min(d.row + 1, d.rows - 1))
    ensures Control(d, p, 'D') == d.(col := Max(d.col - 1, 0))
  {
  }

  /** Carriage return, line feed and backspace are the moves they stand for. */
  lemma ControlCharactersMove(w: Width, d: Display, n: nat)
    requires OnScreen(d) && n == 1
    ensures Feed(w, d, "\r") == Feed(w, d, Go(n, 'G'))
    ensures Feed(w, d, "\n") == Feed(w, d, Go(n, 'B'))
    ensures Feed(w, d, [BACKSPACE]) == Feed(w, d, Go(n, 'D'))
  {
    GoIsRead(w, d, n, 'G');
    GoIsRead(w, d, n, 'B');
    GoIsRead(w, d, n, 'D');
    ControlsOfOne(d, Digits(n));
    CharacterIsRead(w, d, '\r');
    CharacterIsRead(w, d, '\n');
    CharacterIsRead(w, d, BACKSPACE);
  }

  lemma CharacterIsRead(w: Width, d: Display, c: char)
    requires Shaped(d) && c != ESC
    ensures Feed(w, d, [c]) == Perform(w, d, Single(c))
  {
    assert Rest([c], 1) == [];
    OneUnit(w, d, [c], Single(c));
  }

  // -------------------------------------------------------------- absolute moves

  lemma ControlsPlace(d: Display, both: string, p: string, row: nat, q: string, col: nat)
    requires Shaped(d) && Args(both) == [row, col] && Args(p) == [row] && Args(q) == [col]
    ensures Control(d, both, 'H') == Control(Control(d, p, 'd'), q, 'G')
    ensures Control(d, both, 'H') == Control(Control(d, q, 'G'), p, 'd')
    ensures Control(d, both, 'f') == Control(d, both, 'H')
    ensures 1 <= row <= d.rows && 1 <= col <= d.cols ==>
      Control(d, both, 'H') == d.(row := row - 1, col := col - 1)
  {
  }

  /** Going to a row and a column at once, in either spelling, is going to each in turn. */
  lemma PositionIsRowAndColumn(w: Width, d: Display, row: nat, col: nat)
    requires Shaped(d)
    ensures Feed(w, d, GoTo(row, col, 'H')) == Feed(w, d, Go(row, 'd') + Go(col, 'G'))
    ensures Feed(w, d, GoTo(row, col, 'H')) == Feed(w, d, Go(col, 'G') + Go(row, 'd'))
    ensures Feed(w, d, GoTo(row, col, 'f')) == Feed(w, d, GoTo(row, col, 'H'))
    ensures 1 <= row <= d.rows && 1 <= col <= d.cols ==>
      Feed(w, d, GoTo(row, col, 'H')) == d.(row := row - 1, col := col - 1)
  {
    GoToIsRead(w, d, row, col, 'H');
    GoToIsRead(w, d, row, col, 'f');
    TwoAreRead(w, d, row, 'd', col, 'G');
    TwoAreRead(w, d, col, 'G', row, 'd');
    OneNumber(row);
    OneNumber(col);
    ControlsPlace(d, Digits(row) + ";" + Digits(col), Digits(row), row, Digits(col), col);
  }

  // ------------------------------------------------------------------- erasing

  /** Which cells an erasure leaves as they were. */
  ghost predicate Spares(before: Display, after: Display, r: int, c: int)
    requires Shaped(before) && SameSize(before, after) && InGrid(before, r, c)
  {
    after.grid[r][c] == before.grid[r][c]
  }

  ghost predicate IsBlank(d: Display, r: int, c: int)
    requires Shaped(d) && InGrid(d, r, c)
  {
    d.grid[r][c] == " "
  }

  lemma ControlErases(d: Display, p: string, mode: nat)
    requires Shaped(d) && Args(p) == [mode]
    ensures Control(d, p, 'K') == EraseLine(d, mode)
  {
  }

  lemma ErasureIsRead(w: Width, d: Display, mode: nat)
    requires Shaped(d)
    ensures Feed(w, d, Go(mode, 'K')) == EraseLine(d, mode)
  {
    GoIsRead(w, d, mode, 'K');
    ControlErases(d, Digits(mode), mode);
  }

  lemma ErasedCells(d: Display, r: int, c: int)
    requires OnScreen(d) && InGrid(d, r, c)
    ensures var (right, left) := (EraseLine(d, 0), EraseLine(d, 1));
      && (if r == d.row && c >= d.col then IsBlank(right, r, c) else Spares(d, right, r, c))
      && (if r == d.row && c <= d.col then IsBlank(left, r, c) else Spares(d, left, r, c))
  {
  }

  /** Erasing to the end and to the beginning of a line each blank their side, cursor included, and no more. */
  lemma HalvesAreBlanked(w: Width, d: Display, r: int, c: int)
    requires OnScreen(d) && InGrid(d, r, c)
    ensures var right := Feed(w, d, Go(0, 'K'));
      && right.row == d.row && right.col == d.col
      && (if r == d.row && c >= d.col then IsBlank(right, r, c) else Spares(d, right, r, c))
    ensures var left := Feed(w, d, Go(1, 'K'));
      && left.row == d.row && left.col == d.col
      && (if r == d.row && c <= d.col then IsBlank(left, r, c) else Spares(d, left, r, c))
  {
    ErasureIsRead(w, d, 0);
    ErasureIsRead(w, d, 1);
    ErasedCells(d, r, c);
  }

  lemma TwoErasures(w: Width, d: Display, m: nat, n: nat)
    requires Shaped(d)
    ensures Feed(w, d, Go(m, 'K') + Go(n, 'K')) == EraseLine(EraseLine(d, m), n)
  {
    TwoAreRead(w, d, m, 'K', n, 'K');
    OneNumber(m);
    OneNumber(n);
    ControlErases(d, Digits(m), m);
    ControlErases(EraseLine(d, m), Digits(n), n);
  }

  lemma LineIsErased(d: Display)
    requires OnScreen(d)
    ensures EraseLine(EraseLine(d, 0), 1) == EraseLine(d, 2)
    ensures EraseLine(EraseLine(d, 1), 0) == EraseLine(d, 2)
  {
    var line := d.grid[d.row];
    assert EraseTo(EraseFrom(line, d.col), d.col) == BlankLine(d.cols);
    assert EraseFrom(EraseTo(line, d.col), d.col) == BlankLine(d.cols);
  }

  /** Both halves, in either order, are the whole line. */
  lemma HalvesAreTheLine(w: Width, d: Display)
    requires OnScreen(d)
    ensures Feed(w, d, Go(0, 'K') + Go(1, 'K')) == Feed(w, d, Go(2, 'K'))
    ensures Feed(w, d, Go(1, 'K') + Go(0, 'K')) == Feed(w, d, Go(2, 'K'))
  {
    TwoErasures(w, d, 0, 1);
    TwoErasures(w, d, 1, 0);
    ErasureIsRead(w, d, 2);
    LineIsErased(d);
  }

  lemma {:induction false} SpacesJoin(n: nat)
    ensures Join(BlankLine(n)) == seq(n, _ => ' ')
  {
    if n > 0 {
      assert BlankLine(n)[1..] == BlankLine(n - 1);
      SpacesJoin(n - 1);
    }
  }

  lemma {:induction false} SpacesEnd(n: nat)
    ensures TrimEnd(seq(n, _ => ' ')) == ""
  {
    if n > 0 {
      var s := seq(n, _ => ' ');
      assert s[..n - 1] == seq(n - 1, _ => ' ');
      SpacesEnd(n - 1);
    }
  }

  lemma SpacesTrim(n: nat)
    ensures TrimEnd(Join(BlankLine(n))) == ""
  {
    SpacesJoin(n);
    SpacesEnd(n);
  }

  lemma ControlClears(d: Display, p: string, n: nat)
    requires Shaped(d) && Args(p) == [n]
    ensures Control(d, p, 'J') == if n == 2 then d.(grid := BlankGrid(d.rows, d.cols)) else d
  {
  }

  /** Clearing the screen leaves no text and the cursor where it was; other modes do nothing. */
  lemma ClearingLeavesNothing(w: Width, d: Display, n: nat)
    requires Shaped(d)
    ensures var e := Feed(w, d, Go(n, 'J'));
      if n == 2 then (forall r :: 0 <= r < d.rows ==> Lines(e)[r] == "") && e.row == d.row && e.col == d.col
      else e == d
  {
    GoIsRead(w, d, n, 'J');
    ControlClears(d, Digits(n), n);
    SpacesTrim(d.cols);
  }

  // ----------------------------------------------------------- wide characters

  lemma {:induction false} JoinAppends(a: Line, b: Line)
    ensures Join(a + b) == Join(a) + Join(b)
  {
    if a == [] {
      assert a + b == b;
    } else {
      assert (a + b)[0] == a[0] && (a + b)[1..] == a[1..] + b;
      JoinAppends(a[1..], b);
      Associates(a[0], Join(a[1..]), Join(b));
    }
  }

  lemma {:induction false} FillersJoin(n: nat)
    ensures Join(seq(n, _ => "")) == ""
  {
    if n > 0 {
      assert seq(n, _ => "")[1..] == seq(n - 1, _ => "");
      FillersJoin(n - 1);
    }
  }

  /** A row after a character was put on it: what was left of it, the character, its fillers, the others. */
  lemma LineWithCharacter(line: Line, col: nat, n: nat, c: char)
    requires n >= 1 && col + n <= |line|
    ensures PutInLine(line, col, n, c) == line[..col] + [[c]] + seq(n - 1, _ => "") + line[col + n..]
  {
  }

  lemma LineReads(line: Line, col: nat, n: nat, c: char)
    requires n >= 1 && col + n <= |line|
    ensures Join(PutInLine(line, col, n, c)) == Join(line[..col]) + [c] + Join(line[col + n..])
  {
    var fillers: Line := seq(n - 1, _ => "");
    LineWithCharacter(line, col, n, c);
    JoinAppends(line[..col] + [[c]] + fillers, line[col + n..]);
    JoinAppends(line[..col] + [[c]], fillers);
    JoinAppends(line[..col], [[c]]);
    FillersJoin(n - 1);
    assert Join([[c]]) == [c] + Join([[c]][1..]);
  }

  lemma PutTakes(w: Width, d: Display, c: char)
    requires OnScreen(d) && w(c) > 0
    ensures var e := Put(w, d, c);
      && e.grid[d.row] == PutInLine(d.grid[d.row], d.col, w(c), c)
      && (forall r :: 0 <= r < d.rows && r != d.row ==> e.grid[r] == d.grid[r])
      && e.row == d.row && e.col == Min(d.col + w(c), d.cols - 1)
  {
  }

  /**
   A character that fits before the edge takes its columns and nothing else: the row reads as
   before, the character, and what follows the columns it took. One without a width does nothing.
   */
  lemma CharacterTakesItsColumns(w: Width, d: Display, c: char)
    requires OnScreen(d) && c >= ' '
    ensures var e := Feed(w, d, [c]);
      if w(c) == 0 then e == d
      else d.col + w(c) <= d.cols ==>
        && Join(e.grid[d.row]) == Join(d.grid[d.row][..d.col]) + [c] + Join(d.grid[d.row][d.col + w(c)..])
        && (forall r :: 0 <= r < d.rows && r != d.row ==> e.grid[r] == d.grid[r])
        && e.row == d.row && e.col == Min(d.col + w(c), d.cols - 1)
  {
    CharacterIsRead(w, d, c);
    if w(c) > 0 && d.col + w(c) <= d.cols {
      PutTakes(w, d, c);
      LineReads(d.grid[d.row], d.col, w(c), c);
    }
  }
}
