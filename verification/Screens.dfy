/** A character grid fed with a terminal stream, as the end-to-end tests replay it. */
module Screens {
  import opened Wrappers
  import opened Text
  import opened Decimal

  const ESC: char := '\U{1B}'
  const BEL: char := '\U{07}'
  const BACKSPACE: char := '\U{08}'

  type Line = seq<string>
  type Grid = seq<Line>

  /** The columns a character takes up. */
  type Width = char -> nat

  datatype Display = Display(rows: nat, cols: nat, grid: Grid, row: int, col: int)

  /** The grid keeps its shape, and the cursor is at most one step before the first row or column. */
  predicate Shaped(d: Display) {
    && d.rows >= 1 && d.cols >= 1 && |d.grid| == d.rows
    && (forall r :: 0 <= r < d.rows ==> |d.grid[r]| == d.cols)
    && -1 <= d.row < d.rows && -1 <= d.col < d.cols
  }

  predicate SameSize(d: Display, e: Display) {
    Shaped(e) && e.rows == d.rows && e.cols == d.cols
  }

  function Min(a: int, b: int): int {
    if a < b then a else b
  }

  function Max(a: int, b: int): int {
    if a > b then a else b
  }

  function BlankLine(cols: nat): Line {
    seq(cols, _ => " ")
  }

  function BlankGrid(rows: nat, cols: nat): Grid {
    seq(rows, _ => BlankLine(cols))
  }

  // ------------------------------------------------------------ one character

  /** A character and the fillers after it, cut off at the edge. */
  function PutInLine(line: Line, col: nat, width: nat, c: char): (r: Line)
    ensures |r| == |line|
  {
    seq(|line|, i requires 0 <= i < |line| => if i == col then [c] else if col < i < col + width then "" else line[i])
  }

  function Put(w: Width, d: Display, c: char): (e: Display)
    requires Shaped(d)
    ensures SameSize(d, e)
  {
    if w(c) == 0 then d
    else
      d.(grid := if d.row >= 0 && d.col >= 0 then d.grid[d.row := PutInLine(d.grid[d.row], d.col, w(c), c)] else d.grid,
         col := Min(d.col + w(c), d.cols - 1))
  }

  // --------------------------------------------------------- control sequences

  function SplitOn(s: string, sep: char): (parts: seq<string>)
    ensures parts != []
  {
    if s == [] then [""]
    else
      var parts := SplitOn(s[1..], sep);
      if s[0] == sep then [""] + parts else [[s[0]] + parts[0]] + parts[1..]
  }

  function StripMarks(s: string): string {
    if s != [] && s[0] == '?' then StripMarks(s[1..]) else s
  }

  function Numbers(parts: seq<string>): seq<nat> {
    if parts == [] then []
    else if parts[0] != [] && AllDigits(parts[0]) then [Value(parts[0])] + Numbers(parts[1..])
    else Numbers(parts[1..])
  }

  /** The numeric parameters; a missing one is left out, so the next takes its place. */
  function Args(params: string): seq<nat> {
    Numbers(SplitOn(StripMarks(params), ';'))
  }

  function Arg(args: seq<nat>, i: nat, default: nat): nat {
    if i < |args| then args[i] else default
  }

  function EraseFrom(line: Line, col: int): (r: Line)
    ensures |r| == |line|
  {
    seq(|line|, i requires 0 <= i < |line| => if i >= col then " " else line[i])
  }

  function EraseTo(line: Line, col: int): (r: Line)
    ensures |r| == |line|
  {
    seq(|line|, i requires 0 <= i < |line| => if i <= col then " " else line[i])
  }

  /** Where index -1 of a list of `n` elements is. */
  function At(i: int, n: nat): int {
    if i < 0 then i + n else i
  }

  function EraseLine(d: Display, mode: nat): (e: Display)
    requires Shaped(d)
    ensures SameSize(d, e)
  {
    var r := At(d.row, d.rows);
    d.(grid := d.grid[r := if mode == 0 then EraseFrom(d.grid[r], d.col)
                           else if mode == 1 then EraseTo(d.grid[r], d.col)
                           else BlankLine(d.cols)])
  }

  function Control(d: Display, params: string, final: char): (e: Display)
    requires Shaped(d)
    ensures SameSize(d, e)
  {
    var args := Args(params);
    var first := Arg(args, 0, 1);
    match final
    case 'H' => d.(row := Min(first - 1, d.rows - 1), col := Min(Arg(args, 1, 1) - 1, d.cols - 1))
    case 'f' => d.(row := Min(first - 1, d.rows - 1), col := Min(Arg(args, 1, 1) - 1, d.cols - 1))
    case 'A' => d.(row := Max(d.row - first, 0))
    case 'B' => d.(row := Min(d.row + first, d.rows - 1))
    case 'C' => d.(col := Min(d.col + first, d.cols - 1))
    case 'D' => d.(col := Max(d.col - first, 0))
    case 'G' => d.(col := Min(first - 1, d.cols - 1))
    case 'd' => d.(row := Min(first - 1, d.rows - 1))
    case 'K' => EraseLine(d, Arg(args, 0, 0))
    case 'J' => if Arg(args, 0, 0) == 2 then d.(grid := BlankGrid(d.rows, d.cols)) else d
    case _ => d
  }

  // ------------------------------------------------------------------ the stream

  predicate IsFinal(c: char) {
    '@' <= c <= '~'
  }

  /** The position of the byte that ends a control sequence, or the end of the text. */
  function FinalAt(text: string, k: nat): (end: nat)
    requires k <= |text|
    ensures k <= end <= |text|
    decreases |text| - k
  {
    if k == |text| || IsFinal(text[k]) then k else FinalAt(text, k + 1)
  }

  predicate TerminatorAt(text: string, k: nat) {
    k + 1 < |text| && text[k] == ESC && text[k + 1] == '\\'
  }

  /** The position of the bell or string terminator that ends a title sequence. */
  function TitleEnd(text: string, k: nat): (end: nat)
    requires k <= |text|
    ensures k <= end <= |text|
    decreases |text| - k
  {
    if k == |text| || text[k] == BEL || TerminatorAt(text, k) then k else TitleEnd(text, k + 1)
  }

  datatype Token = Sequence(params: string, final: char) | Skipped | Single(c: char)

  /** The next unit of a stream, and how far it reaches; a cut one reaches past the end. */
  function TokenOf(text: string): (r: (Token, nat))
    requires text != []
    ensures r.1 >= 1
  {
    if text[0] != ESC then (Single(text[0]), 1)
    else if |text| > 1 && text[1] == '[' then
      var end := FinalAt(text, 2);
      (if end < |text| then Sequence(text[2..end], text[end]) else Skipped, end + 1)
    else if |text| > 1 && text[1] == ']' then (Skipped, TitleEnd(text, 2) + 2)
    else (Skipped, 2)
  }

  function Perform(w: Width, d: Display, token: Token): (e: Display)
    requires Shaped(d)
    ensures SameSize(d, e)
  {
    match token
    case Sequence(params, final) => Control(d, params, final)
    case Skipped => d
    case Single(c) =>
      if c == '\r' then d.(col := 0)
      else if c == '\n' then d.(row := Min(d.row + 1, d.rows - 1))
      else if c == BACKSPACE then d.(col := Max(d.col - 1, 0))
      else if c >= ' ' then Put(w, d, c)
      else d
  }

  function Rest(text: string, n: nat): string {
    if n >= |text| then [] else text[n..]
  }

  function Tokens(text: string): seq<Token>
    decreases |text|
  {
    if text == [] then []
    else
      var (token, n) := TokenOf(text);
      [token] + Tokens(Rest(text, n))
  }

  function PerformAll(w: Width, d: Display, tokens: seq<Token>): (e: Display)
    requires Shaped(d)
    ensures SameSize(d, e)
    decreases |tokens|
  {
    if tokens == [] then d else PerformAll(w, Perform(w, d, tokens[0]), tokens[1..])
  }

  function Feed(w: Width, d: Display, text: string): (e: Display)
    requires Shaped(d)
    ensures SameSize(d, e)
  {
    PerformAll(w, d, Tokens(text))
  }

  function Join(cells: Line): string {
    if cells == [] then [] else cells[0] + Join(cells[1..])
  }

  /** The grid as text, one trimmed line per row. */
  function Lines(d: Display): seq<string> {
    seq(|d.grid|, r requires 0 <= r < |d.grid| => TrimEnd(Join(d.grid[r])))
  }

  // ------------------------------------------------------------ scanning further in

  lemma {:induction false} FinalAtShifts(text: string, index: nat, k: nat)
    requires index + k <= |text|
    ensures FinalAt(text[index..], k) + index == FinalAt(text, index + k)
    decreases |text| - k
  {
    if index + k < |text| && !IsFinal(text[index + k]) {
      FinalAtShifts(text, index, k + 1);
    }
  }

  lemma {:induction false} TitleEndShifts(text: string, index: nat, k: nat)
    requires index + k <= |text|
    ensures TitleEnd(text[index..], k) + index == TitleEnd(text, index + k)
    decreases |text| - k
  {
    if index + k < |text| {
      assert TerminatorAt(text[index..], k) <==> TerminatorAt(text, index + k);
      if text[index + k] != BEL && !TerminatorAt(text, index + k) {
        TitleEndShifts(text, index, k + 1);
      }
    }
  }

  lemma RestOfRest(text: string, index: nat, next: nat)
    requires index <= next && index < |text|
    ensures Rest(Rest(text, index), next - index) == Rest(text, next)
  {
  }

  lemma TokensBeginWith(text: string)
    requires text != []
    ensures Tokens(text) == [TokenOf(text).0] + Tokens(Rest(text, TokenOf(text).1))
  {
  }

  lemma TokensStep(text: string, index: nat, next: nat)
    requires index < |text| && TokenOf(Rest(text, index)).1 == next - index
    ensures Tokens(Rest(text, index)) == [TokenOf(Rest(text, index)).0] + Tokens(Rest(text, next))
  {
    TokensBeginWith(Rest(text, index));
    RestOfRest(text, index, next);
  }

  lemma PerformStep(w: Width, d: Display, token: Token, tokens: seq<Token>)
    requires Shaped(d)
    ensures PerformAll(w, d, [token] + tokens) == PerformAll(w, Perform(w, d, token), tokens)
  {
    assert ([token] + tokens)[1..] == tokens;
  }

  method ScanFinal(text: string, start: nat) returns (end: nat)
    requires start <= |text|
    ensures end == FinalAt(text, start)
  {
    end := start;
    while end < |text| && !IsFinal(text[end])
      invariant start <= end <= |text| && FinalAt(text, end) == FinalAt(text, start)
    {
      end := end + 1;
    }
  }

  method ScanTitle(text: string, start: nat) returns (end: nat)
    requires start <= |text|
    ensures end == TitleEnd(text, start)
  {
    end := start;
    while end < |text| && text[end] != BEL
      invariant start <= end <= |text| && TitleEnd(text, end) == TitleEnd(text, start)
    {
      if TerminatorAt(text, end) {
        break;
      }
      end := end + 1;
    }
  }

  // -------------------------------------------------------------------- the screen

  class Screen {
    const rows: nat
    const cols: nat
    const width: Width
    var grid: Grid
    var row: int
    var col: int

    ghost function State(): Display
      reads this
    {
      Display(rows, cols, grid, row, col)
    }

    constructor (rows: nat, cols: nat, width: Width)
      requires rows >= 1 && cols >= 1
      ensures Shaped(State()) && State() == Display(rows, cols, BlankGrid(rows, cols), 0, 0) && this.width == width
    {
      this.rows, this.cols, this.width := rows, cols, width;
      grid, row, col := BlankGrid(rows, cols), 0, 0;
    }

    method PutCell(c: char)
      requires Shaped(State())
      modifies this
      ensures State() == Put(width, old(State()), c)
    {
      var n := width(c);
      if n == 0 {
        return;
      }
      if 0 <= row < rows && 0 <= col < cols {
        var line := grid[row][col := [c]];
        ghost var before := grid[row];
        for offset := 1 to n
          invariant |line| == cols
          invariant forall i :: 0 <= i < cols ==>
            line[i] == if i == col then [c] else if col < i < col + offset then "" else before[i]
        {
          if col + offset < cols {
            line := line[col + offset := ""];
          }
        }
        assert line == PutInLine(before, col, n, c);
        grid := grid[row := line];
      }
      col := Min(col + n, cols - 1);
    }

    method EraseInLine(mode: nat)
      requires Shaped(State())
      modifies this`grid
      ensures State() == EraseLine(old(State()), mode)
    {
      var r := At(row, rows);
      var line := grid[r];
      ghost var before := line;
      if mode == 0 {
        for index := col to cols
          invariant |line| == cols
          invariant forall i :: 0 <= i < cols ==>
            line[i] == if col <= i < index || (col < index && i == At(col, cols)) then " " else before[i]
        {
          line := line[At(index, cols) := " "];
        }
        assert line == EraseFrom(before, col);
      } else if mode == 1 {
        for index := 0 to col + 1
          invariant |line| == cols
          invariant forall i :: 0 <= i < cols ==> line[i] == if i < index then " " else before[i]
        {
          line := line[index := " "];
        }
        assert line == EraseTo(before, col);
      } else {
        line := BlankLine(cols);
      }
      grid := grid[r := line];
    }

    method Csi(params: string, final: char)
      requires Shaped(State())
      modifies this
      ensures State() == Control(old(State()), params, final)
    {
      var args := Args(params);
      var first: int := Arg(args, 0, 1);
      if final == 'H' || final == 'f' {
        row := Min(first - 1, rows - 1);
        col := Min(Arg(args, 1, 1) - 1, cols - 1);
      } else if final == 'A' {
        row := Max(row - first, 0);
      } else if final == 'B' {
        row := Min(row + first, rows - 1);
      } else if final == 'C' {
        col := Min(col + first, cols - 1);
      } else if final == 'D' {
        col := Max(col - first, 0);
      } else if final == 'G' {
        col := Min(first - 1, cols - 1);
      } else if final == 'd' {
        row := Min(first - 1, rows - 1);
      } else if final == 'K' {
        EraseInLine(Arg(args, 0, 0));
      } else if final == 'J' {
        if Arg(args, 0, 0) == 2 {
          grid := BlankGrid(rows, cols);
        }
      }
    }

    method HandleSingle(c: char)
      requires Shaped(State())
      modifies this
      ensures State() == Perform(width, old(State()), Single(c))
    {
      if c == '\r' {
        col := 0;
      } else if c == '\n' {
        row := Min(row + 1, rows - 1);
      } else if c == BACKSPACE {
        col := Max(col - 1, 0);
      } else if c >= ' ' {
        PutCell(c);
      }
    }

    /** One unit of the stream at a position, and where the next one begins. */
    method Step(text: string, index: nat) returns (next: nat)
      requires Shaped(State()) && index < |text|
      modifies this
      ensures next > index && TokenOf(text[index..]).1 == next - index
      ensures State() == Perform(width, old(State()), TokenOf(text[index..]).0)
    {
      if text[index] != ESC {
        HandleSingle(text[index]);
        return index + 1;
      }
      if index + 1 < |text| && text[index + 1] == '[' {
        var end := ScanFinal(text, index + 2);
        FinalAtShifts(text, index, 2);
        if end < |text| {
          assert text[index..][2..end - index] == text[index + 2..end];
          Csi(text[index + 2..end], text[end]);
        }
        return end + 1;
      }
      if index + 1 < |text| && text[index + 1] == ']' {
        var end := ScanTitle(text, index + 2);
        TitleEndShifts(text, index, 2);
        return end + 2;
      }
      return index + 2;
    }

    /** Replays a stream. */
    method FeedText(text: string)
      requires Shaped(State())
      modifies this
      ensures State() == Feed(width, old(State()), text)
    {
      var index := 0;
      while index < |text|
        invariant Shaped(State())
        invariant Feed(width, State(), Rest(text, index)) == Feed(width, old(State()), text)
        decreases |text| - index
      {
        ghost var before := State();
        var next := Step(text, index);
        TokensStep(text, index, next);
        PerformStep(width, before, TokenOf(text[index..]).0, Tokens(Rest(text, next)));
        index := next;
      }
    }

    method ReadLines() returns (lines: seq<string>)
      ensures lines == Lines(State())
    {
      lines := [];
      for r := 0 to |grid|
        invariant |lines| == r
        invariant forall i :: 0 <= i < r ==> lines[i] == TrimEnd(Join(grid[i]))
      {
        lines := lines + [TrimEnd(Join(grid[r]))];
      }
    }
  }
}
