/** A difference stream turns the old frame into the new one, whatever was drawn in which order. */
module Painting {
  import opened Wrappers
  import opened Text
  import opened Decimal
  import opened Screens

  /** What the terminal should show: one character to a cell. */
  type Frame = seq<string>

  predicate Printable(w: Width, c: char) {
    c >= ' ' && w(c) == 1
  }

  ghost predicate Fits(w: Width, d: Display, frame: Frame) {
    && |frame| == d.rows
    && (forall r :: 0 <= r < d.rows ==> |frame[r]| == d.cols)
    && (forall r, c :: 0 <= r < d.rows && 0 <= c < d.cols ==> Printable(w, frame[r][c]))
  }

  predicate InGrid(d: Display, r: int, c: int) {
    0 <= r < d.rows && 0 <= c < d.cols
  }

  predicate CellShows(d: Display, frame: Frame, r: int, c: int)
    requires Shaped(d) && |frame| == d.rows && InGrid(d, r, c) && |frame[r]| == d.cols
  {
    d.grid[r][c] == [frame[r][c]]
  }

  ghost predicate Shows(w: Width, d: Display, frame: Frame)
    requires Shaped(d) && Fits(w, d, frame)
  {
    forall r, c :: InGrid(d, r, c) ==> CellShows(d, frame, r, c)
  }

  /** A piece of a row drawn with one cursor move, after setting a style or in the current one. */
  datatype Piece = Piece(row: nat, col: nat, length: nat, style: Option<string>)

  predicate Plain(s: string) {
    forall i :: 0 <= i < |s| ==> !IsFinal(s[i])
  }

  predicate Valid(d: Display, p: Piece) {
    p.row < d.rows && p.col + p.length <= d.cols && (p.style.Some? ==> Plain(p.style.value))
  }

  predicate Covers(p: Piece, r: int, c: int) {
    p.row == r && p.col <= c < p.col + p.length
  }

  ghost predicate Covered(pieces: seq<Piece>, r: int, c: int) {
    exists p :: p in pieces && Covers(p, r, c)
  }

  // -------------------------------------------------------------------- the stream

  function MoveParams(row: nat, col: nat): string {
    Digits(row + 1) + ";" + Digits(col + 1)
  }

  function MoveTo(row: nat, col: nat): string {
    [ESC, '['] + MoveParams(row, col) + ['H']
  }

  function Styled(style: Option<string>): string {
    match style
    case None => []
    case Some(params) => [ESC, '['] + params + ['m']
  }

  function Draw(frame: Frame, p: Piece): string
    requires p.row < |frame| && p.col + p.length <= |frame[p.row]|
  {
    MoveTo(p.row, p.col) + Styled(p.style) + frame[p.row][p.col..p.col + p.length]
  }

  ghost function Paint(d: Display, frame: Frame, pieces: seq<Piece>): string
    requires |frame| == d.rows && forall r :: 0 <= r < d.rows ==> |frame[r]| == d.cols
    requires forall p :: p in pieces ==> Valid(d, p)
  {
    if pieces == [] then []
    else
      assert Valid(d, pieces[0]);
      Draw(frame, pieces[0]) + Paint(d, frame, pieces[1..])
  }

  // ------------------------------------------------------- the stream as a list of units

  /** No unit of the text reaches past its end. */
  predicate Complete(text: string)
    decreases |text|
  {
    text == [] || (TokenOf(text).1 <= |text| && Complete(Rest(text, TokenOf(text).1)))
  }

  lemma {:induction false} FinalInFirst(a: string, b: string, k: nat)
    requires k <= |a| && FinalAt(a, k) < |a|
    ensures FinalAt(a + b, k) == FinalAt(a, k)
    decreases |a| - k
  {
    if !IsFinal(a[k]) { FinalInFirst(a, b, k + 1); }
  }

  lemma {:induction false} TitleInFirst(a: string, b: string, k: nat)
    requires k <= |a| && TitleEnd(a, k) + 2 <= |a|
    ensures TitleEnd(a + b, k) == TitleEnd(a, k)
    decreases |a| - k
  {
    if a[k] != BEL && !TerminatorAt(a, k) {
      TitleInFirst(a, b, k + 1);
      assert TitleEnd(a, k) == TitleEnd(a, k + 1) && TitleEnd(a, k + 1) >= k + 1;
      assert !TerminatorAt(a + b, k);
    }
  }

  lemma TokenInFirst(a: string, b: string)
    requires a != [] && TokenOf(a).1 <= |a|
    ensures TokenOf(a + b) == TokenOf(a)
  {
    if a[0] == ESC && a[1] == '[' {
      FinalInFirst(a, b, 2);
      assert (a + b)[2..FinalAt(a, 2)] == a[2..FinalAt(a, 2)];
    } else if a[0] == ESC && a[1] == ']' {
      TitleInFirst(a, b, 2);
    }
  }

  lemma RestInFirst(a: string, b: string, n: nat)
    requires n <= |a|
    ensures Rest(a + b, n) == Rest(a, n) + b
  {
  }

  lemma TokensBegin(text: string, rest: string)
    requires text != [] && rest == Rest(text, TokenOf(text).1)
    ensures Tokens(text) == [TokenOf(text).0] + Tokens(rest)
  {
  }

  lemma FirstToken(a: string, b: string) returns (token: seq<Token>, rest: string)
    requires a != [] && Complete(a)
    ensures Complete(rest) && |rest| < |a|
    ensures Tokens(a) == token + Tokens(rest) && Tokens(a + b) == token + Tokens(rest + b)
  {
    var n := TokenOf(a).1;
    token, rest := [TokenOf(a).0], Rest(a, n);
    TokenInFirst(a, b);
    RestInFirst(a, b, n);
    TokensBegin(a, rest);
    TokensBegin(a + b, rest + b);
  }

  lemma {:induction false} TokensSplit(a: string, b: string)
    requires Complete(a)
    ensures Tokens(a + b) == Tokens(a) + Tokens(b)
    decreases |a|
  {
    if a == [] {
      assert a + b == b;
    } else {
      var token, rest := FirstToken(a, b);
      TokensSplit(rest, b);
      Associates(token, Tokens(rest), Tokens(b));
    }
  }

  lemma {:induction false} CompleteSplit(a: string, b: string)
    requires Complete(a)
    ensures Complete(a + b) <==> Complete(b)
    decreases |a|
  {
    if a == [] {
      assert a + b == b;
    } else {
      TokenInFirst(a, b);
      RestInFirst(a, b, TokenOf(a).1);
      CompleteSplit(Rest(a, TokenOf(a).1), b);
    }
  }

  lemma {:induction false} PerformSplit(w: Width, d: Display, x: seq<Token>, y: seq<Token>)
    requires Shaped(d)
    ensures PerformAll(w, d, x + y) == PerformAll(w, PerformAll(w, d, x), y)
    decreases |x|
  {
    if x == [] {
      assert x + y == y;
    } else {
      assert (x + y)[1..] == x[1..] + y;
      PerformSplit(w, Perform(w, d, x[0]), x[1..], y);
    }
  }

  /** A stream may be fed in two parts wherever no escape sequence is cut. */
  lemma FeedsInParts(w: Width, d: Display, a: string, b: string)
    requires Shaped(d) && Complete(a)
    ensures Feed(w, d, a + b) == Feed(w, Feed(w, d, a), b)
  {
    TokensSplit(a, b);
    PerformSplit(w, d, Tokens(a), Tokens(b));
  }

  lemma {:induction false} FinalIsAppended(a: string, k: nat)
    requires k <= |a| && FinalAt(a, k) == |a|
    ensures FinalAt(a + "m", k) == |a|
    decreases |a| - k
  {
    if k < |a| { FinalIsAppended(a, k + 1); }
  }

  lemma {:induction false} TitleStaysOpen(a: string, k: nat)
    requires 2 <= k <= |a| && TitleEnd(a, k) + 2 > |a|
    ensures TitleEnd(a + "m", k) + 1 >= |a|
    decreases |a| - k
  {
    if k + 1 < |a| {
      assert TerminatorAt(a + "m", k) <==> TerminatorAt(a, k);
      TitleStaysOpen(a, k + 1);
    }
  }

  /** A unit that reaches past the end takes the next character with it, to no effect. */
  lemma CutUnitSwallows(a: string) returns (t: Token)
    requires a != [] && TokenOf(a).1 > |a|
    ensures Tokens(a) == [Skipped] && Tokens(a + "m") == [t]
    ensures t == Skipped || (t.Sequence? && t.final == 'm')
  {
    if |a| == 1 {
    } else if a[1] == '[' {
      FinalIsAppended(a, 2);
    } else {
      TitleStaysOpen(a, 2);
    }
    t := TokenOf(a + "m").0;
    assert Rest(a + "m", TokenOf(a + "m").1) == [];
  }

  lemma {:induction false} CutSwallows(a: string) returns (init: seq<Token>, t: Token)
    requires !Complete(a)
    ensures Tokens(a) == init + [Skipped] && Tokens(a + "m") == init + [t]
    ensures t == Skipped || (t.Sequence? && t.final == 'm')
    decreases |a|
  {
    if TokenOf(a).1 > |a| {
      init := [];
      t := CutUnitSwallows(a);
    } else {
      var rest := Rest(a, TokenOf(a).1);
      var (first, last) := ([TokenOf(a).0], "m");
      TokenInFirst(a, last);
      RestInFirst(a, last, TokenOf(a).1);
      TokensBegin(a, rest);
      TokensBegin(a + last, rest + last);
      var before;
      before, t := CutSwallows(rest);
      init := first + before;
      Associates(first, before, [Skipped]);
      Associates(first, before, [t]);
    }
  }

  /** A text splits off as units of its own exactly when it cuts no escape sequence. */
  lemma UnitsSplitIff(a: string)
    ensures Complete(a) <==> forall b :: Tokens(a + b) == Tokens(a) + Tokens(b)
  {
    if Complete(a) {
      forall b ensures Tokens(a + b) == Tokens(a) + Tokens(b) { TokensSplit(a, b); }
    } else {
      var init, t := CutSwallows(a);
      assert Rest("m", 1) == [] && |Tokens("m")| == 1;
      assert |Tokens(a + "m")| != |Tokens(a)| + |Tokens("m")|;
    }
  }

  /** After a cut the next letter is taken for the end of the sequence: fed apart, it is drawn. */
  lemma CutLetterIsDrawn(w: Width, d: Display, a: string)
    requires Shaped(d) && !Complete(a)
    ensures Feed(w, d, a + "m") == Feed(w, d, a)
    ensures Feed(w, Feed(w, d, a), "m") == Put(w, Feed(w, d, a), 'm')
  {
    var init, t := CutSwallows(a);
    PerformSplit(w, d, init, [Skipped]);
    PerformSplit(w, d, init, [t]);
    LastUnitDoesNothing(w, PerformAll(w, d, init), t);
    LastUnitDoesNothing(w, PerformAll(w, d, init), Skipped);
    LetterIsPut(w, Feed(w, d, a));
  }

  lemma LastUnitDoesNothing(w: Width, d: Display, t: Token)
    requires Shaped(d) && (t == Skipped || (t.Sequence? && t.final == 'm'))
    ensures PerformAll(w, d, [t]) == d
  {
    PerformStep(w, d, t, []);
    assert [t] + [] == [t];
  }

  lemma LetterIsPut(w: Width, d: Display)
    requires Shaped(d)
    ensures Feed(w, d, "m") == Put(w, d, 'm')
  {
    assert Rest("m", 1) == [];
    assert Tokens("m") == [Single('m')];
    PerformStep(w, d, Single('m'), []);
    assert [Single('m')] + [] == [Single('m')];
  }

  // How far right a list of units can take the cursor.

  function Reach(t: Token): nat {
    match t
    case Sequence(params, _) => Arg(Args(params), 0, 1) + Arg(Args(params), 1, 1) + 1
    case Skipped => 0
    case Single(_) => 1
  }

  function ReachAll(tokens: seq<Token>): nat {
    if tokens == [] then 0 else Reach(tokens[0]) + ReachAll(tokens[1..])
  }

  lemma UnitReaches(w: Width, d: Display, t: Token)
    requires Shaped(d) && forall c :: w(c) == 1
    ensures Perform(w, d, t).col <= d.col + Reach(t)
  {
  }

  lemma {:induction false} UnitsReach(w: Width, d: Display, tokens: seq<Token>)
    requires Shaped(d) && forall c :: w(c) == 1
    ensures PerformAll(w, d, tokens).col <= d.col + ReachAll(tokens)
    decreases |tokens|
  {
    if tokens != [] {
      UnitReaches(w, d, tokens[0]);
      UnitsReach(w, Perform(w, d, tokens[0]), tokens[1..]);
    }
  }

  /** For every cut text there is a screen on which feeding it apart shows. */
  lemma CutShows(a: string) returns (w: Width, d: Display)
    requires !Complete(a)
    ensures Shaped(d) && Feed(w, d, a + "m") != Feed(w, Feed(w, d, a), "m")
  {
    w := c => 1;
    var cols := ReachAll(Tokens(a)) + 2;
    d := Display(1, cols, BlankGrid(1, cols), 0, 0);
    UnitsReach(w, d, Tokens(a));
    CutLetterIsDrawn(w, d, a);
    assert Put(w, Feed(w, d, a), 'm').col == Feed(w, d, a).col + 1;
  }

  /**
   A text may be fed apart from what follows it, on every screen and whatever follows,
   exactly when it cuts no escape sequence.
   */
  lemma FeedsInPartsIff(a: string)
    ensures Complete(a) <==>
      forall w: Width, d: Display, b: string | Shaped(d) :: Feed(w, d, a + b) == Feed(w, Feed(w, d, a), b)
  {
    if Complete(a) {
      forall w: Width, d: Display, b: string | Shaped(d) ensures Feed(w, d, a + b) == Feed(w, Feed(w, d, a), b) {
        FeedsInParts(w, d, a, b);
      }
    } else {
      var w, d := CutShows(a);
    }
  }

  // ----------------------------------------------------------- reading it back

  lemma {:induction false} FinalAfterPlain(text: string, k: nat, n: nat)
    requires k <= n < |text| && IsFinal(text[n])
    requires forall i :: k <= i < n ==> !IsFinal(text[i])
    ensures FinalAt(text, k) == n
    decreases n - k
  {
    if k < n { FinalAfterPlain(text, k + 1, n); }
  }

  /** A complete control sequence is read as one unit. */
  lemma SequenceIsRead(params: string, final: char)
    requires Plain(params) && IsFinal(final)
    ensures var text := [ESC, '['] + params + [final];
      Complete(text) && Tokens(text) == [Sequence(params, final)]
  {
    var text := [ESC, '['] + params + [final];
    var n := |params| + 2;
    assert text[n] == final;
    assert forall i :: 2 <= i < n ==> text[i] == params[i - 2];
    FinalAfterPlain(text, 2, n);
    assert text[2..n] == params;
    assert Rest(text, n + 1) == [];
  }

  lemma {:induction false} NoSeparator(s: string, sep: char)
    requires sep !in s
    ensures SplitOn(s, sep) == [s]
  {
    if s != [] {
      assert forall c :: c in s[1..] ==> c in s;
      NoSeparator(s[1..], sep);
      assert s == [s[0]] + s[1..];
    }
  }

  lemma {:induction false} SplitsAtSeparator(a: string, b: string, sep: char)
    requires sep !in a
    ensures SplitOn(a + [sep] + b, sep) == [a] + SplitOn(b, sep)
  {
    var s := a + [sep] + b;
    if a == [] {
      assert s[1..] == b;
    } else {
      assert s[1..] == a[1..] + [sep] + b;
      assert forall c :: c in a[1..] ==> c in a;
      SplitsAtSeparator(a[1..], b, sep);
      assert a == [a[0]] + a[1..];
    }
  }

  lemma DigitsAreNoMarks(n: nat)
    ensures ';' !in Digits(n) && Digits(n)[0] != '?' && Plain(Digits(n))
  {
    var s := Digits(n);
    assert forall c :: c in s ==> IsDigit(c);
    assert IsDigit(s[0]);
  }

  lemma TwoNumbers(a: string, b: string)
    requires a != [] && AllDigits(a) && b != [] && AllDigits(b)
    ensures Numbers([a, b]) == [Value(a), Value(b)]
  {
    assert [a, b][1..] == [b] && [b][1..] == [];
    assert Numbers([b]) == [Value(b)];
  }

  lemma MoveArguments(row: nat, col: nat)
    ensures Args(Digits(row) + ";" + Digits(col)) == [row, col]
  {
    var (a, b) := (Digits(row), Digits(col));
    var params := a + ";" + b;
    DigitsAreNoMarks(row);
    DigitsAreNoMarks(col);
    assert params[0] == a[0];
    assert StripMarks(params) == params;
    SplitsAtSeparator(a, b, ';');
    NoSeparator(b, ';');
    assert [a] + [b] == [a, b];
    TwoNumbers(a, b);
    ValueOfDigits(row);
    ValueOfDigits(col);
  }

  lemma MoveTakesCursor(w: Width, d: Display, row: nat, col: nat)
    requires Shaped(d) && row < d.rows && col < d.cols
    ensures Perform(w, d, Sequence(MoveParams(row, col), 'H')) == d.(row := row, col := col)
  {
    MoveArguments(row + 1, col + 1);
  }

  /** A row's cells after a run of characters has been written from a column on. */
  ghost predicate RunWritten(before: Display, after: Display, run: string)
    requires Shaped(before) && SameSize(before, after)
    requires 0 <= before.row && 0 <= before.col && before.col + |run| <= before.cols
  {
    forall r, c :: InGrid(before, r, c) ==>
      after.grid[r][c] == if r == before.row && before.col <= c < before.col + |run| then [run[c - before.col]]
                          else before.grid[r][c]
  }

  lemma CharacterIsWritten(w: Width, d: Display, c: char)
    requires Shaped(d) && 0 <= d.row && 0 <= d.col && Printable(w, c)
    ensures Perform(w, d, Single(c)) == Put(w, d, c) && RunWritten(d, Put(w, d, c), [c])
    ensures Put(w, d, c).row == d.row && Put(w, d, c).col == Min(d.col + 1, d.cols - 1)
  {
    assert d.grid[d.row := PutInLine(d.grid[d.row], d.col, 1, c)] == Put(w, d, c).grid;
  }

  lemma RunsJoin(d: Display, mid: Display, e: Display, c: char, rest: string)
    requires Shaped(d) && SameSize(d, mid) && SameSize(mid, e) && 0 <= d.row && 0 <= d.col
    requires d.col + 1 + |rest| <= d.cols && RunWritten(d, mid, [c])
    requires mid.row == d.row && mid.col == d.col + 1 && RunWritten(mid, e, rest)
    ensures RunWritten(d, e, [c] + rest)
  {
    forall r, k | InGrid(d, r, k)
      ensures e.grid[r][k] == if r == d.row && d.col <= k < d.col + 1 + |rest| then [([c] + rest)[k - d.col]]
                              else d.grid[r][k]
    {
      assert InGrid(mid, r, k);
    }
  }

  function Singles(run: string): (tokens: seq<Token>)
    ensures |tokens| == |run| && forall i :: 0 <= i < |run| ==> tokens[i] == Single(run[i])
  {
    seq(|run|, i requires 0 <= i < |run| => Single(run[i]))
  }

  lemma {:induction false} RunIsRead(w: Width, run: string)
    requires forall i :: 0 <= i < |run| ==> Printable(w, run[i])
    ensures Complete(run) && Tokens(run) == Singles(run)
  {
    if run != [] {
      assert Printable(w, run[0]);
      assert Rest(run, 1) == run[1..];
      RunIsRead(w, run[1..]);
      assert [Single(run[0])] + Singles(run[1..]) == Singles(run);
    }
  }

  lemma SingleIsPut(w: Width, d: Display, c: char)
    requires Shaped(d) && Printable(w, c)
    ensures Perform(w, d, Single(c)) == Put(w, d, c)
  {
  }

  lemma RunBegins(w: Width, d: Display, c: char, rest: string)
    requires Shaped(d) && Printable(w, c)
    ensures PerformAll(w, d, Singles([c] + rest)) == PerformAll(w, Put(w, d, c), Singles(rest))
  {
    var tokens := Singles([c] + rest);
    SingleIsPut(w, d, c);
    assert tokens[0] == Single(c);
    assert tokens[1..] == Singles(rest);
  }

  lemma {:induction false} RunIsWritten(w: Width, d: Display, run: string)
    requires Shaped(d) && 0 <= d.row && 0 <= d.col && d.col + |run| <= d.cols
    requires forall i :: 0 <= i < |run| ==> Printable(w, run[i])
    ensures RunWritten(d, PerformAll(w, d, Singles(run)), run)
    decreases |run|
  {
    if run != [] {
      var (c, rest) := (run[0], run[1..]);
      var mid := Put(w, d, c);
      assert run == [c] + rest;
      RunBegins(w, d, c, rest);
      CharacterIsWritten(w, d, c);
      if rest == [] {
        assert PerformAll(w, mid, Singles(rest)) == mid;
      } else {
        RunIsWritten(w, mid, rest);
        RunsJoin(d, mid, PerformAll(w, mid, Singles(rest)), c, rest);
      }
    }
  }

  // ------------------------------------------------------------- the main result

  /** Every cell a list of pieces covers shows the frame, and every other cell is as it was. */
  ghost predicate Painted(w: Width, before: Display, after: Display, frame: Frame, pieces: seq<Piece>)
    requires Shaped(before) && SameSize(before, after) && Fits(w, before, frame)
  {
    forall r, c :: InGrid(before, r, c) ==>
      after.grid[r][c] == if Covered(pieces, r, c) then [frame[r][c]] else before.grid[r][c]
  }

  function PieceText(frame: Frame, p: Piece): string
    requires p.row < |frame| && p.col + p.length <= |frame[p.row]|
  {
    frame[p.row][p.col..p.col + p.length]
  }

  function StyleTokens(style: Option<string>): seq<Token> {
    match style
    case None => []
    case Some(params) => [Sequence(params, 'm')]
  }

  function PieceTokens(frame: Frame, p: Piece): seq<Token>
    requires p.row < |frame| && p.col + p.length <= |frame[p.row]|
  {
    [Sequence(MoveParams(p.row, p.col), 'H')] + StyleTokens(p.style) + Singles(PieceText(frame, p))
  }

  lemma TextIsPrintable(w: Width, d: Display, frame: Frame, p: Piece)
    requires Fits(w, d, frame) && Valid(d, p)
    ensures forall i :: 0 <= i < |PieceText(frame, p)| ==> Printable(w, PieceText(frame, p)[i])
  {
    forall i | 0 <= i < p.length ensures Printable(w, PieceText(frame, p)[i]) {
      assert PieceText(frame, p)[i] == frame[p.row][p.col + i];
    }
  }

  lemma MoveIsRead(row: nat, col: nat)
    ensures Complete(MoveTo(row, col)) && Tokens(MoveTo(row, col)) == [Sequence(MoveParams(row, col), 'H')]
  {
    DigitsAreNoMarks(row + 1);
    DigitsAreNoMarks(col + 1);
    SequenceIsRead(MoveParams(row, col), 'H');
  }

  lemma ThreeParts(x: string, y: string, z: string)
    requires Complete(x) && Complete(y) && Complete(z)
    ensures Complete(x + y + z) && Tokens(x + y + z) == Tokens(x) + Tokens(y) + Tokens(z)
  {
    TokensSplit(x, y);
    CompleteSplit(x, y);
    TokensSplit(x + y, z);
    CompleteSplit(x + y, z);
  }

  lemma TextIsRead(w: Width, d: Display, frame: Frame, p: Piece)
    requires Fits(w, d, frame) && Valid(d, p)
    ensures Complete(PieceText(frame, p)) && Tokens(PieceText(frame, p)) == Singles(PieceText(frame, p))
  {
    TextIsPrintable(w, d, frame, p);
    RunIsRead(w, PieceText(frame, p));
  }

  lemma StyleIsRead(style: Option<string>)
    requires style.Some? ==> Plain(style.value)
    ensures Complete(Styled(style)) && Tokens(Styled(style)) == StyleTokens(style)
  {
    if style.Some? { SequenceIsRead(style.value, 'm'); }
  }

  lemma PieceIsRead(w: Width, d: Display, frame: Frame, p: Piece)
    requires Fits(w, d, frame) && Valid(d, p)
    ensures Complete(Draw(frame, p)) && Tokens(Draw(frame, p)) == PieceTokens(frame, p)
  {
    MoveIsRead(p.row, p.col);
    StyleIsRead(p.style);
    TextIsRead(w, d, frame, p);
    ThreeParts(MoveTo(p.row, p.col), Styled(p.style), PieceText(frame, p));
  }

  lemma StyleDoesNothing(w: Width, d: Display, style: Option<string>)
    requires Shaped(d)
    ensures PerformAll(w, d, StyleTokens(style)) == d
  {
    if style.Some? { LastUnitDoesNothing(w, d, Sequence(style.value, 'm')); }
  }

  lemma PieceTakesEffect(w: Width, d: Display, frame: Frame, p: Piece)
    requires Shaped(d) && Fits(w, d, frame) && Valid(d, p) && p.col < d.cols
    ensures PerformAll(w, d, PieceTokens(frame, p))
         == PerformAll(w, d.(row := p.row, col := p.col), Singles(PieceText(frame, p)))
  {
    var (move, moved) := (Sequence(MoveParams(p.row, p.col), 'H'), d.(row := p.row, col := p.col));
    var (style, run) := (StyleTokens(p.style), Singles(PieceText(frame, p)));
    Associates([move], style, run);
    PerformStep(w, d, move, style + run);
    MoveTakesCursor(w, d, p.row, p.col);
    PerformSplit(w, moved, style, run);
    StyleDoesNothing(w, moved, p.style);
  }

  lemma OnePieceCovers(p: Piece, r: int, c: int)
    ensures Covered([p], r, c) <==> Covers(p, r, c)
  {
    assert p in [p];
  }

  lemma RunIsPainted(w: Width, d: Display, frame: Frame, p: Piece)
    requires Shaped(d) && Fits(w, d, frame) && Valid(d, p) && p.col < d.cols
    ensures Painted(w, d, PerformAll(w, d.(row := p.row, col := p.col), Singles(PieceText(frame, p))), frame, [p])
  {
    var (run, moved) := (PieceText(frame, p), d.(row := p.row, col := p.col));
    TextIsPrintable(w, d, frame, p);
    RunIsWritten(w, moved, run);
    var e := PerformAll(w, moved, Singles(run));
    forall r, c | InGrid(d, r, c)
      ensures e.grid[r][c] == if Covered([p], r, c) then [frame[r][c]] else d.grid[r][c]
    {
      assert InGrid(moved, r, c);
      OnePieceCovers(p, r, c);
    }
  }

  lemma PieceIsPainted(w: Width, d: Display, frame: Frame, p: Piece)
    requires Shaped(d) && Fits(w, d, frame) && Valid(d, p) && p.col < d.cols
    ensures Painted(w, d, PerformAll(w, d, PieceTokens(frame, p)), frame, [p])
  {
    PieceTakesEffect(w, d, frame, p);
    RunIsPainted(w, d, frame, p);
  }

  lemma CoveredByMore(p: Piece, rest: seq<Piece>, r: int, c: int)
    ensures Covered([p] + rest, r, c) <==> Covered([p], r, c) || Covered(rest, r, c)
  {
    if Covered([p], r, c) { assert p in [p] + rest; }
    if Covered(rest, r, c) {
      var q :| q in rest && Covers(q, r, c);
      assert q in [p] + rest;
    }
  }

  lemma PaintedInTurn(w: Width, d: Display, mid: Display, e: Display, frame: Frame, p: Piece, rest: seq<Piece>)
    requires Shaped(d) && SameSize(d, mid) && SameSize(mid, e) && Fits(w, d, frame)
    requires Painted(w, d, mid, frame, [p]) && Painted(w, mid, e, frame, rest)
    ensures Painted(w, d, e, frame, [p] + rest)
  {
    forall r, c | InGrid(d, r, c)
      ensures e.grid[r][c] == if Covered([p] + rest, r, c) then [frame[r][c]] else d.grid[r][c]
    {
      CoveredByMore(p, rest, r, c);
      assert InGrid(mid, r, c);
    }
  }

  /** Drawing any pieces in any order paints exactly the cells they cover. */
  lemma {:induction false} PiecesArePainted(w: Width, d: Display, frame: Frame, pieces: seq<Piece>)
    requires Shaped(d) && Fits(w, d, frame)
    requires forall p :: p in pieces ==> Valid(d, p) && p.col < d.cols
    ensures Painted(w, d, Feed(w, d, Paint(d, frame, pieces)), frame, pieces)
    decreases |pieces|
  {
    if pieces != [] {
      var (p, rest) := (pieces[0], pieces[1..]);
      assert pieces == [p] + rest;
      var mid := PerformAll(w, d, PieceTokens(frame, p));
      PieceIsRead(w, d, frame, p);
      FeedsInParts(w, d, Draw(frame, p), Paint(d, frame, rest));
      PieceIsPainted(w, d, frame, p);
      SamePaint(d, mid, frame, rest);
      PiecesArePainted(w, mid, frame, rest);
      PaintedInTurn(w, d, mid, Feed(w, d, Paint(d, frame, pieces)), frame, p, rest);
    }
  }

  /** The stream depends on the size of the display only. */
  lemma {:induction false} SamePaint(d: Display, e: Display, frame: Frame, pieces: seq<Piece>)
    requires d.rows == e.rows && d.cols == e.cols
    requires |frame| == d.rows && forall r :: 0 <= r < d.rows ==> |frame[r]| == d.cols
    requires forall p :: p in pieces ==> Valid(d, p)
    ensures forall p :: p in pieces ==> Valid(e, p)
    ensures Paint(d, frame, pieces) == Paint(e, frame, pieces)
    decreases |pieces|
  {
    forall p | p in pieces ensures Valid(e, p) { assert Valid(d, p); }
    if pieces != [] { SamePaint(d, e, frame, pieces[1..]); }
  }

  /** The screen shows the frame afterwards exactly when every cell left out showed it already. */
  lemma PaintShowsIff(w: Width, d: Display, frame: Frame, pieces: seq<Piece>)
    requires Shaped(d) && Fits(w, d, frame)
    requires forall p :: p in pieces ==> Valid(d, p) && p.col < d.cols
    ensures Shows(w, Feed(w, d, Paint(d, frame, pieces)), frame)
       <==> forall r, c :: InGrid(d, r, c) ==> Covered(pieces, r, c) || CellShows(d, frame, r, c)
  {
    PiecesArePainted(w, d, frame, pieces);
    var e := Feed(w, d, Paint(d, frame, pieces));
    forall r, c | InGrid(d, r, c)
      ensures CellShows(e, frame, r, c) <==> Covered(pieces, r, c) || CellShows(d, frame, r, c)
    {
      assert InGrid(e, r, c);
    }
    if Shows(w, e, frame) {
      forall r, c | InGrid(d, r, c) ensures Covered(pieces, r, c) || CellShows(d, frame, r, c) {
        assert InGrid(e, r, c) && CellShows(e, frame, r, c);
      }
    }
  }

  // ---------------------------------------------------- the streams a program sends

  /** One piece for each cell of a row, from a column on, in which two frames differ. */
  function RowDifference(a: Frame, b: Frame, row: nat, col: nat): seq<Piece>
    requires row < |a| && row < |b| && |a[row]| == |b[row]| && col <= |a[row]|
    decreases |a[row]| - col
  {
    if col == |a[row]| then []
    else (if a[row][col] == b[row][col] then [] else [Piece(row, col, 1, None)]) + RowDifference(a, b, row, col + 1)
  }

  ghost predicate SameShape(a: Frame, b: Frame) {
    |a| == |b| && forall r :: 0 <= r < |a| ==> |a[r]| == |b[r]|
  }

  ghost function Difference(a: Frame, b: Frame, row: nat): seq<Piece>
    requires SameShape(a, b) && row <= |a|
    decreases |a| - row
  {
    if row == |a| then [] else RowDifference(a, b, row, 0) + Difference(a, b, row + 1)
  }

  lemma CoveredByEither(x: seq<Piece>, y: seq<Piece>, r: int, c: int)
    ensures Covered(x + y, r, c) <==> Covered(x, r, c) || Covered(y, r, c)
  {
    if Covered(x, r, c) {
      var p :| p in x && Covers(p, r, c);
      assert p in x + y;
    }
    if Covered(y, r, c) {
      var p :| p in y && Covers(p, r, c);
      assert p in x + y;
    }
  }

  lemma {:induction false} RowDifferenceCovers(a: Frame, b: Frame, row: nat, col: nat, r: int, c: int)
    requires row < |a| && row < |b| && |a[row]| == |b[row]| && col <= |a[row]|
    ensures Covered(RowDifference(a, b, row, col), r, c) <==> r == row && col <= c < |a[row]| && a[row][c] != b[row][c]
    decreases |a[row]| - col
  {
    if col < |a[row]| {
      var p := Piece(row, col, 1, None);
      RowDifferenceCovers(a, b, row, col + 1, r, c);
      CoveredByEither(if a[row][col] == b[row][col] then [] else [p], RowDifference(a, b, row, col + 1), r, c);
      OnePieceCovers(p, r, c);
    }
  }

  predicate SingleCell(a: Frame, p: Piece) {
    p.row < |a| && p.col < |a[p.row]| && p.length == 1 && p.style == None
  }

  lemma {:induction false} RowDifferenceCells(a: Frame, b: Frame, row: nat, col: nat)
    requires row < |a| && row < |b| && |a[row]| == |b[row]| && col <= |a[row]|
    ensures forall p :: p in RowDifference(a, b, row, col) ==> SingleCell(a, p)
    decreases |a[row]| - col
  {
    if col < |a[row]| { RowDifferenceCells(a, b, row, col + 1); }
  }

  lemma {:induction false} DifferenceCells(a: Frame, b: Frame, row: nat)
    requires SameShape(a, b) && row <= |a|
    ensures forall p :: p in Difference(a, b, row) ==> SingleCell(a, p)
    decreases |a| - row
  {
    if row < |a| {
      RowDifferenceCells(a, b, row, 0);
      DifferenceCells(a, b, row + 1);
    }
  }

  lemma {:induction false} DifferenceCovers(a: Frame, b: Frame, row: nat, r: int, c: int)
    requires SameShape(a, b) && row <= |a|
    ensures Covered(Difference(a, b, row), r, c) <==> row <= r < |a| && 0 <= c < |a[r]| && a[r][c] != b[r][c]
    decreases |a| - row
  {
    if row < |a| {
      RowDifferenceCovers(a, b, row, 0, r, c);
      DifferenceCovers(a, b, row + 1, r, c);
      CoveredByEither(RowDifference(a, b, row, 0), Difference(a, b, row + 1), r, c);
    }
  }

  lemma DifferenceIsValid(w: Width, d: Display, a: Frame, b: Frame)
    requires Shaped(d) && Fits(w, d, a) && Fits(w, d, b)
    ensures SameShape(a, b) && forall p :: p in Difference(a, b, 0) ==> Valid(d, p) && p.col < d.cols
  {
    DifferenceCells(a, b, 0);
  }

  /**
   If the screen shows one frame, then feeding a cursor move and a character for each cell
   in which another frame differs makes it show the other, wherever the cursor was.
   */
  lemma DifferenceTurnsFrame(w: Width, d: Display, a: Frame, b: Frame)
    requires Shaped(d) && Fits(w, d, a) && Fits(w, d, b) && Shows(w, d, a)
    ensures SameShape(a, b)
    ensures forall p :: p in Difference(a, b, 0) ==> Valid(d, p) && p.col < d.cols
    ensures Shows(w, Feed(w, d, Paint(d, b, Difference(a, b, 0))), b)
  {
    DifferenceIsValid(w, d, a, b);
    PaintShowsIff(w, d, b, Difference(a, b, 0));
    forall r, c | InGrid(d, r, c) ensures Covered(Difference(a, b, 0), r, c) || CellShows(d, b, r, c) {
      DifferenceCovers(a, b, 0, r, c);
      assert CellShows(d, a, r, c);
    }
  }

  function Rows(d: Display): (pieces: seq<Piece>)
    ensures |pieces| == d.rows
  {
    seq(d.rows, r requires 0 <= r < d.rows => Piece(r, 0, d.cols, None))
  }

  /** Drawing every row in full shows the frame whatever was on the screen before. */
  lemma RepaintRepairs(w: Width, d: Display, frame: Frame)
    requires Shaped(d) && Fits(w, d, frame)
    ensures forall p :: p in Rows(d) ==> Valid(d, p) && p.col < d.cols
    ensures Shows(w, Feed(w, d, Paint(d, frame, Rows(d))), frame)
  {
    PaintShowsIff(w, d, frame, Rows(d));
    forall r, c | InGrid(d, r, c) ensures Covered(Rows(d), r, c) {
      assert Rows(d)[r] in Rows(d) && Covers(Rows(d)[r], r, c);
    }
  }

  lemma {:induction false} JoinOfCells(cells: Line, text: string)
    requires |cells| == |text| && forall i :: 0 <= i < |cells| ==> cells[i] == [text[i]]
    ensures Join(cells) == text
  {
    if cells != [] {
      JoinOfCells(cells[1..], text[1..]);
      assert text == [text[0]] + text[1..];
    }
  }

  /** The lines read back from a screen that shows a frame are the frame's rows, trimmed at the end. */
  lemma LinesOfFrame(w: Width, d: Display, frame: Frame)
    requires Shaped(d) && Fits(w, d, frame) && Shows(w, d, frame)
    ensures |Lines(d)| == |frame| && forall r :: 0 <= r < |frame| ==> Lines(d)[r] == TrimEnd(frame[r])
  {
    forall r | 0 <= r < |frame| ensures Lines(d)[r] == TrimEnd(frame[r]) {
      forall i | 0 <= i < d.cols ensures d.grid[r][i] == [frame[r][i]] { assert CellShows(d, frame, r, i); }
      JoinOfCells(d.grid[r], frame[r]);
    }
  }
}
