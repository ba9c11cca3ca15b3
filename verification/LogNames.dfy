/** How the rotating log appender names its files, and how it recognises them again. */
module LogNames {
  import opened Wrappers
  import opened Text
  import opened Decimal

  const U32_MAX: nat := 0xFFFF_FFFF

  /** The `(date, index)` pair a file name encodes. */
  datatype Slot = Slot(stamp: string, index: nat)

  /** The order retention sorts by: the date as text, then the index as a number. */
  predicate SlotLe(a: Slot, b: Slot) {
    StringLe(a.stamp, b.stamp) && (a.stamp == b.stamp ==> a.index <= b.index)
  }

  function Pad3(s: string): string {
    if |s| >= 3 then s else Zeros(3 - |s|) + s
  }

  function FileName(prefix: string, slot: Slot): string {
    if slot.index == 0 then prefix + "." + slot.stamp
    else prefix + "." + slot.stamp + "." + Pad3(Digits(slot.index))
  }

  /** `str::parse::<u32>`: an optional plus sign, at least one digit, no overflow. */
  function ParseU32(s: string): Option<nat> {
    var digits := if s != [] && s[0] == '+' then s[1..] else s;
    if digits == [] || !AllDigits(digits) || Value(digits) > U32_MAX then None
    else Some(Value(digits))
  }

  /** The position of the first dot, or the length of the text when it has none. */
  function FirstDot(s: string): (k: nat)
    ensures k <= |s|
    ensures forall i :: 0 <= i < k ==> s[i] != '.'
    ensures k < |s| ==> s[k] == '.'
  {
    if s == [] || s[0] == '.' then 0 else 1 + FirstDot(s[1..])
  }

  function ParseFileName(name: string, prefix: string): Option<Slot> {
    if !(prefix <= name) then None
    else
      var tail := name[|prefix|..];
      if tail == [] || tail[0] != '.' then None
      else
        ParseSlot(tail[1..])
  }

  /** Reads the part of a name after the prefix and its dot. */
  function ParseSlot(rest: string): Option<Slot> {
    if |rest| < 10 || rest[4] != '-' then None
    else
      var dot := FirstDot(rest);
      if dot == |rest| then Some(Slot(rest, 0))
      else
        match ParseU32(rest[dot + 1..])
        case None => None
        case Some(index) => Some(Slot(rest[..dot], index))
  }

  ghost predicate DotFree(s: string) {
    forall i :: 0 <= i < |s| ==> s[i] != '.'
  }

  lemma DigitsParse(index: nat)
    requires index <= U32_MAX
    ensures ParseU32(Pad3(Digits(index))) == Some(index)
  {
    ValueOfDigits(index);
    var d := Digits(index);
    if |d| < 3 { LeadingZeros(3 - |d|, d); }
    assert AllDigits(Pad3(d)) && Value(Pad3(d)) == index;
    assert IsDigit(Pad3(d)[0]);
  }

  /** The part of a file name after the date. */
  function Suffix(index: nat): string {
    if index == 0 then "" else "." + Pad3(Digits(index))
  }

  lemma DottedRestParses(stamp: string, text: string)
    requires |stamp| >= 10 && DotFree(stamp) && stamp[4] == '-'
    ensures ParseSlot(stamp + "." + text)
         == match ParseU32(text) case None => None case Some(index) => Some(Slot(stamp, index))
  {
    var rest := stamp + "." + text;
    assert rest[|stamp|] == '.';
    assert FirstDot(rest) == |stamp|;
    assert rest[|stamp| + 1..] == text;
    assert rest[..|stamp|] == stamp;
  }

  lemma SuffixReadsBack(stamp: string, index: nat)
    requires |stamp| >= 10 && DotFree(stamp) && stamp[4] == '-' && index <= U32_MAX
    ensures ParseSlot(stamp + Suffix(index)) == Some(Slot(stamp, index))
  {
    if index == 0 {
      assert stamp + Suffix(index) == stamp;
    } else {
      DigitsParse(index);
      DottedRestParses(stamp, Pad3(Digits(index)));
      assert stamp + Suffix(index) == stamp + "." + Pad3(Digits(index));
    }
  }

  lemma DottedStampNeverReadsBack(stamp: string, suffix: string)
    requires |stamp| >= 10 && !DotFree(stamp)
    ensures ParseSlot(stamp + suffix).Some? ==> ParseSlot(stamp + suffix).value.stamp != stamp
  {
    var rest := stamp + suffix;
    var i :| 0 <= i < |stamp| && stamp[i] == '.';
    assert rest[i] == '.';
    assert FirstDot(rest) <= i;
  }

  lemma NameParts(prefix: string, slot: Slot)
    ensures ParseFileName(FileName(prefix, slot), prefix) == ParseSlot(slot.stamp + Suffix(slot.index))
  {
    var name := FileName(prefix, slot);
    var rest := slot.stamp + Suffix(slot.index);
    var tail := "." + rest;
    assert name == prefix + tail;
    assert name[|prefix|..] == tail;
    assert tail[1..] == rest;
  }

  /**
   The appender recognises a name it made, and reads back its date and index, exactly
   when the date has no dot and carries its dash in the fifth place.
   */
  lemma NameReadsBackIff(prefix: string, slot: Slot)
    requires |slot.stamp| >= 10 && slot.index <= U32_MAX
    ensures ParseFileName(FileName(prefix, slot), prefix) == Some(slot)
       <==> DotFree(slot.stamp) && slot.stamp[4] == '-'
  {
    NameParts(prefix, slot);
    if !DotFree(slot.stamp) {
      DottedStampNeverReadsBack(slot.stamp, Suffix(slot.index));
    } else if slot.stamp[4] == '-' {
      SuffixReadsBack(slot.stamp, slot.index);
    }
  }

  // ----------------------------------------------------------- the text order

  lemma {:induction false} LexSameLength(a: seq<int>, b: seq<int>, x: seq<int>, y: seq<int>)
    requires |a| == |b| && a != b
    ensures LexLe(a + x, b + y) == LexLe(a, b)
  {
    assert (a + x)[1..] == a[1..] + x && (b + y)[1..] == b[1..] + y;
    if a[0] == b[0] {
      assert a == [a[0]] + a[1..] && b == [b[0]] + b[1..];
      LexSameLength(a[1..], b[1..], x, y);
    }
  }

  lemma CodesAppend(a: string, b: string)
    ensures Codes(a + b) == Codes(a) + Codes(b)
  {
  }

  lemma CodesDiffer(a: string, b: string)
    requires a != b && |a| == |b|
    ensures Codes(a) != Codes(b)
  {
    var i :| 0 <= i < |a| && a[i] != b[i];
    assert Codes(a)[i] != Codes(b)[i];
  }

  lemma PaddedDigits(i: nat)
    requires i < 1000
    ensures Pad3(Digits(i)) == [DigitChar(i / 100), DigitChar(i / 10 % 10), DigitChar(i % 10)]
  {
    if i < 10 {
    } else if i < 100 {
      assert Digits(i) == [DigitChar(i / 10)] + [DigitChar(i % 10)];
    } else {
      assert Digits(i / 10) == [DigitChar(i / 100)] + [DigitChar(i / 10 % 10)];
      assert Digits(i) == Digits(i / 10) + [DigitChar(i % 10)];
    }
  }

  lemma ThreeLex(a: seq<int>, b: seq<int>)
    requires |a| == |b| == 3
    ensures LexLe(a, b) <==>
      a[0] < b[0] || (a[0] == b[0] && (a[1] < b[1] || (a[1] == b[1] && a[2] <= b[2])))
  {
    assert a[1..][1..] == [a[2]] && b[1..][1..] == [b[2]];
    assert LexLe(a[1..][1..], b[1..][1..]) <==> a[2] <= b[2];
  }

  lemma PaddedCodes(i: nat, c: seq<int>)
    requires i < 1000 && c == Codes(Pad3(Digits(i)))
    ensures |c| == 3 && forall k :: 0 <= k < 3 ==> 48 <= c[k] <= 57
    ensures i == 100 * (c[0] - 48) + 10 * (c[1] - 48) + (c[2] - 48)
  {
    PaddedDigits(i);
    assert i / 10 / 10 == i / 100;
  }

  lemma PaddedOrder(i: nat, j: nat)
    requires i < 1000 && j < 1000
    ensures StringLe(Pad3(Digits(i)), Pad3(Digits(j))) <==> i <= j
  {
    var (a, b) := (Codes(Pad3(Digits(i))), Codes(Pad3(Digits(j))));
    PaddedCodes(i, a);
    PaddedCodes(j, b);
    ThreeLex(a, b);
  }

  lemma SuffixOrder(i: nat, j: nat)
    requires i < 1000 && j < 1000
    ensures StringLe(Suffix(i), Suffix(j)) <==> i <= j
  {
    if i > 0 && j > 0 {
      CodesAppend(".", Pad3(Digits(i)));
      CodesAppend(".", Pad3(Digits(j)));
      LexCommonPrefix(Codes("."), Codes(Pad3(Digits(i))), Codes(Pad3(Digits(j))));
      PaddedOrder(i, j);
    }
  }

  /** With at most three digits, sorting the names as text sorts the files by age. */
  lemma TextOrderIsAge(prefix: string, a: Slot, b: Slot)
    requires |a.stamp| == |b.stamp| && a.index < 1000 && b.index < 1000
    ensures StringLe(FileName(prefix, a), FileName(prefix, b)) <==> SlotLe(a, b)
  {
    var p := prefix + ".";
    assert FileName(prefix, a) == p + (a.stamp + Suffix(a.index));
    assert FileName(prefix, b) == p + (b.stamp + Suffix(b.index));
    CodesAppend(p, a.stamp + Suffix(a.index));
    CodesAppend(p, b.stamp + Suffix(b.index));
    LexCommonPrefix(Codes(p), Codes(a.stamp + Suffix(a.index)), Codes(b.stamp + Suffix(b.index)));
    CodesAppend(a.stamp, Suffix(a.index));
    CodesAppend(b.stamp, Suffix(b.index));
    if a.stamp == b.stamp {
      LexCommonPrefix(Codes(a.stamp), Codes(Suffix(a.index)), Codes(Suffix(b.index)));
      SuffixOrder(a.index, b.index);
      StringLeTotal(a.stamp, a.stamp);
    } else {
      CodesDiffer(a.stamp, b.stamp);
      LexSameLength(Codes(a.stamp), Codes(b.stamp), Codes(Suffix(a.index)), Codes(Suffix(b.index)));
    }
  }

  ghost predicate TextOrderAgreesUpTo(prefix: string, stamp: string, n: nat) {
    forall i: nat, j: nat | i <= n && j <= n ::
      StringLe(FileName(prefix, Slot(stamp, i)), FileName(prefix, Slot(stamp, j))) <==> i <= j
  }

  /** The three-digit padding keeps the text order right up to index 999 and no further. */
  lemma PaddingLimitIff(prefix: string, stamp: string, n: nat)
    ensures TextOrderAgreesUpTo(prefix, stamp, n) <==> n < 1000
  {
    StringLeTotal(stamp, stamp);
    if n < 1000 {
      forall i: nat, j: nat | i <= n && j <= n
        ensures StringLe(FileName(prefix, Slot(stamp, i)), FileName(prefix, Slot(stamp, j))) <==> i <= j
      {
        TextOrderIsAge(prefix, Slot(stamp, i), Slot(stamp, j));
      }
    } else {
      var a, b := FileName(prefix, Slot(stamp, 999)), FileName(prefix, Slot(stamp, 1000));
      var p := prefix + "." + stamp + ".";
      PaddedDigits(999);
      assert Digits(100) == Digits(10) + ['0'];
      assert Digits(1000) == "1000";
      assert a == p + "999" && b == p + "1000";
      CodesAppend(p, "999");
      CodesAppend(p, "1000");
      LexCommonPrefix(Codes(p), Codes("999"), Codes("1000"));
      assert !StringLe(a, b);
    }
  }
}
