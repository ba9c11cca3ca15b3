/**
 Strings as the Rust standard library treats them: trimming Unicode white space,
 changing the case of ASCII letters, and comparing lexicographically.
 */
module Text {

  /** The Unicode `White_Space` property, which is what `str::trim` removes. */
  predicate IsWhitespace(c: char) {
    var n := c as int;
    || 9 <= n <= 13 || n == 0x20 || n == 0x85 || n == 0xA0 || n == 0x1680
    || 0x2000 <= n <= 0x200A || n == 0x2028 || n == 0x2029 || n == 0x202F
    || n == 0x205F || n == 0x3000
  }

  ghost predicate AllWhitespace(s: string) {
    forall i :: 0 <= i < |s| ==> IsWhitespace(s[i])
  }

  function TrimStart(s: string): string {
    if s == [] || !IsWhitespace(s[0]) then s else TrimStart(s[1..])
  }

  function TrimEnd(s: string): string {
    if s == [] || !IsWhitespace(s[|s| - 1]) then s else TrimEnd(s[..|s| - 1])
  }

  function Trim(s: string): string {
    TrimEnd(TrimStart(s))
  }

  function UpperChar(c: char): char {
    if 'a' <= c <= 'z' then (c as int - 32) as char else c
  }

  function LowerChar(c: char): char {
    if 'A' <= c <= 'Z' then (c as int + 32) as char else c
  }

  function ToAsciiUpper(s: string): (r: string)
    ensures |r| == |s|
    ensures forall i :: 0 <= i < |s| ==> r[i] == UpperChar(s[i])
  {
    seq(|s|, i requires 0 <= i < |s| => UpperChar(s[i]))
  }

  function ToAsciiLower(s: string): (r: string)
    ensures |r| == |s|
    ensures forall i :: 0 <= i < |s| ==> r[i] == LowerChar(s[i])
  {
    seq(|s|, i requires 0 <= i < |s| => LowerChar(s[i]))
  }

  predicate SameLetter(a: char, b: char) {
    || a == b
    || ('a' <= a <= 'z' && b as int + 32 == a as int)
    || ('a' <= b <= 'z' && a as int + 32 == b as int)
  }

  /** Names that differ at most in the case of ASCII letters. */
  ghost predicate SameName(a: string, b: string) {
    |a| == |b| && forall i :: 0 <= i < |a| ==> SameLetter(a[i], b[i])
  }

  lemma LowerLetterIff(a: char, b: char)
    ensures LowerChar(a) == LowerChar(b) <==> SameLetter(a, b)
  {
  }

  lemma LowerIsSameNameIff(a: string, b: string)
    ensures ToAsciiLower(a) == ToAsciiLower(b) <==> SameName(a, b)
  {
    if |a| == |b| {
      forall i | 0 <= i < |a| ensures ToAsciiLower(a)[i] == ToAsciiLower(b)[i] <==> SameLetter(a[i], b[i]) {
        LowerLetterIff(a[i], b[i]);
      }
    }
  }

  /** Whether neither end of a text is white space. */
  ghost predicate Tight(s: string) {
    s != [] ==> !IsWhitespace(s[0]) && !IsWhitespace(s[|s| - 1])
  }

  lemma {:induction false} TrimStartAbsorbs(lead: string, s: string)
    requires AllWhitespace(lead)
    ensures TrimStart(lead + s) == TrimStart(s)
  {
    if lead == [] {
      assert lead + s == s;
    } else {
      assert (lead + s)[1..] == lead[1..] + s;
      TrimStartAbsorbs(lead[1..], s);
    }
  }

  lemma {:induction false} TrimEndAbsorbs(s: string, trail: string)
    requires AllWhitespace(trail)
    ensures TrimEnd(s + trail) == TrimEnd(s)
  {
    if trail == [] {
      assert s + trail == s;
    } else {
      var n := |trail| - 1;
      assert (s + trail)[..|s + trail| - 1] == s + trail[..n];
      assert (s + trail)[|s + trail| - 1] == trail[n];
      TrimEndAbsorbs(s, trail[..n]);
    }
  }

  /** A trimmed text between two runs of white space is what `Trim` gives back. */
  lemma TrimUnique(lead: string, core: string, trail: string)
    requires AllWhitespace(lead) && AllWhitespace(trail) && Tight(core)
    ensures Trim(lead + core + trail) == core
  {
    assert lead + core + trail == lead + (core + trail);
    TrimStartAbsorbs(lead, core + trail);
    if core == [] {
      assert core + trail == trail + [];
      TrimStartAbsorbs(trail, []);
    } else {
      assert (core + trail)[0] == core[0];
      TrimEndAbsorbs(core, trail);
    }
  }

  lemma {:induction false} TrimStartSplits(s: string) returns (lead: string)
    ensures AllWhitespace(lead) && s == lead + TrimStart(s)
    ensures TrimStart(s) != [] ==> !IsWhitespace(TrimStart(s)[0])
  {
    if s == [] || !IsWhitespace(s[0]) {
      lead := [];
    } else {
      var t := s[1..];
      var rest := TrimStartSplits(t);
      lead := [s[0]] + rest;
      assert s == [s[0]] + t == lead + TrimStart(t);
    }
  }

  lemma {:induction false} TrimEndSplits(s: string) returns (trail: string)
    ensures AllWhitespace(trail) && s == TrimEnd(s) + trail
    ensures TrimEnd(s) != [] ==> !IsWhitespace(TrimEnd(s)[|TrimEnd(s)| - 1])
  {
    if s == [] || !IsWhitespace(s[|s| - 1]) {
      trail := [];
    } else {
      var t := s[..|s| - 1];
      var rest := TrimEndSplits(t);
      trail := rest + [s[|s| - 1]];
      assert s == t + [s[|s| - 1]] == TrimEnd(t) + trail;
    }
  }

  /** Every text is its trimmed form between two runs of white space. */
  lemma TrimSplits(s: string) returns (lead: string, trail: string)
    ensures AllWhitespace(lead) && AllWhitespace(trail)
    ensures s == lead + Trim(s) + trail
    ensures Tight(Trim(s))
  {
    lead := TrimStartSplits(s);
    trail := TrimEndSplits(TrimStart(s));
    if Trim(s) != [] { assert TrimStart(s)[0] == Trim(s)[0]; }
  }

  /** White space added around a text does not survive trimming. */
  lemma TrimAbsorbs(lead: string, s: string, trail: string)
    requires AllWhitespace(lead) && AllWhitespace(trail)
    ensures Trim(lead + s + trail) == Trim(s)
  {
    var l, t := TrimSplits(s);
    assert lead + s + trail == (lead + l) + Trim(s) + (t + trail);
    TrimUnique(lead + l, Trim(s), t + trail);
  }

  lemma TrimIdempotent(s: string)
    ensures Trim(Trim(s)) == Trim(s)
  {
    var l, t := TrimSplits(s);
    assert "" + Trim(s) + "" == Trim(s);
    TrimUnique("", Trim(s), "");
  }

  /** Changing the case of ASCII letters commutes with trimming. */
  lemma UpperTrim(s: string)
    ensures ToAsciiUpper(Trim(s)) == Trim(ToAsciiUpper(s))
  {
    var l, t := TrimSplits(s);
    var core := Trim(s);
    assert ToAsciiUpper(s) == ToAsciiUpper(l) + ToAsciiUpper(core) + ToAsciiUpper(t);
    TrimUnique(ToAsciiUpper(l), ToAsciiUpper(core), ToAsciiUpper(t));
  }

  lemma LowerTrim(s: string)
    ensures ToAsciiLower(Trim(s)) == Trim(ToAsciiLower(s))
  {
    var l, t := TrimSplits(s);
    var core := Trim(s);
    assert ToAsciiLower(s) == ToAsciiLower(l) + ToAsciiLower(core) + ToAsciiLower(t);
    TrimUnique(ToAsciiLower(l), ToAsciiLower(core), ToAsciiLower(t));
  }

  /** Lexicographic order, the order of Rust's slices and of Python's sequences. */
  predicate LexLe(a: seq<int>, b: seq<int>) {
    a == [] || (b != [] && (a[0] < b[0] || (a[0] == b[0] && LexLe(a[1..], b[1..]))))
  }

  lemma {:induction false} LexTotal(a: seq<int>, b: seq<int>)
    ensures LexLe(a, b) || LexLe(b, a)
  {
    if a != [] && b != [] && a[0] == b[0] { LexTotal(a[1..], b[1..]); }
  }

  lemma {:induction false} LexAntisymmetric(a: seq<int>, b: seq<int>)
    requires LexLe(a, b) && LexLe(b, a)
    ensures a == b
  {
    if a != [] && b != [] {
      LexAntisymmetric(a[1..], b[1..]);
      assert a == [a[0]] + a[1..];
      assert b == [b[0]] + b[1..];
    }
  }

  lemma {:induction false} LexTransitive(a: seq<int>, b: seq<int>, c: seq<int>)
    requires LexLe(a, b) && LexLe(b, c)
    ensures LexLe(a, c)
  {
    if a != [] && b != [] && c != [] && a[0] == b[0] == c[0] { LexTransitive(a[1..], b[1..], c[1..]); }
  }

  lemma {:induction false} LexCommonPrefix(p: seq<int>, a: seq<int>, b: seq<int>)
    ensures LexLe(p + a, p + b) == LexLe(a, b)
  {
    if p == [] {
      assert p + a == a && p + b == b;
    } else {
      assert (p + a)[1..] == p[1..] + a && (p + b)[1..] == p[1..] + b;
      LexCommonPrefix(p[1..], a, b);
    }
  }

  function Codes(s: string): (r: seq<int>)
    ensures |r| == |s|
    ensures forall i :: 0 <= i < |s| ==> r[i] == s[i] as int
  {
    seq(|s|, i requires 0 <= i < |s| => s[i] as int)
  }

  /** The order of `String`: code points compared from the left. */
  predicate StringLe(a: string, b: string) {
    LexLe(Codes(a), Codes(b))
  }

  lemma StringLeTotal(a: string, b: string)
    ensures StringLe(a, b) || StringLe(b, a)
  {
    LexTotal(Codes(a), Codes(b));
  }

  lemma StringLeAntisymmetric(a: string, b: string)
    requires StringLe(a, b) && StringLe(b, a)
    ensures a == b
  {
    LexAntisymmetric(Codes(a), Codes(b));
    forall i | 0 <= i < |a| ensures a[i] == b[i] {
      assert a[i] as int == Codes(a)[i] == Codes(b)[i] == b[i] as int;
    }
  }

  lemma StringLeTransitive(a: string, b: string, c: string)
    requires StringLe(a, b) && StringLe(b, c)
    ensures StringLe(a, c)
  {
    LexTransitive(Codes(a), Codes(b), Codes(c));
  }
}
