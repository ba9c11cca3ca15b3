/**
 What keeps keys apart. HKDF maps any input to 32 bytes, so it cannot be injective; what a
 session relies on is that the inputs it uses do not collide. Under that law a derived key
 tells its session and all that went into it.
 */
module KeySeparation {
  import opened Wrappers
  import opened Text
  import opened Keys
  import opened Framing

  /** The salt, the input key material and the info of one derivation. */
  type Derivation = (seq<byte>, seq<byte>, seq<byte>)

  function Derive(p: Primitives, d: Derivation): Key {
    p.hkdf(d.0, d.1, d.2)
  }

  /** No two of these inputs derive one key. */
  ghost predicate KeptApart(p: Primitives, inputs: set<Derivation>) {
    forall d, e | d in inputs && e in inputs :: Derive(p, d) == Derive(p, e) ==> d == e
  }

  /** UTF-8 encodes different texts differently (section 3 of RFC 3629). */
  ghost predicate DistinctTexts(p: Primitives) {
    forall s: string, t: string :: p.utf8(s) == p.utf8(t) ==> s == t
  }

  /** The agreed-key derivations of these sessions over three of these Diffie-Hellman values. */
  function PairInputs(sessions: set<Key>, values: set<Key>): set<Derivation> {
    set s, u, v, w | s in sessions && u in values && v in values && w in values :: (PAIR_KEY_LABEL, s, u + v + w)
  }

  /** The static derivations of these sessions over these texts. */
  function StaticInputs(p: Primitives, sessions: set<Key>, texts: set<string>): set<Derivation> {
    set s, t | s in sessions && t in texts :: (CONTACT_KEY_LABEL, s, p.utf8(t))
  }

  // ------------------------------------------------------------- the agreed key

  /** The two mixed values, the one with the lower end's ephemeral first. */
  function InOrder(own: Key, peer: Key, mine: Key, theirs: Key): (Key, Key) {
    if LexLe(own, peer) then (mine, theirs) else (theirs, mine)
  }

  /**
   Two agreed keys are equal exactly when the sessions are and all three Diffie-Hellman values
   are, the mixed ones in the order of the static keys.
   */
  lemma PairKeyTellsItsInputs(p: Primitives, s1: Key, a1: KeyPair, e1: KeyPair, b1: Key, f1: Key,
                              s2: Key, a2: KeyPair, e2: KeyPair, b2: Key, f2: Key)
    requires var values := {p.x25519(a1.secret, b1), p.x25519(e1.secret, b1), p.x25519(a1.secret, f1),
                            p.x25519(a2.secret, b2), p.x25519(e2.secret, b2), p.x25519(a2.secret, f2)};
      KeptApart(p, PairInputs({s1, s2}, values))
    ensures PairKey(p, s1, a1, e1, b1, f1) == PairKey(p, s2, a2, e2, b2, f2)
       <==> s1 == s2 && p.x25519(a1.secret, b1) == p.x25519(a2.secret, b2)
            && InOrder(a1.public, b1, p.x25519(e1.secret, b1), p.x25519(a1.secret, f1))
               == InOrder(a2.public, b2, p.x25519(e2.secret, b2), p.x25519(a2.secret, f2))
  {
    var values := {p.x25519(a1.secret, b1), p.x25519(e1.secret, b1), p.x25519(a1.secret, f1),
                   p.x25519(a2.secret, b2), p.x25519(e2.secret, b2), p.x25519(a2.secret, f2)};
    var (v1, m1) := (p.x25519(a1.secret, b1),
                     InOrder(a1.public, b1, p.x25519(e1.secret, b1), p.x25519(a1.secret, f1)));
    var (v2, m2) := (p.x25519(a2.secret, b2),
                     InOrder(a2.public, b2, p.x25519(e2.secret, b2), p.x25519(a2.secret, f2)));
    var (d1, d2) := ((PAIR_KEY_LABEL, s1, v1 + m1.0 + m1.1), (PAIR_KEY_LABEL, s2, v2 + m2.0 + m2.1));
    assert d1 in PairInputs({s1, s2}, values) && d2 in PairInputs({s1, s2}, values);
    assert PairKey(p, s1, a1, e1, b1, f1) == Derive(p, d1) && PairKey(p, s2, a2, e2, b2, f2) == Derive(p, d2);
    ThreePartsEqual(v1, m1.0, m1.1, v2, m2.0, m2.1);
  }

  /**
   Between two fixed identities every session and every pair of ephemerals has its own key:
   two keys are equal exactly when the sessions are, and both ephemerals contribute the same.
   */
  lemma PairKeyIsOfOneConnection(p: Primitives, a: KeyPair, b: Key, s1: Key, e1: KeyPair, f1: Key,
                                 s2: Key, e2: KeyPair, f2: Key)
    requires var values := {p.x25519(a.secret, b), p.x25519(e1.secret, b), p.x25519(a.secret, f1),
                            p.x25519(e2.secret, b), p.x25519(a.secret, f2)};
      KeptApart(p, PairInputs({s1, s2}, values))
    ensures PairKey(p, s1, a, e1, b, f1) == PairKey(p, s2, a, e2, b, f2)
       <==> s1 == s2 && p.x25519(e1.secret, b) == p.x25519(e2.secret, b)
            && p.x25519(a.secret, f1) == p.x25519(a.secret, f2)
  {
    assert {p.x25519(a.secret, b), p.x25519(e1.secret, b), p.x25519(a.secret, f1),
            p.x25519(a.secret, b), p.x25519(e2.secret, b), p.x25519(a.secret, f2)}
        == {p.x25519(a.secret, b), p.x25519(e1.secret, b), p.x25519(a.secret, f1),
            p.x25519(e2.secret, b), p.x25519(a.secret, f2)};
    PairKeyTellsItsInputs(p, s1, a, e1, b, f1, s2, a, e2, b, f2);
  }

  // ------------------------------------------------------------- the static key

  /** The two normalised identities, the smaller first. */
  function Sorted(a: string, b: string): (string, string) {
    var (x, y) := (NormalizeIdentity(a), NormalizeIdentity(b));
    if StringLe(x, y) then (x, y) else (y, x)
  }

  function Joined(a: string, b: string): string {
    Sorted(a, b).0 + ":" + Sorted(a, b).1
  }

  /** The second pair is the first with a part, colon and all, moved from one identity to the other. */
  ghost predicate ShiftedByColon(a: (string, string), b: (string, string)) {
    exists x: string :: b.0 == a.0 + ":" + x && a.1 == x + ":" + b.1
  }

  ghost predicate HasNoColon(s: string) {
    forall i :: 0 <= i < |s| ==> s[i] != ':'
  }

  lemma SamePair(a: string, b: string, c: string, d: string)
    ensures Sorted(a, b) == Sorted(c, d)
       <==> {NormalizeIdentity(a), NormalizeIdentity(b)} == {NormalizeIdentity(c), NormalizeIdentity(d)}
  {
    var (x, y, u, v) := (NormalizeIdentity(a), NormalizeIdentity(b), NormalizeIdentity(c), NormalizeIdentity(d));
    StringLeTotal(x, y);
    StringLeTotal(u, v);
    if StringLe(x, y) && StringLe(y, x) { StringLeAntisymmetric(x, y); }
    if StringLe(u, v) && StringLe(v, u) { StringLeAntisymmetric(u, v); }
    if {x, y} == {u, v} {
      assert x in {u, v} && y in {u, v} && u in {x, y} && v in {x, y};
    }
  }

  lemma ColonSplits(a: string, b: string, c: string, d: string)
    requires |a| < |c| && a + ":" + b == c + ":" + d
    ensures c == a + ":" + c[|a| + 1..] && b == c[|a| + 1..] + ":" + d
  {
    var (s, x) := (a + ":" + b, c[|a| + 1..]);
    assert s[..|a|] == a && s[|a|] == ':' && s[|a| + 1..] == b;
    assert s[..|c|] == c && s[|c|] == ':' && s[|c| + 1..] == d;
    assert c == s[..|a|] + [s[|a|]] + x;
    assert b == s[|a| + 1..|c|] + [s[|c|]] + s[|c| + 1..];
    assert x == s[|a| + 1..|c|];
  }

  lemma JoinedEqualIff(a: (string, string), b: (string, string))
    ensures a.0 + ":" + a.1 == b.0 + ":" + b.1 <==> a == b || ShiftedByColon(a, b) || ShiftedByColon(b, a)
  {
    if a.0 + ":" + a.1 == b.0 + ":" + b.1 {
      if |a.0| < |b.0| {
        ColonSplits(a.0, a.1, b.0, b.1);
      } else if |b.0| < |a.0| {
        ColonSplits(b.0, b.1, a.0, a.1);
      } else {
        var s := a.0 + ":" + a.1;
        assert s[..|a.0|] == a.0 && s[|a.0| + 1..] == a.1;
        assert s[..|b.0|] == b.0 && s[|b.0| + 1..] == b.1;
      }
    } else {
      ShiftJoins(a, b);
      ShiftJoins(b, a);
    }
  }

  lemma ShiftJoins(a: (string, string), b: (string, string))
    ensures ShiftedByColon(a, b) ==> a.0 + ":" + a.1 == b.0 + ":" + b.1
  {
    if ShiftedByColon(a, b) {
      var x: string :| b.0 == a.0 + ":" + x && a.1 == x + ":" + b.1;
      assert a.0 + ":" + (x + ":" + b.1) == (a.0 + ":" + x) + ":" + b.1;
    }
  }

  lemma NoColonNoShift(a: (string, string), b: (string, string))
    requires HasNoColon(b.0)
    ensures !ShiftedByColon(a, b)
  {
    forall x: string ensures b.0 != a.0 + ":" + x {
      assert (a.0 + ":" + x)[|a.0|] == ':';
    }
  }

  /**
   Two static keys are equal exactly when the sessions are and the normalised pairs are, in
   any order, or one pair is the other with a part moved across the colon between them.
   */
  lemma ContactKeyTellsItsPairIff(p: Primitives, s1: Key, a: string, b: string, s2: Key, c: string, d: string)
    requires DistinctTexts(p) && KeptApart(p, StaticInputs(p, {s1, s2}, {Joined(a, b), Joined(c, d)}))
    requires ContactKey(p, s1, a, b).Some? && ContactKey(p, s2, c, d).Some?
    ensures ContactKey(p, s1, a, b) == ContactKey(p, s2, c, d)
       <==> s1 == s2 && ({NormalizeIdentity(a), NormalizeIdentity(b)} == {NormalizeIdentity(c), NormalizeIdentity(d)}
                         || ShiftedByColon(Sorted(a, b), Sorted(c, d)) || ShiftedByColon(Sorted(c, d), Sorted(a, b)))
  {
    var (d1, d2) := ((CONTACT_KEY_LABEL, s1, p.utf8(Joined(a, b))), (CONTACT_KEY_LABEL, s2, p.utf8(Joined(c, d))));
    var inputs := StaticInputs(p, {s1, s2}, {Joined(a, b), Joined(c, d)});
    assert d1 in inputs && d2 in inputs;
    assert ContactKey(p, s1, a, b).value == Derive(p, d1) && ContactKey(p, s2, c, d).value == Derive(p, d2);
    JoinedEqualIff(Sorted(a, b), Sorted(c, d));
    SamePair(a, b, c, d);
  }

  lemma {:induction false} HexHasNoColon(b: seq<byte>)
    ensures HasNoColon(EncodeUpper(b))
  {
    if b != [] { HexHasNoColon(b[1..]); }
  }

  /** Between announced public keys the static key tells the session and the unordered pair. */
  lemma ContactKeyTellsItsKeys(p: Primitives, s1: Key, a: Key, b: Key, s2: Key, c: Key, d: Key)
    requires var (x, y) := (Joined(PublicHex(a), PublicHex(b)), Joined(PublicHex(c), PublicHex(d)));
      DistinctTexts(p) && KeptApart(p, StaticInputs(p, {s1, s2}, {x, y}))
    ensures ContactKey(p, s1, PublicHex(a), PublicHex(b)).Some? && ContactKey(p, s2, PublicHex(c), PublicHex(d)).Some?
    ensures ContactKey(p, s1, PublicHex(a), PublicHex(b)) == ContactKey(p, s2, PublicHex(c), PublicHex(d))
       <==> s1 == s2 && {a, b} == {c, d}
  {
    var (w, x, y, z) := (PublicHex(a), PublicHex(b), PublicHex(c), PublicHex(d));
    PublicHexReadsBack(a);
    PublicHexReadsBack(b);
    PublicHexReadsBack(c);
    PublicHexReadsBack(d);
    HexHasNoColon(a);
    HexHasNoColon(b);
    HexHasNoColon(c);
    HexHasNoColon(d);
    NoColonNoShift(Sorted(w, x), Sorted(y, z));
    NoColonNoShift(Sorted(y, z), Sorted(w, x));
    ContactKeyTellsItsPairIff(p, s1, w, x, s2, y, z);
    SameTexts(a, b, c, d);
  }

  lemma SameTexts(a: Key, b: Key, c: Key, d: Key)
    ensures {PublicHex(a), PublicHex(b)} == {PublicHex(c), PublicHex(d)} <==> {a, b} == {c, d}
  {
    PublicHexReadsBack(a);
    PublicHexReadsBack(b);
    PublicHexReadsBack(c);
    PublicHexReadsBack(d);
    var (s, t) := ({PublicHex(a), PublicHex(b)}, {PublicHex(c), PublicHex(d)});
    if s == t {
      assert PublicHex(a) in t && PublicHex(b) in t && PublicHex(c) in s && PublicHex(d) in s;
    }
    if {a, b} == {c, d} {
      assert a in {c, d} && b in {c, d} && c in {a, b} && d in {a, b};
    }
  }

  /** With a colon in an identity the pair is not told: two different pairs have one static key. */
  lemma ColonConfusesPairs(p: Primitives, session: Key)
    ensures {NormalizeIdentity("A"), NormalizeIdentity("B:C")} != {NormalizeIdentity("A:B"), NormalizeIdentity("C")}
    ensures ContactKey(p, session, "A", "B:C").Some?
    ensures ContactKey(p, session, "A", "B:C") == ContactKey(p, session, "A:B", "C")
  {
    TightIsTrimmed("A");
    TightIsTrimmed("B:C");
    TightIsTrimmed("A:B");
    TightIsTrimmed("C");
    assert "A" + ":" + "B:C" == "A:B" + ":" + "C";
    assert ToAsciiUpper("B:C") == "B:C" && ToAsciiUpper("A:B") == "A:B";
    assert ToAsciiUpper("A") == "A" && ToAsciiUpper("C") == "C";
    assert Codes("A")[0] == 65 && Codes("B:C")[0] == 66 && Codes("A:B")[0] == 65 && Codes("C")[0] == 67;
    assert "A" != "A:B" && "A" != "C";
  }

  lemma TightIsTrimmed(s: string)
    requires s != "" && !IsWhitespace(s[0]) && !IsWhitespace(s[|s| - 1])
    ensures Trim(s) == s
  {
    assert "" + s + "" == s;
    TrimUnique("", s, "");
  }

  function PairInput(p: Primitives, s: Key, a: KeyPair, e: KeyPair, b: Key, f: Key): Derivation {
    var m := InOrder(a.public, b, p.x25519(e.secret, b), p.x25519(a.secret, f));
    (PAIR_KEY_LABEL, s, p.x25519(a.secret, b) + m.0 + m.1)
  }

  function StaticInput(p: Primitives, s: Key, a: string, b: string): Derivation {
    (CONTACT_KEY_LABEL, s, p.utf8(Joined(a, b)))
  }

  lemma DerivedFrom(p: Primitives, s: Key, a: KeyPair, e: KeyPair, b: Key, f: Key, c: string, d: string)
    ensures PairKey(p, s, a, e, b, f) == Derive(p, PairInput(p, s, a, e, b, f))
    ensures ContactKey(p, s, c, d).Some? ==> ContactKey(p, s, c, d).value == Derive(p, StaticInput(p, s, c, d))
  {
  }

  /** An agreed key is never a static one. */
  lemma AgreedIsNotStatic(p: Primitives, s1: Key, a: KeyPair, e: KeyPair, b: Key, f: Key, s2: Key, c: string, d: string)
    requires KeptApart(p, {PairInput(p, s1, a, e, b, f), StaticInput(p, s2, c, d)})
    ensures ContactKey(p, s2, c, d) != Some(PairKey(p, s1, a, e, b, f))
  {
    DerivedFrom(p, s1, a, e, b, f, c, d);
    DerivedFrom(p, s2, a, e, b, f, c, d);
    LabelsDiffer();
    var (d1, d2) := (PairInput(p, s1, a, e, b, f), StaticInput(p, s2, c, d));
    assert d1.0 != d2.0;
  }

  lemma LabelsDiffer()
    ensures PAIR_KEY_LABEL != CONTACT_KEY_LABEL
  {
    var k := |"metaText/contact-key/v"|;
    assert PAIR_KEY_LABEL[k] == '2' as int && CONTACT_KEY_LABEL[k] == '1' as int;
  }

  // ------------------------------------------------------- the laws can be met

  function IndexOf<T(==)>(list: seq<T>, x: T): (i: nat)
    ensures i <= |list| && (x in list ==> i < |list| && list[i] == x)
  {
    if list == [] || list[0] == x then 0 else 1 + IndexOf(list[1..], x)
  }

  lemma {:induction false} Enumerate<T>(inputs: set<T>) returns (list: seq<T>)
    ensures |list| == |inputs| && forall x :: x in inputs ==> x in list
    decreases |inputs|
  {
    list := [];
    if inputs != {} {
      var x :| x in inputs;
      var rest := Enumerate(inputs - {x});
      list := [x] + rest;
    }
  }

  function WideChar(c: char): (b: seq<byte>)
    ensures |b| == 3
  {
    BigEndian(3, c as int)
  }

  function WideText(s: string): (b: seq<byte>)
    ensures |b| == 3 * |s|
  {
    if s == [] then [] else WideChar(s[0]) + WideText(s[1..])
  }

  lemma WideCharIsDistinct(c: char, d: char)
    requires WideChar(c) == WideChar(d)
    ensures c == d
  {
    assert Pow256(3) == 0x100_0000 by { assert Pow256(2) == 65536; }
    BigEndianRoundTrip(3, c as int);
    BigEndianRoundTrip(3, d as int);
  }

  lemma {:induction false} WideTextIsDistinct(s: string, t: string)
    requires WideText(s) == WideText(t)
    ensures s == t
  {
    if s != [] {
      assert WideText(s)[..3] == WideChar(s[0]) && WideText(s)[3..] == WideText(s[1..]);
      assert WideText(t)[..3] == WideChar(t[0]) && WideText(t)[3..] == WideText(t[1..]);
      WideCharIsDistinct(s[0], t[0]);
      WideTextIsDistinct(s[1..], t[1..]);
      assert s == [s[0]] + s[1..] && t == [t[0]] + t[1..];
    }
  }

  lemma IndexesAreDistinct<T>(list: seq<T>, d: T, e: T)
    requires d in list && e in list && |list| <= Pow256(KEY_LENGTH)
    requires BigEndian(KEY_LENGTH, IndexOf(list, d)) == BigEndian(KEY_LENGTH, IndexOf(list, e))
    ensures d == e
  {
    BigEndianRoundTrip(KEY_LENGTH, IndexOf(list, d));
    BigEndianRoundTrip(KEY_LENGTH, IndexOf(list, e));
  }

  lemma IndexedIsApart(p: Primitives, list: seq<Derivation>, inputs: set<Derivation>)
    requires |list| <= Pow256(KEY_LENGTH) && forall d :: d in inputs ==> d in list
    requires forall d: Derivation :: Derive(p, d) == BigEndian(KEY_LENGTH, IndexOf(list, d))
    ensures KeptApart(p, inputs)
  {
    forall d, e | d in inputs && e in inputs && Derive(p, d) == Derive(p, e) ensures d == e {
      IndexesAreDistinct(list, d, e);
    }
  }

  /** Commutation and the AEAD say nothing of the other primitives. */
  lemma OtherPrimitivesAreFree(p: Primitives, q: Primitives)
    requires Commutes(p) && IdealAead(p)
    requires q.basepoint == p.basepoint && q.x25519 == p.x25519 && q.seal == p.seal && q.unseal == p.unseal
    ensures Commutes(q) && IdealAead(q)
  {
  }

  lemma WideTextsAreDistinct()
    ensures forall s: string, t: string :: WideText(s) == WideText(t) ==> s == t
  {
    forall s: string, t: string | WideText(s) == WideText(t) ensures s == t { WideTextIsDistinct(s, t); }
  }

  /**
   For any inputs that do not outnumber the keys there are primitives that keep all the laws;
   their Diffie-Hellman and their encoding of texts do not depend on the inputs.
   */
  lemma ApartIsConsistent(inputs: set<Derivation>) returns (p: Primitives)
    requires |inputs| <= Pow256(KEY_LENGTH)
    ensures Commutes(p) && IdealAead(p) && DistinctTexts(p) && KeptApart(p, inputs)
    ensures p.basepoint == AdditivePrimitives().basepoint && p.x25519 == AdditivePrimitives().x25519
    ensures p.utf8 == WideText
  {
    var list := Enumerate(inputs);
    p := AdditivePrimitives().(hkdf := (salt, ikm, info) => BigEndian(KEY_LENGTH, IndexOf(list, (salt, ikm, info))),
                               utf8 := WideText);
    AdditiveLaws();
    OtherPrimitivesAreFree(AdditivePrimitives(), p);
    WideTextsAreDistinct();
    IndexedIsApart(p, list, inputs);
  }
}
